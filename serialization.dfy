/**
 * A deterministic, order-preserving, depth-first encoding of values, standing
 * in for `JSON.stringify`, together with the parser that inverts it.
 */
module Serialization {
  import opened Wrappers
  import opened Json

  datatype Token = OpenArray | CloseArray | OpenObject | CloseObject | Key(name: string) | Primitive(atom: Atom)

  function Serialize(v: Json): (r: seq<Token>)
    decreases v, 1, 0
    ensures |r| > 0 && r[0] != CloseArray && r[0] != CloseObject && !r[0].Key?
  {
    match v
    case Scalar(a) => [Primitive(a)]
    case Seq(items) => [OpenArray] + SerializeItems(v, 0) + [CloseArray]
    case Obj(fields) => [OpenObject] + SerializeFields(v, 0) + [CloseObject]
  }

  function SerializeItems(v: Json, i: nat): seq<Token>
    requires v.Seq? && i <= |v.items|
    decreases v, 0, |v.items| - i
  {
    if i == |v.items| then [] else Serialize(v.items[i]) + SerializeItems(v, i + 1)
  }

  function SerializeFields(v: Json, i: nat): seq<Token>
    requires v.Obj? && i <= |v.fields|
    decreases v, 0, |v.fields| - i
  {
    if i == |v.fields| then [] else [Key(v.fields[i].0)] + Serialize(v.fields[i].1) + SerializeFields(v, i + 1)
  }

  /** Reads one value off the front of `ts`, returning it with the tokens that follow. */
  function ParseValue(ts: seq<Token>): (r: Option<(Json, seq<Token>)>)
    decreases |ts|, 1
    ensures r.Some? ==> |r.value.1| < |ts|
  {
    if ts == [] then None
    else match ts[0]
      case Primitive(a) => Some((Scalar(a), ts[1..]))
      case OpenArray => ParseItems(ts[1..], [])
      case OpenObject => ParseFields(ts[1..], [])
      case _ => None
  }

  function ParseItems(ts: seq<Token>, acc: seq<Json>): (r: Option<(Json, seq<Token>)>)
    decreases |ts|, 2
    ensures r.Some? ==> |r.value.1| < |ts|
  {
    if ts == [] then None
    else if ts[0] == CloseArray then Some((Seq(acc), ts[1..]))
    else match ParseValue(ts)
      case None => None
      case Some((x, rest)) => ParseItems(rest, acc + [x])
  }

  function ParseFields(ts: seq<Token>, acc: seq<(string, Json)>): (r: Option<(Json, seq<Token>)>)
    decreases |ts|, 2
    ensures r.Some? ==> |r.value.1| < |ts|
  {
    if ts == [] then None
    else if ts[0] == CloseObject then Some((Obj(acc), ts[1..]))
    else if !ts[0].Key? then None
    else match ParseValue(ts[1..])
      case None => None
      case Some((x, rest)) => ParseFields(rest, acc + [(ts[0].name, x)])
  }

  /** Parsing undoes serialising, whatever tokens follow. */
  lemma {:induction false} ParseSerialize(v: Json, rest: seq<Token>)
    decreases v, 1, 0
    ensures ParseValue(Serialize(v) + rest) == Some((v, rest))
  {
    match v
    case Scalar(a) =>
      assert (Serialize(v) + rest)[1..] == rest;
    case Seq(items) =>
      ParseSerializeItems(v, 0, rest);
      assert (Serialize(v) + rest)[1..] == SerializeItems(v, 0) + [CloseArray] + rest;
      assert items[..0] == [];
    case Obj(fields) =>
      ParseSerializeFields(v, 0, rest);
      assert (Serialize(v) + rest)[1..] == SerializeFields(v, 0) + [CloseObject] + rest;
      assert fields[..0] == [];
  }

  lemma {:induction false} ParseSerializeItems(v: Json, i: nat, rest: seq<Token>)
    requires v.Seq? && i <= |v.items|
    decreases v, 0, |v.items| - i
    ensures ParseItems(SerializeItems(v, i) + [CloseArray] + rest, v.items[..i]) == Some((v, rest))
  {
    var ts := SerializeItems(v, i) + [CloseArray] + rest;
    if i == |v.items| {
      assert ts == [CloseArray] + rest;
      assert ts[1..] == rest;
      assert v.items[..i] == v.items;
    } else {
      var head := Serialize(v.items[i]);
      var tail := SerializeItems(v, i + 1) + [CloseArray] + rest;
      assert ts == head + tail;
      ParseSerialize(v.items[i], tail);
      ParseSerializeItems(v, i + 1, rest);
      assert v.items[..i] + [v.items[i]] == v.items[..i + 1];
    }
  }

  lemma {:induction false} ParseSerializeFields(v: Json, i: nat, rest: seq<Token>)
    requires v.Obj? && i <= |v.fields|
    decreases v, 0, |v.fields| - i
    ensures ParseFields(SerializeFields(v, i) + [CloseObject] + rest, v.fields[..i]) == Some((v, rest))
  {
    var ts := SerializeFields(v, i) + [CloseObject] + rest;
    if i == |v.fields| {
      assert ts == [CloseObject] + rest;
      assert ts[1..] == rest;
      assert v.fields[..i] == v.fields;
    } else {
      var head := Serialize(v.fields[i].1);
      var tail := SerializeFields(v, i + 1) + [CloseObject] + rest;
      assert ts == [Key(v.fields[i].0)] + head + tail;
      assert ts[1..] == head + tail;
      ParseSerialize(v.fields[i].1, tail);
      ParseSerializeFields(v, i + 1, rest);
      assert v.fields[..i] + [(v.fields[i].0, v.fields[i].1)] == v.fields[..i + 1];
    }
  }

  /** Two values serialise alike exactly when they are the same value. */
  lemma SerializeInjective(a: Json, b: Json)
    ensures Serialize(a) == Serialize(b) <==> a == b
  {
    if Serialize(a) == Serialize(b) {
      ParseSerialize(a, []);
      ParseSerialize(b, []);
      assert Serialize(a) + [] == Serialize(b) + [];
    }
  }
}
