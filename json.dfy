/**
 * The plain values the store holds: JSON-like data whose objects keep
 * their keys in insertion order, as JavaScript objects do.
 */
module Json {
  import opened Wrappers

  datatype Atom = Null | Bool(b: bool) | Num(n: int) | Str(s: string)

  datatype Json =
    | Scalar(atom: Atom)
    | Seq(items: seq<Json>)
    | Obj(fields: seq<(string, Json)>)

  /** `v instanceof Array` */
  predicate IsArray(v: Json) { v.Seq? }

  /** `v instanceof Object`: true of arrays as well as of plain objects. */
  predicate IsObject(v: Json) { v.Seq? || v.Obj? }

  function Digit(d: nat): char
    requires d < 10
  {
    "0123456789"[d]
  }

  /** The property name JavaScript uses for index `n` of an array or a string. */
  function DecimalKey(n: nat): (r: string)
    ensures |r| > 0
    ensures n >= 10 <==> |r| > 1
  {
    if n < 10 then [Digit(n)] else DecimalKey(n / 10) + [Digit(n % 10)]
  }

  lemma {:induction false} DecimalKeyInjective(m: nat, n: nat)
    requires DecimalKey(m) == DecimalKey(n)
    ensures m == n
  {
    var km, kn := DecimalKey(m), DecimalKey(n);
    assert km[|km| - 1] == kn[|kn| - 1];
    if m >= 10 && n >= 10 {
      assert DecimalKey(m / 10) == km[..|km| - 1] == kn[..|kn| - 1] == DecimalKey(n / 10);
      DecimalKeyInjective(m / 10, n / 10);
      assert Digit(m % 10) == Digit(n % 10);
    } else {
      assert Digit(m % 10) == Digit(n % 10);
    }
  }

  function KeysOf<T>(fields: seq<(string, T)>): (r: seq<string>)
    ensures |r| == |fields|
    ensures forall i :: 0 <= i < |fields| ==> r[i] == fields[i].0
  {
    seq(|fields|, i requires 0 <= i < |fields| => fields[i].0)
  }

  lemma KeysOfAppend<T>(a: seq<(string, T)>, b: seq<(string, T)>)
    ensures KeysOf(a + b) == KeysOf(a) + KeysOf(b)
  {
  }

  lemma KeysOfCons<T>(a: seq<(string, T)>)
    requires a != []
    ensures KeysOf(a) == [a[0].0] + KeysOf(a[1..])
  {
  }

  predicate DistinctKeys<T>(fields: seq<(string, T)>) {
    forall i, j :: 0 <= i < j < |fields| ==> fields[i].0 != fields[j].0
  }

  /**
   * `Object.keys(v)` paired with `v[key]`: a plain object gives its own
   * fields, an array and a string their indices, `null` throws (None), and
   * a boolean or a number has no keys.
   */
  function Entries(v: Json): (r: Option<seq<(string, Json)>>)
    ensures r.None? <==> v == Scalar(Null)
    ensures v.Seq? ==> r.Some? && |r.value| == |v.items|
                       && forall i :: 0 <= i < |v.items| ==> r.value[i] == (DecimalKey(i), v.items[i])
    ensures v.Obj? ==> r == Some(v.fields)
    ensures r.Some? ==> forall i :: 0 <= i < |r.value| && IsObject(r.value[i].1) ==>
                          (v.Obj? && r.value[i] == v.fields[i]) || (v.Seq? && r.value[i].1 == v.items[i])
  {
    match v
    case Obj(fields) => Some(fields)
    case Seq(items) => Some(seq(|items|, i requires 0 <= i < |items| => (DecimalKey(i), items[i])))
    case Scalar(Null) => None
    case Scalar(Str(s)) => Some(seq(|s|, i requires 0 <= i < |s| => (DecimalKey(i), Scalar(Str([s[i]])))))
    case Scalar(_) => Some([])
  }

  lemma ArrayEntriesDistinct(v: Json)
    requires v.Seq?
    ensures DistinctKeys(Entries(v).value)
  {
    var es := Entries(v).value;
    forall i, j | 0 <= i < j < |es| ensures es[i].0 != es[j].0 {
      if es[i].0 == es[j].0 {
        DecimalKeyInjective(i, j);
      }
    }
  }
}
