/**
 * The reactive-form control tree: FormControl leaves, FormGroups whose
 * children keep their registration order, and FormArrays.
 */
module Controls {
  import opened Wrappers
  import opened Json

  /** What a validator reports: `control.errors` when it is not null. */
  type ValidationErrors = map<string, Json>

  datatype Control =
    | Leaf(value: Json, errors: Option<ValidationErrors>)
    | Group(children: seq<(string, Control)>)
    | Array(items: seq<Control>)

  /** `group.get(name)`: the control first registered under `name`, or null (None). */
  function Get(cs: seq<(string, Control)>, name: string): (r: Option<Control>)
    ensures r.Some? <==> name in KeysOf(cs)
  {
    if cs == [] then None
    else if cs[0].0 == name then Some(cs[0].1)
    else Get(cs[1..], name)
  }

  /** The control `get` finds is the one at the first position registered under `name`. */
  lemma {:induction false} GetFirst(cs: seq<(string, Control)>, name: string)
    requires Get(cs, name).Some?
    ensures exists i :: 0 <= i < |cs| && cs[i] == (name, Get(cs, name).value) && forall j :: 0 <= j < i ==> cs[j].0 != name
  {
    if cs[0].0 != name {
      GetFirst(cs[1..], name);
      var i :| 0 <= i < |cs| - 1 && cs[1..][i] == (name, Get(cs, name).value) && forall j :: 0 <= j < i ==> cs[1..][j].0 != name;
      assert cs[i + 1] == (name, Get(cs, name).value);
      assert forall j :: 0 <= j < i + 1 ==> cs[j].0 != name by {
        forall j | 0 <= j < i + 1
          ensures cs[j].0 != name
        {
          if j > 0 {
            assert cs[j] == cs[1..][j - 1];
          }
        }
      }
    } else {
      assert cs[0] == (name, Get(cs, name).value);
    }
  }

  lemma {:induction false} GetAppend(cs: seq<(string, Control)>, name: string, c: Control, other: string)
    ensures Get(cs + [(name, c)], other) == if other in KeysOf(cs) then Get(cs, other) else if other == name then Some(c) else None
  {
    if cs != [] {
      assert (cs + [(name, c)])[1..] == cs[1..] + [(name, c)];
      GetAppend(cs[1..], name, c, other);
      assert other in KeysOf(cs) <==> cs[0].0 == other || other in KeysOf(cs[1..]);
    }
  }

  /** Every registration under `name` taken out; the rest in order. */
  function Remove(cs: seq<(string, Control)>, name: string): (r: seq<(string, Control)>)
    ensures name !in KeysOf(r)
    ensures forall k :: k in KeysOf(r) <==> k in KeysOf(cs) && k != name
  {
    if cs == [] then []
    else if cs[0].0 == name then Remove(cs[1..], name)
    else
      KeysOfAppend([cs[0]], Remove(cs[1..], name));
      KeysOfCons(cs);
      assert KeysOf([cs[0]]) == [cs[0].0];
      [cs[0]] + Remove(cs[1..], name)
  }

  lemma {:induction false} RemoveAbsent(cs: seq<(string, Control)>, name: string)
    requires name !in KeysOf(cs)
    ensures Remove(cs, name) == cs
  {
    if cs != [] {
      assert KeysOf(cs[1..]) == KeysOf(cs)[1..];
      RemoveAbsent(cs[1..], name);
    }
  }

  lemma {:induction false} GetRemove(cs: seq<(string, Control)>, name: string, other: string)
    requires other != name
    ensures Get(Remove(cs, name), other) == Get(cs, other)
  {
    if cs != [] {
      GetRemove(cs[1..], name, other);
    }
  }

  /**
   * `group.setControl(name, c)`: Angular deletes the old registration and
   * registers `c` afresh, so `name` moves to the end of the group's order.
   */
  function SetControl(cs: seq<(string, Control)>, name: string, c: Control): (r: seq<(string, Control)>)
    ensures Get(r, name) == Some(c)
    ensures forall other :: other != name ==> Get(r, other) == Get(cs, other)
    ensures forall k :: k in KeysOf(r) <==> k in KeysOf(cs) || k == name
    ensures r[|r| - 1] == (name, c)
  {
    var r := Remove(cs, name) + [(name, c)];
    GetAppend(Remove(cs, name), name, c, name);
    forall other | other != name ensures Get(r, other) == Get(cs, other) {
      GetAppend(Remove(cs, name), name, c, other);
      GetRemove(cs, name, other);
    }
    KeysOfAppend(Remove(cs, name), [(name, c)]);
    r
  }

  /** `group.addControl(name, c)`: does nothing when `name` is already registered. */
  function AddControl(cs: seq<(string, Control)>, name: string, c: Control): (r: seq<(string, Control)>)
    ensures name in KeysOf(cs) ==> r == cs
    ensures name !in KeysOf(cs) ==> r == cs + [(name, c)]
  {
    if name in KeysOf(cs) then cs else cs + [(name, c)]
  }

  /** A nested group mutated in place: the first registration under `name` now holds `c`. */
  function Replace(cs: seq<(string, Control)>, name: string, c: Control): (r: seq<(string, Control)>)
    ensures KeysOf(r) == KeysOf(cs)
    ensures Get(r, name) == if name in KeysOf(cs) then Some(c) else None
    ensures forall other :: other != name ==> Get(r, other) == Get(cs, other)
  {
    if cs == [] then []
    else if cs[0].0 == name then
      KeysOfAppend([(name, c)], cs[1..]);
      KeysOfCons(cs);
      assert KeysOf([(name, c)]) == [name];
      [(name, c)] + cs[1..]
    else
      KeysOfAppend([cs[0]], Replace(cs[1..], name, c));
      KeysOfCons(cs);
      assert KeysOf([cs[0]]) == [cs[0].0];
      [cs[0]] + Replace(cs[1..], name, c)
  }

  /** Replacing past a first registration under another name. */
  lemma ReplaceCons(first: (string, Control), tail: seq<(string, Control)>, name: string, c: Control)
    requires first.0 != name
    ensures Replace([first] + tail, name, c) == [first] + Replace(tail, name, c)
  {
    assert ([first] + tail)[1..] == tail;
  }

  lemma {:induction false} GetConcat(cs: seq<(string, Control)>, more: seq<(string, Control)>, name: string)
    ensures Get(cs + more, name) == if name in KeysOf(cs) then Get(cs, name) else Get(more, name)
  {
    if cs != [] {
      assert (cs + more)[1..] == cs[1..] + more;
      GetConcat(cs[1..], more, name);
      assert name in KeysOf(cs) <==> cs[0].0 == name || name in KeysOf(cs[1..]);
    } else {
      assert cs + more == more;
    }
  }

  lemma {:induction false} RemoveConcat(cs: seq<(string, Control)>, more: seq<(string, Control)>, name: string)
    ensures Remove(cs + more, name) == Remove(cs, name) + Remove(more, name)
  {
    if cs == [] {
      assert cs + more == more;
    } else {
      assert (cs + more)[1..] == cs[1..] + more;
      RemoveConcat(cs[1..], more, name);
    }
  }

  /** Replacing one name and removing another can be done in either order. */
  lemma {:induction false} RemoveReplace(cs: seq<(string, Control)>, gone: string, name: string, c: Control)
    requires gone != name
    ensures Remove(Replace(cs, name, c), gone) == Replace(Remove(cs, gone), name, c)
  {
    if cs != [] {
      RemoveReplace(cs[1..], gone, name, c);
      if cs[0].0 == name {
        assert ([(name, c)] + cs[1..])[1..] == cs[1..];
      } else {
        assert ([cs[0]] + Replace(cs[1..], name, c))[1..] == Replace(cs[1..], name, c);
        if cs[0].0 != gone {
          assert ([cs[0]] + Remove(cs[1..], gone))[1..] == Remove(cs[1..], gone);
        }
      }
    }
  }

  lemma {:induction false} ReplaceConcat(cs: seq<(string, Control)>, more: seq<(string, Control)>, name: string, c: Control)
    requires name in KeysOf(cs) || name !in KeysOf(more)
    decreases |cs|, 1
    ensures Replace(cs + more, name, c) == Replace(cs, name, c) + more
  {
    if cs == [] {
      assert cs + more == more;
      ReplaceAbsent(more, name, c);
    } else if cs[0].0 == name {
      assert (cs + more)[1..] == cs[1..] + more;
    } else {
      ReplaceConcatTail(cs, more, name, c);
    }
  }

  lemma {:induction false} ReplaceConcatTail(cs: seq<(string, Control)>, more: seq<(string, Control)>, name: string, c: Control)
    requires cs != [] && cs[0].0 != name
    requires name in KeysOf(cs) || name !in KeysOf(more)
    decreases |cs|, 0
    ensures Replace(cs + more, name, c) == Replace(cs, name, c) + more
  {
    var first, rest := cs[0], cs[1..];
    assert cs == [first] + rest;
    ConcatAssoc([first], rest, more);
    ConcatAssoc([first], Replace(rest, name, c), more);
    assert name in KeysOf(rest) || name !in KeysOf(more) by {
      KeysOfCons(cs);
    }
    ReplaceConcat(rest, more, name, c);
    ReplaceCons(first, rest + more, name, c);
    ReplaceCons(first, rest, name, c);
    calc {
      Replace(cs + more, name, c);
      [first] + Replace(rest + more, name, c);
      [first] + (Replace(rest, name, c) + more);
      ([first] + Replace(rest, name, c)) + more;
      Replace(cs, name, c) + more;
    }
  }

  lemma ConcatAssoc<T>(a: seq<T>, b: seq<T>, c: seq<T>)
    ensures a + (b + c) == (a + b) + c
  {
  }

  lemma {:induction false} ReplaceAbsent(cs: seq<(string, Control)>, name: string, c: Control)
    requires name !in KeysOf(cs)
    ensures Replace(cs, name, c) == cs
  {
    if cs != [] {
      assert KeysOf(cs[1..]) == KeysOf(cs)[1..];
      ReplaceAbsent(cs[1..], name, c);
    }
  }

  /** Writing back the control a name already holds changes nothing. */
  lemma {:induction false} ReplaceSame(cs: seq<(string, Control)>, name: string)
    requires Get(cs, name).Some?
    ensures Replace(cs, name, Get(cs, name).value) == cs
  {
    if cs[0].0 != name {
      ReplaceSame(cs[1..], name);
    }
  }

  /** `control.value`: a group's value has one field per child, in the group's order. */
  function Value(c: Control): (r: Json)
    ensures c.Leaf? ==> r == c.value
    ensures c.Group? ==> r.Obj? && KeysOf(r.fields) == KeysOf(c.children)
    ensures c.Array? ==> r.Seq? && |r.items| == |c.items|
  {
    match c
    case Leaf(v, _) => v
    case Group(cs) => Obj(seq(|cs|, i requires 0 <= i < |cs| => (cs[i].0, Value(cs[i].1))))
    case Array(items) => Seq(seq(|items|, i requires 0 <= i < |items| => Value(items[i])))
  }
}
