/**
 * Walking the same store value twice. The directive runs `updateForm` on
 * every value the store emits, and the store emits again what the form has
 * just dispatched: a second walk over the same value must leave the tree as
 * the first walk left it, and whether a walk throws depends on each key on
 * its own.
 */
module UpdateReplay {
  import opened Wrappers
  import opened Json
  import opened Controls
  import opened FormArrays
  import opened FormUpdate

  /** A store value whose plain objects, at every depth, have distinct keys, as JavaScript objects do. */
  ghost predicate KeyedTree(obj: Json)
    decreases obj
  {
    && obj.Obj?
    && DistinctKeys(obj.fields)
    && forall m :: 0 <= m < |obj.fields| && obj.fields[m].1.Obj? ==> KeyedTree(obj.fields[m].1)
  }

  // ----- When a walk throws -----

  /** Whether the key holding `values` throws, against the control `current` it finds. */
  ghost predicate StepThrows(values: Json, current: Option<Control>) {
    if IsArray(values) then RebuildArraysInForm(values).Failure?
    else if values.Obj? then
      match current
      case Some(Group(layer)) => UpdateFields(values, 0, layer).threw
      case Some(Leaf(_, _)) => ThrowsOnLeaf(values)
      case _ => ThrowsOnNull(values)
    else false
  }

  ghost predicate ThrowsFrom(obj: Json, i: nat, controls: seq<(string, Control)>)
    requires obj.Obj?
  {
    exists m :: i <= m < |obj.fields| && StepThrows(obj.fields[m].1, Get(controls, obj.fields[m].0))
  }

  /** The tree after key `i`, when that key does not throw. */
  ghost function Next(obj: Json, i: nat, controls: seq<(string, Control)>): seq<(string, Control)>
    requires obj.Obj? && i < |obj.fields|
  {
    var key := obj.fields[i].0;
    var values := obj.fields[i].1;
    var current := Get(controls, key);
    if IsArray(values) then
      match RebuildArraysInForm(values)
      case Success(a) => SetControl(controls, key, a)
      case Failure(_) => controls
    else if values.Obj? && current.Some? && current.value.Group? then
      Replace(controls, key, Group(UpdateFields(values, 0, current.value.children).controls))
    else controls
  }

  lemma StepUnfold(obj: Json, i: nat, controls: seq<(string, Control)>)
    requires obj.Obj? && i < |obj.fields|
    ensures StepThrows(obj.fields[i].1, Get(controls, obj.fields[i].0)) ==> UpdateFields(obj, i, controls).threw
    ensures !StepThrows(obj.fields[i].1, Get(controls, obj.fields[i].0)) ==>
              UpdateFields(obj, i, controls) == UpdateFields(obj, i + 1, Next(obj, i, controls))
  {
  }

  lemma NextFrame(obj: Json, i: nat, controls: seq<(string, Control)>, other: string)
    requires obj.Obj? && i < |obj.fields| && other != obj.fields[i].0
    ensures Get(Next(obj, i, controls), other) == Get(controls, other)
  {
  }

  /**
   * With distinct keys, no key sees what an earlier key did to the tree: the
   * walk throws exactly when some key throws against the control the tree
   * held for it before the walk.
   */
  lemma {:induction false} ThrowFrame(obj: Json, i: nat, controls: seq<(string, Control)>)
    requires obj.Obj? && i <= |obj.fields| && DistinctKeys(obj.fields)
    decreases |obj.fields| - i
    ensures UpdateFields(obj, i, controls).threw <==> ThrowsFrom(obj, i, controls)
  {
    if i < |obj.fields| {
      var key := obj.fields[i].0;
      var values := obj.fields[i].1;
      StepUnfold(obj, i, controls);
      ThrowsFromCons(obj, i, controls);
      if !StepThrows(values, Get(controls, key)) {
        var next := Next(obj, i, controls);
        ThrowFrame(obj, i + 1, next);
        forall m | i < m < |obj.fields| ensures Get(next, obj.fields[m].0) == Get(controls, obj.fields[m].0) {
          NextFrame(obj, i, controls, obj.fields[m].0);
        }
        ThrowsFromFrame(obj, i + 1, next, controls);
      }
    }
  }

  lemma ThrowsFromCons(obj: Json, i: nat, controls: seq<(string, Control)>)
    requires obj.Obj? && i < |obj.fields|
    ensures ThrowsFrom(obj, i, controls) <==>
              StepThrows(obj.fields[i].1, Get(controls, obj.fields[i].0)) || ThrowsFrom(obj, i + 1, controls)
  {
    if ThrowsFrom(obj, i, controls) {
      var m :| i <= m < |obj.fields| && StepThrows(obj.fields[m].1, Get(controls, obj.fields[m].0));
      assert m == i || i + 1 <= m;
    }
  }

  /** Whether the keys from `i` on throw depends only on the controls under their names. */
  lemma ThrowsFromFrame(obj: Json, i: nat, a: seq<(string, Control)>, b: seq<(string, Control)>)
    requires obj.Obj? && i <= |obj.fields|
    requires forall m :: i <= m < |obj.fields| ==> Get(a, obj.fields[m].0) == Get(b, obj.fields[m].0)
    ensures ThrowsFrom(obj, i, a) <==> ThrowsFrom(obj, i, b)
  {
    if ThrowsFrom(obj, i, a) {
      var m :| i <= m < |obj.fields| && StepThrows(obj.fields[m].1, Get(a, obj.fields[m].0));
      assert StepThrows(obj.fields[m].1, Get(b, obj.fields[m].0));
    }
    if ThrowsFrom(obj, i, b) {
      var m :| i <= m < |obj.fields| && StepThrows(obj.fields[m].1, Get(b, obj.fields[m].0));
      assert StepThrows(obj.fields[m].1, Get(a, obj.fields[m].0));
    }
  }

  // ----- The tree a walk that did not throw leaves -----

  /** What walking into a group does to its children; the facts about `Patched` hold for any such map. */
  type Walk = (Json, seq<(string, Control)>) -> seq<(string, Control)>

  ghost function WalkInto(values: Json, layer: seq<(string, Control)>): seq<(string, Control)> {
    if values.Obj? then UpdateFields(values, 0, layer).controls else layer
  }

  /** The tree with every nested group walked into from key `i` on, and no array touched. */
  ghost function Patched(obj: Json, i: nat, controls: seq<(string, Control)>, walk: Walk): seq<(string, Control)>
    requires obj.Obj? && i <= |obj.fields|
    decreases |obj.fields| - i
  {
    if i == |obj.fields| then controls
    else
      var key := obj.fields[i].0;
      var values := obj.fields[i].1;
      if values.Obj? && IsGroupAt(controls, key) then
        Patched(obj, i + 1, Replace(controls, key, Group(walk(values, Get(controls, key).value.children))), walk)
      else Patched(obj, i + 1, controls, walk)
  }

  /** The keys from `i` on whose values are arrays, in order. */
  function ArrayKeys(obj: Json, i: nat): (r: seq<string>)
    requires obj.Obj? && i <= |obj.fields|
    decreases |obj.fields| - i
    ensures forall k :: k in r <==> exists m :: i <= m < |obj.fields| && obj.fields[m].0 == k && IsArray(obj.fields[m].1)
  {
    if i == |obj.fields| then []
    else if IsArray(obj.fields[i].1) then [obj.fields[i].0] + ArrayKeys(obj, i + 1)
    else ArrayKeys(obj, i + 1)
  }

  /** The arrays rebuilt from the array values from `i` on, each under its key, in order. */
  ghost function Rebuilt(obj: Json, i: nat): (r: seq<(string, Control)>)
    requires obj.Obj? && i <= |obj.fields|
    decreases |obj.fields| - i
    ensures forall k :: k in KeysOf(r) ==> k in ArrayKeys(obj, i)
  {
    if i == |obj.fields| then []
    else
      var key := obj.fields[i].0;
      var values := obj.fields[i].1;
      if IsArray(values) && RebuildArraysInForm(values).Success? then
        KeysOfAppend([(key, RebuildArraysInForm(values).value)], Rebuilt(obj, i + 1));
        [(key, RebuildArraysInForm(values).value)] + Rebuilt(obj, i + 1)
      else Rebuilt(obj, i + 1)
  }

  /** Every registration under the names `ks` taken out. */
  function Without(cs: seq<(string, Control)>, ks: seq<string>): (r: seq<(string, Control)>)
    decreases |ks|
    ensures forall k :: k in KeysOf(r) <==> k in KeysOf(cs) && k !in ks
  {
    if ks == [] then cs else Without(Remove(cs, ks[0]), ks[1..])
  }

  lemma {:induction false} WithoutConcat(cs: seq<(string, Control)>, more: seq<(string, Control)>, ks: seq<string>)
    decreases |ks|
    ensures Without(cs + more, ks) == Without(cs, ks) + Without(more, ks)
  {
    if ks != [] {
      RemoveConcat(cs, more, ks[0]);
      WithoutConcat(Remove(cs, ks[0]), Remove(more, ks[0]), ks[1..]);
    }
  }

  lemma {:induction false} WithoutNone(cs: seq<(string, Control)>, ks: seq<string>)
    requires forall k :: k in ks ==> k !in KeysOf(cs)
    decreases |ks|
    ensures Without(cs, ks) == cs
  {
    if ks != [] {
      RemoveAbsent(cs, ks[0]);
      WithoutNone(cs, ks[1..]);
    }
  }

  /** A tree whose every name is among `ks` is emptied. */
  lemma WithoutAll(cs: seq<(string, Control)>, ks: seq<string>)
    requires forall k :: k in KeysOf(cs) ==> k in ks
    ensures Without(cs, ks) == []
  {
    var r := Without(cs, ks);
    assert r == [] || r[0].0 in KeysOf(r);
  }

  /** Walking into the groups from `i` on commutes with taking out a name none of those keys has. */
  lemma {:induction false} PatchRemove(obj: Json, i: nat, controls: seq<(string, Control)>, walk: Walk, gone: string)
    requires obj.Obj? && i <= |obj.fields|
    requires forall m :: i <= m < |obj.fields| ==> obj.fields[m].0 != gone
    decreases |obj.fields| - i, 1
    ensures Patched(obj, i, Remove(controls, gone), walk) == Remove(Patched(obj, i, controls, walk), gone)
  {
    if i < |obj.fields| {
      var key := obj.fields[i].0;
      GetRemove(controls, gone, key);
      if obj.fields[i].1.Obj? && IsGroupAt(controls, key) {
        PatchRemoveGroup(obj, i, controls, walk, gone);
      } else {
        PatchRemove(obj, i + 1, controls, walk, gone);
      }
    }
  }

  lemma {:induction false} PatchRemoveGroup(obj: Json, i: nat, controls: seq<(string, Control)>, walk: Walk, gone: string)
    requires obj.Obj? && i < |obj.fields|
    requires forall m :: i <= m < |obj.fields| ==> obj.fields[m].0 != gone
    requires obj.fields[i].1.Obj? && IsGroupAt(controls, obj.fields[i].0)
    decreases |obj.fields| - i, 0
    ensures Patched(obj, i, Remove(controls, gone), walk) == Remove(Patched(obj, i, controls, walk), gone)
  {
    var key := obj.fields[i].0;
    GetRemove(controls, gone, key);
    var c := Group(walk(obj.fields[i].1, Get(controls, key).value.children));
    RemoveReplace(controls, gone, key, c);
    PatchRemove(obj, i + 1, Replace(controls, key, c), walk, gone);
    calc {
      Patched(obj, i, Remove(controls, gone), walk);
      Patched(obj, i + 1, Replace(Remove(controls, gone), key, c), walk);
      Patched(obj, i + 1, Remove(Replace(controls, key, c), gone), walk);
      Remove(Patched(obj, i + 1, Replace(controls, key, c), walk), gone);
      Remove(Patched(obj, i, controls, walk), gone);
    }
  }

  /** Walking into the groups from `i` on leaves alone registrations appended under names none of those keys has. */
  lemma {:induction false} PatchAppend(obj: Json, i: nat, controls: seq<(string, Control)>, walk: Walk, more: seq<(string, Control)>)
    requires obj.Obj? && i <= |obj.fields|
    requires forall m :: i <= m < |obj.fields| ==> obj.fields[m].0 !in KeysOf(more)
    decreases |obj.fields| - i, 1
    ensures Patched(obj, i, controls + more, walk) == Patched(obj, i, controls, walk) + more
  {
    if i < |obj.fields| {
      var key := obj.fields[i].0;
      GetConcat(controls, more, key);
      if obj.fields[i].1.Obj? && IsGroupAt(controls, key) {
        PatchAppendGroup(obj, i, controls, walk, more);
      } else {
        PatchAppend(obj, i + 1, controls, walk, more);
      }
    }
  }

  lemma {:induction false} PatchAppendGroup(obj: Json, i: nat, controls: seq<(string, Control)>, walk: Walk, more: seq<(string, Control)>)
    requires obj.Obj? && i < |obj.fields|
    requires forall m :: i <= m < |obj.fields| ==> obj.fields[m].0 !in KeysOf(more)
    requires obj.fields[i].1.Obj? && IsGroupAt(controls, obj.fields[i].0)
    decreases |obj.fields| - i, 0
    ensures Patched(obj, i, controls + more, walk) == Patched(obj, i, controls, walk) + more
  {
    var key := obj.fields[i].0;
    GetConcat(controls, more, key);
    var c := Group(walk(obj.fields[i].1, Get(controls, key).value.children));
    ReplaceConcat(controls, more, key, c);
    PatchAppend(obj, i + 1, Replace(controls, key, c), walk, more);
  }

  /**
   * A walk that did not throw leaves the old tree with its groups walked
   * into, minus the array keys, followed by the rebuilt arrays in key order.
   */
  lemma {:induction false} NormalForm(obj: Json, i: nat, controls: seq<(string, Control)>)
    requires obj.Obj? && i <= |obj.fields| && DistinctKeys(obj.fields)
    requires !UpdateFields(obj, i, controls).threw
    decreases |obj.fields| - i
    ensures UpdateFields(obj, i, controls).controls ==
              Without(Patched(obj, i, controls, WalkInto), ArrayKeys(obj, i)) + Rebuilt(obj, i)
  {
    if i < |obj.fields| {
      var key := obj.fields[i].0;
      var values := obj.fields[i].1;
      StepUnfold(obj, i, controls);
      NormalForm(obj, i + 1, Next(obj, i, controls));
      if IsArray(values) {
        ArrayStep(obj, i, controls, RebuildArraysInForm(values).value);
      }
    }
  }

  /** An array key moves to the end, ahead of the arrays after it. */
  lemma ArrayStep(obj: Json, i: nat, controls: seq<(string, Control)>, a: Control)
    requires obj.Obj? && i < |obj.fields| && DistinctKeys(obj.fields) && IsArray(obj.fields[i].1)
    ensures var key := obj.fields[i].0;
            var ks := ArrayKeys(obj, i + 1);
            Without(Patched(obj, i + 1, SetControl(controls, key, a), WalkInto), ks) ==
              Without(Patched(obj, i, controls, WalkInto), [key] + ks) + [(key, a)]
  {
    var key := obj.fields[i].0;
    assert forall m :: i < m < |obj.fields| ==> obj.fields[m].0 != key;
    assert SetControl(controls, key, a) == Remove(controls, key) + [(key, a)];
    PatchAppend(obj, i + 1, Remove(controls, key), WalkInto, [(key, a)]);
    PatchRemove(obj, i + 1, controls, WalkInto, key);
    var p := Patched(obj, i + 1, controls, WalkInto);
    assert Patched(obj, i, controls, WalkInto) == p;
    var ks := ArrayKeys(obj, i + 1);
    WithoutConcat(Remove(p, key), [(key, a)], ks);
    WithoutNone([(key, a)], ks);
    assert ([key] + ks)[1..] == ks;
  }

  /** Walking into groups that a walk leaves as they are changes nothing. */
  lemma {:induction false} PatchFixed(obj: Json, i: nat, controls: seq<(string, Control)>, walk: Walk)
    requires obj.Obj? && i <= |obj.fields|
    requires forall m :: i <= m < |obj.fields| && obj.fields[m].1.Obj? && IsGroupAt(controls, obj.fields[m].0) ==>
               walk(obj.fields[m].1, Get(controls, obj.fields[m].0).value.children) == Get(controls, obj.fields[m].0).value.children
    decreases |obj.fields| - i
    ensures Patched(obj, i, controls, walk) == controls
  {
    if i < |obj.fields| {
      var key := obj.fields[i].0;
      if obj.fields[i].1.Obj? && IsGroupAt(controls, key) {
        ReplaceSame(controls, key);
      }
      PatchFixed(obj, i + 1, controls, walk);
    }
  }

  // ----- The second walk -----

  /**
   * Walking a second time with the value just walked, over the tree the
   * first walk left, changes nothing and does not throw.
   */
  lemma {:induction false} UpdateIdempotent(obj: Json, controls: seq<(string, Control)>)
    requires KeyedTree(obj)
    requires !UpdateFields(obj, 0, controls).threw
    decreases obj, 1
    ensures UpdateFields(obj, 0, UpdateFields(obj, 0, controls).controls) == UpdateFields(obj, 0, controls)
  {
    var once := UpdateFields(obj, 0, controls).controls;
    forall m | 0 <= m < |obj.fields|
      ensures !StepThrows(obj.fields[m].1, Get(once, obj.fields[m].0))
      ensures obj.fields[m].1.Obj? && IsGroupAt(once, obj.fields[m].0) ==>
                UpdateFields(obj.fields[m].1, 0, Get(once, obj.fields[m].0).value.children).controls ==
                  Get(once, obj.fields[m].0).value.children
    {
      KeySettled(obj, controls, m);
    }
    ThrowFrame(obj, 0, once);
    var twice := UpdateFields(obj, 0, once);
    assert !twice.threw;
    var ks := ArrayKeys(obj, 0);
    var w := Without(Patched(obj, 0, controls, WalkInto), ks);
    NormalForm(obj, 0, controls);
    assert once == w + Rebuilt(obj, 0);
    WithoutConcat(w, Rebuilt(obj, 0), ks);
    WithoutNone(w, ks);
    WithoutAll(Rebuilt(obj, 0), ks);
    assert Without(once, ks) == w;
    NormalForm(obj, 0, once);
    PatchFixed(obj, 0, once, WalkInto);
    assert twice.controls == once;
  }

  /** After the first walk, each key finds a control it does not throw against, and a group it leaves as it is. */
  lemma {:induction false} KeySettled(obj: Json, controls: seq<(string, Control)>, m: nat)
    requires KeyedTree(obj) && m < |obj.fields|
    requires !UpdateFields(obj, 0, controls).threw
    decreases obj, 0
    ensures var once := UpdateFields(obj, 0, controls).controls;
            && !StepThrows(obj.fields[m].1, Get(once, obj.fields[m].0))
            && (obj.fields[m].1.Obj? && IsGroupAt(once, obj.fields[m].0) ==>
                  UpdateFields(obj.fields[m].1, 0, Get(once, obj.fields[m].0).value.children).controls ==
                    Get(once, obj.fields[m].0).value.children)
  {
    var key := obj.fields[m].0;
    var values := obj.fields[m].1;
    ThrowFrame(obj, 0, controls);
    assert !StepThrows(values, Get(controls, key));
    if values.Obj? {
      if IsGroupAt(controls, key) {
        var layer := Get(controls, key).value.children;
        UpdateDescends(obj, 0, controls, m, layer);
        UpdateIdempotent(values, layer);
      } else {
        UpdateKeepsOthers(obj, 0, controls, key);
      }
    }
  }

  // ----- The same facts for a whole store value -----

  lemma UpdateFormThrows(formDatas: Json, controls: seq<(string, Control)>)
    requires Entries(formDatas).Some? ==> DistinctKeys(Entries(formDatas).value)
    ensures UpdateForm(formDatas, controls).threw <==>
              Entries(formDatas).None? || ThrowsFrom(Obj(Entries(formDatas).value), 0, controls)
  {
    if Entries(formDatas).Some? {
      ThrowFrame(Obj(Entries(formDatas).value), 0, controls);
    }
  }

  lemma UpdateFormIdempotent(formDatas: Json, controls: seq<(string, Control)>)
    requires Entries(formDatas).Some? && KeyedTree(Obj(Entries(formDatas).value))
    requires !UpdateForm(formDatas, controls).threw
    ensures UpdateForm(formDatas, UpdateForm(formDatas, controls).controls) == UpdateForm(formDatas, controls)
  {
    UpdateIdempotent(Obj(Entries(formDatas).value), controls);
  }
}
