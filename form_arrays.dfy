/**
 * `rebuildArraysInForm`: a fresh FormArray built from an array held in the
 * store. The first element alone decides the shape.
 */
module FormArrays {
  import opened Wrappers
  import opened Json
  import opened Controls

  /**
   * The object shape a FormControl constructor reads as a boxed state rather
   * than as a value: exactly the two keys `value` and `disabled`.
   */
  predicate BoxedState(v: Json) {
    v.Obj? && |v.fields| == 2 && "value" in KeysOf(v.fields) && "disabled" in KeysOf(v.fields)
  }

  /**
   * A value `fb.control` and `fb.array` hand on unchanged: neither a boxed
   * state nor an array, which `fb.array` reads as a `[value, validators]` config.
   */
  predicate PlainValue(v: Json) {
    !IsArray(v) && !BoxedState(v)
  }

  /** `fb.control(v)`: a fresh leaf holding `v`, with no validators and so no errors. */
  function NewControl(v: Json): (c: Control)
    ensures c.Leaf? && Value(c) == v && c.errors.None?
  {
    Leaf(v, None)
  }

  /** `fb.array(values)` for values that are not objects: one leaf per value. */
  function LeafArray(values: seq<Json>): (c: Control)
    ensures c.Array? && |c.items| == |values|
    ensures forall i :: 0 <= i < |values| ==> c.items[i] == NewControl(values[i])
  {
    Array(seq(|values|, i requires 0 <= i < |values| => NewControl(values[i])))
  }

  /** True when the source takes its "array of objects" branch. */
  predicate ObjectRows(values: seq<Json>) {
    |values| > 0 && IsObject(values[0])
  }

  /** `rebuildArraysInForm(values)`: a FormArray; an array of values never throws. */
  function RebuildArraysInForm(arr: Json): (r: Result<Control>)
    requires arr.Seq?
    decreases arr, 2, 0
    ensures r.Success? ==> r.value.Array?
    ensures !ObjectRows(arr.items) ==> r.Success?
  {
    if ObjectRows(arr.items) then
      var groups :- Collect(GroupResults(arr), 0, []);
      Success(Array(groups))
    else
      Success(LeafArray(arr.items))
  }

  /** The group `values.map(...)` builds for each element, in order. */
  function GroupResults(arr: Json): (r: seq<Result<Control>>)
    requires arr.Seq?
    decreases arr, 1, 1
    ensures |r| == |arr.items|
  {
    seq(|arr.items|, i requires 0 <= i < |arr.items| => BuildGroup(arr.items[i]))
  }

  lemma GroupResultsAt(arr: Json)
    requires arr.Seq?
    ensures forall i :: 0 <= i < |arr.items| ==> GroupResults(arr)[i] == BuildGroup(arr.items[i])
  {
  }

  /** The `values.map(...)` loop: the groups pushed in order; the first TypeError ends it. */
  function Collect(rs: seq<Result<Control>>, i: nat, acc: seq<Control>): Result<seq<Control>>
    requires i <= |rs|
    decreases |rs| - i
  {
    if i == |rs| then Success(acc)
    else
      var g :- rs[i];
      Collect(rs, i + 1, acc + [g])
  }

  /** `fb.group({})` filled by `addControl` for each of `Object.keys(object)`. */
  function BuildGroup(row: Json): (r: Result<Control>)
    decreases row, 1, 0
    ensures row == Scalar(Null) ==> r.Failure?
    ensures r.Success? ==> r.value.Group?
  {
    match Entries(row)
    case None => Failure("Cannot convert undefined or null to object")
    case Some(es) =>
      var cs :- AddChildren(es, ChildResults(row, es), 0, []);
      Success(Group(cs))
  }

  /**
   * The control `addControl` registers for each key of a row, in key order:
   * array values are rebuilt, any other value is held by a fresh leaf.
   */
  function ChildResults(row: Json, es: seq<(string, Json)>): (r: seq<Result<Control>>)
    requires Entries(row) == Some(es)
    decreases row, 0
    ensures |r| == |es|
  {
    seq(|es|, m requires 0 <= m < |es| =>
      if es[m].1.Seq? then RebuildArraysInForm(es[m].1) else Success(NewControl(es[m].1)))
  }

  /** Each of those controls, one key at a time. */
  lemma ChildResultsAt(row: Json, es: seq<(string, Json)>)
    requires Entries(row) == Some(es)
    ensures forall m :: 0 <= m < |es| && !es[m].1.Seq? ==> ChildResults(row, es)[m] == Success(NewControl(es[m].1))
    ensures forall m :: 0 <= m < |es| && es[m].1.Seq? ==> ChildResults(row, es)[m] == RebuildArraysInForm(es[m].1)
  {
  }

  /** `Object.keys(object).map(...)` over a row: each control is added in turn; the first TypeError ends it. */
  function AddChildren(es: seq<(string, Json)>, kids: seq<Result<Control>>, j: nat, acc: seq<(string, Control)>)
    : Result<seq<(string, Control)>>
    requires |kids| == |es| && j <= |es|
    decreases |es| - j
  {
    if j == |es| then Success(acc)
    else
      var c :- kids[j];
      AddChildren(es, kids, j + 1, AddControl(acc, es[j].0, c))
  }

  lemma BuildGroupUnfold(row: Json)
    requires Entries(row).Some?
    ensures var es := Entries(row).value;
            var r := AddChildren(es, ChildResults(row, es), 0, []);
            BuildGroup(row) == if r.Success? then Success(Group(r.value)) else Failure(r.error)
  {
  }

  lemma AddChildrenStep(es: seq<(string, Json)>, kids: seq<Result<Control>>, j: nat, acc: seq<(string, Control)>)
    requires |kids| == |es| && j < |es|
    ensures kids[j].Failure? ==> AddChildren(es, kids, j, acc) == Failure(kids[j].error)
    ensures kids[j].Success? ==>
              AddChildren(es, kids, j, acc) == AddChildren(es, kids, j + 1, AddControl(acc, es[j].0, kids[j].value))
  {
  }

  /** The loops of `rebuildArraysInForm`, building the array step by step. */
  method BuildFormArray(arr: Json) returns (r: Result<Control>)
    requires arr.Seq?
    decreases arr, 2
    ensures r == RebuildArraysInForm(arr)
  {
    var values := arr.items;
    if !ObjectRows(values) {
      return Success(LeafArray(values));
    }
    ghost var groups := GroupResults(arr);
    GroupResultsAt(arr);
    var formArray: seq<Control> := [];
    var i := 0;
    while i < |values|
      invariant 0 <= i <= |values|
      invariant Collect(groups, i, formArray) == Collect(groups, 0, [])
    {
      var group := BuildFormGroup(values[i]);
      if group.Failure? {
        return Failure(group.error);
      }
      formArray := formArray + [group.value];
      i := i + 1;
    }
    r := Success(Array(formArray));
  }

  method BuildFormGroup(row: Json) returns (r: Result<Control>)
    decreases row, 1
    ensures r == BuildGroup(row)
  {
    var keys := Entries(row);
    if keys.None? {
      return Failure("Cannot convert undefined or null to object");
    }
    var es := keys.value;
    ghost var kids := ChildResults(row, es);
    ChildResultsAt(row, es);
    BuildGroupUnfold(row);
    var group: seq<(string, Control)> := [];
    var j := 0;
    while j < |es|
      invariant 0 <= j <= |es|
      invariant AddChildren(es, kids, j, group) == AddChildren(es, kids, 0, [])
    {
      AddChildrenStep(es, kids, j, group);
      var sub := es[j].1;
      var c: Control;
      if sub.Seq? {
        var rebuilt := BuildFormArray(sub);
        if rebuilt.Failure? {
          return Failure(rebuilt.error);
        }
        c := rebuilt.value;
      } else {
        c := NewControl(sub);
      }
      group := AddControl(group, es[j].0, c);
      j := j + 1;
    }
    r := Success(Group(group));
  }

  // ----- What the rebuilt array looks like -----

  lemma {:induction false} CollectSucceeds(rs: seq<Result<Control>>, i: nat, acc: seq<Control>)
    requires i <= |rs|
    decreases |rs| - i
    ensures Collect(rs, i, acc).Success? <==> forall m :: i <= m < |rs| ==> rs[m].Success?
  {
    if i < |rs| && rs[i].Success? {
      CollectSucceeds(rs, i + 1, acc + [rs[i].value]);
    }
  }

  /** The values of results `i..`, all of them successes. */
  function Values(rs: seq<Result<Control>>, i: nat): (r: seq<Control>)
    requires i <= |rs|
    requires forall m :: i <= m < |rs| ==> rs[m].Success?
    decreases |rs| - i
    ensures |r| == |rs| - i
  {
    if i == |rs| then [] else [rs[i].value] + Values(rs, i + 1)
  }

  lemma {:induction false} ValuesAt(rs: seq<Result<Control>>, i: nat)
    requires i <= |rs|
    requires forall m :: i <= m < |rs| ==> rs[m].Success?
    decreases |rs| - i
    ensures forall m :: 0 <= m < |rs| - i ==> Values(rs, i)[m] == rs[i + m].value
  {
    if i < |rs| {
      ValuesAt(rs, i + 1);
      var rest := Values(rs, i + 1);
      assert Values(rs, i) == [rs[i].value] + rest;
      forall m | 1 <= m < |rs| - i ensures Values(rs, i)[m] == rs[i + m].value {
        assert Values(rs, i)[m] == rest[m - 1];
      }
    }
  }

  lemma {:induction false} CollectShape(rs: seq<Result<Control>>, i: nat, acc: seq<Control>)
    requires i <= |rs|
    requires forall m :: i <= m < |rs| ==> rs[m].Success?
    decreases |rs| - i
    ensures Collect(rs, i, acc) == Success(acc + Values(rs, i))
  {
    if i < |rs| {
      CollectShape(rs, i + 1, acc + [rs[i].value]);
      assert acc + Values(rs, i) == (acc + [rs[i].value]) + Values(rs, i + 1);
    } else {
      assert acc + Values(rs, i) == acc;
    }
  }

  /** All of them, from the start: one value per result, in order. */
  lemma CollectAll(rs: seq<Result<Control>>) returns (vs: seq<Control>)
    requires forall m :: 0 <= m < |rs| ==> rs[m].Success?
    ensures Collect(rs, 0, []) == Success(vs)
    ensures |vs| == |rs| && forall m :: 0 <= m < |rs| ==> vs[m] == rs[m].value
  {
    CollectShape(rs, 0, []);
    vs := Values(rs, 0);
    assert [] + vs == vs;
    ValuesAt(rs, 0);
    forall m | 0 <= m < |rs| ensures vs[m] == rs[m].value {
      assert vs[m] == rs[0 + m].value;
    }
  }

  lemma {:induction false} AddChildrenSucceeds(es: seq<(string, Json)>, kids: seq<Result<Control>>, j: nat, acc: seq<(string, Control)>)
    requires |kids| == |es| && j <= |es|
    decreases |es| - j
    ensures AddChildren(es, kids, j, acc).Success? <==> forall m :: j <= m < |es| ==> kids[m].Success?
  {
    if j < |es| && kids[j].Success? {
      AddChildrenSucceeds(es, kids, j + 1, AddControl(acc, es[j].0, kids[j].value));
    }
  }

  /** The children registered for keys `j..` when no key repeats. */
  function ChildrenFrom(es: seq<(string, Json)>, kids: seq<Result<Control>>, j: nat): (r: seq<(string, Control)>)
    requires |kids| == |es| && j <= |es|
    requires forall m :: j <= m < |es| ==> kids[m].Success?
    decreases |es| - j
    ensures |r| == |es| - j
  {
    if j == |es| then [] else [(es[j].0, kids[j].value)] + ChildrenFrom(es, kids, j + 1)
  }

  lemma {:induction false} ChildrenFromAt(es: seq<(string, Json)>, kids: seq<Result<Control>>, j: nat)
    requires |kids| == |es| && j <= |es|
    requires forall m :: j <= m < |es| ==> kids[m].Success?
    decreases |es| - j
    ensures forall m :: 0 <= m < |es| - j ==> ChildrenFrom(es, kids, j)[m] == (es[j + m].0, kids[j + m].value)
  {
    if j < |es| {
      ChildrenFromAt(es, kids, j + 1);
      var rest := ChildrenFrom(es, kids, j + 1);
      assert ChildrenFrom(es, kids, j) == [(es[j].0, kids[j].value)] + rest;
      forall m | 1 <= m < |es| - j ensures ChildrenFrom(es, kids, j)[m] == (es[j + m].0, kids[j + m].value) {
        assert ChildrenFrom(es, kids, j)[m] == rest[m - 1];
      }
    }
  }

  /** Adding key `j` keeps the keys after it unregistered, as no key repeats. */
  lemma FreshKeysStep(es: seq<(string, Json)>, j: nat, acc: seq<(string, Control)>, c: Control)
    requires j < |es| && DistinctKeys(es)
    requires forall m :: j <= m < |es| ==> es[m].0 !in KeysOf(acc)
    ensures forall m :: j + 1 <= m < |es| ==> es[m].0 !in KeysOf(acc + [(es[j].0, c)])
  {
    KeysOfAppend(acc, [(es[j].0, c)]);
    forall m | j + 1 <= m < |es| ensures es[m].0 !in KeysOf(acc + [(es[j].0, c)]) {
      assert es[m].0 != es[j].0;
    }
  }

  lemma {:induction false} AddChildrenShape(es: seq<(string, Json)>, kids: seq<Result<Control>>, j: nat, acc: seq<(string, Control)>)
    requires |kids| == |es| && j <= |es|
    requires DistinctKeys(es)
    requires forall m :: j <= m < |es| ==> es[m].0 !in KeysOf(acc)
    requires forall m :: j <= m < |es| ==> kids[m].Success?
    decreases |es| - j
    ensures AddChildren(es, kids, j, acc) == Success(acc + ChildrenFrom(es, kids, j))
  {
    if j < |es| {
      var c := kids[j].value;
      var acc' := acc + [(es[j].0, c)];
      assert AddControl(acc, es[j].0, c) == acc';
      FreshKeysStep(es, j, acc, c);
      AddChildrenShape(es, kids, j + 1, acc');
      assert acc + ChildrenFrom(es, kids, j) == acc' + ChildrenFrom(es, kids, j + 1);
    } else {
      assert acc + ChildrenFrom(es, kids, j) == acc;
    }
  }

  /**
   * The group built for one element: null throws; otherwise one control per
   * key of the element, in the element's order, array values rebuilt and
   * every other value held by a leaf.
   */
  lemma RowGroup(row: Json)
    requires Entries(row).Some? ==> DistinctKeys(Entries(row).value)
    ensures row == Scalar(Null) ==> BuildGroup(row).Failure?
    ensures row != Scalar(Null) ==>
              var es := Entries(row).value;
              && (BuildGroup(row).Success? <==>
                    forall m :: 0 <= m < |es| && es[m].1.Seq? ==> RebuildArraysInForm(es[m].1).Success?)
              && (BuildGroup(row).Success? ==>
                    var g := BuildGroup(row).value;
                    && g.Group?
                    && KeysOf(g.children) == KeysOf(es)
                    && forall m :: 0 <= m < |es| ==>
                         (es[m].1.Seq? ==> g.children[m].1 == RebuildArraysInForm(es[m].1).value)
                         && (!es[m].1.Seq? ==> g.children[m].1 == NewControl(es[m].1)))
  {
    if row != Scalar(Null) {
      RowSucceeds(row);
      if BuildGroup(row).Success? {
        RowShape(row);
      }
    }
  }

  lemma RowSucceeds(row: Json)
    requires row != Scalar(Null)
    ensures var es := Entries(row).value;
            BuildGroup(row).Success? <==>
              forall m :: 0 <= m < |es| && es[m].1.Seq? ==> RebuildArraysInForm(es[m].1).Success?
  {
    var es := Entries(row).value;
    var kids := ChildResults(row, es);
    ChildResultsAt(row, es);
    AddChildrenSucceeds(es, kids, 0, []);
  }

  lemma RowShape(row: Json)
    requires row != Scalar(Null) && DistinctKeys(Entries(row).value)
    requires BuildGroup(row).Success?
    ensures var es := Entries(row).value;
            var g := BuildGroup(row).value;
            && g.Group?
            && KeysOf(g.children) == KeysOf(es)
            && (forall m :: 0 <= m < |es| && es[m].1.Seq? ==> RebuildArraysInForm(es[m].1).Success?)
            && forall m :: 0 <= m < |es| ==>
                 (es[m].1.Seq? ==> g.children[m].1 == RebuildArraysInForm(es[m].1).value)
                 && (!es[m].1.Seq? ==> g.children[m].1 == NewControl(es[m].1))
  {
    var es := Entries(row).value;
    var kids := ChildResults(row, es);
    AddChildrenSucceeds(es, kids, 0, []);
    var cs := ChildrenOf(es, kids);
    assert BuildGroup(row) == Success(Group(cs));
    ChildResultsAt(row, es);
  }

  /** The children the loop registers when every control builds and no key repeats. */
  lemma ChildrenOf(es: seq<(string, Json)>, kids: seq<Result<Control>>) returns (cs: seq<(string, Control)>)
    requires |kids| == |es| && DistinctKeys(es)
    requires forall m :: 0 <= m < |es| ==> kids[m].Success?
    ensures AddChildren(es, kids, 0, []) == Success(cs)
    ensures |cs| == |es| && KeysOf(cs) == KeysOf(es)
    ensures forall m :: 0 <= m < |es| ==> cs[m].1 == kids[m].value
  {
    AddChildrenShape(es, kids, 0, []);
    cs := ChildrenFrom(es, kids, 0);
    assert [] + cs == cs;
    ChildrenFromAt(es, kids, 0);
    SameKeys(es, kids, cs);
  }

  lemma SameKeys(es: seq<(string, Json)>, kids: seq<Result<Control>>, cs: seq<(string, Control)>)
    requires |kids| == |es| == |cs|
    requires forall m :: 0 <= m < |es| ==> kids[m].Success?
    requires forall m :: 0 <= m < |es| - 0 ==> cs[m] == (es[0 + m].0, kids[0 + m].value)
    ensures KeysOf(cs) == KeysOf(es)
    ensures forall m :: 0 <= m < |es| ==> cs[m].1 == kids[m].value
  {
    assert forall m :: 0 <= m < |es| ==> KeysOf(cs)[m] == KeysOf(es)[m];
  }

  /**
   * The array built from `arr`: it has exactly one item per element. When the
   * first element is an object (or an array) every item is the group built
   * from its element, and the build throws exactly when one of them does;
   * otherwise it is a flat array of leaves holding the elements themselves.
   */
  lemma RebuildShape(arr: Json)
    requires arr.Seq?
    ensures RebuildArraysInForm(arr).Success? ==>
              RebuildArraysInForm(arr).value.Array? && |RebuildArraysInForm(arr).value.items| == |arr.items|
    ensures ObjectRows(arr.items) ==>
              && (RebuildArraysInForm(arr).Success? <==>
                    forall i :: 0 <= i < |arr.items| ==> BuildGroup(arr.items[i]).Success?)
              && (RebuildArraysInForm(arr).Success? ==>
                    forall i :: 0 <= i < |arr.items| ==> RebuildArraysInForm(arr).value.items[i] == BuildGroup(arr.items[i]).value)
    ensures !ObjectRows(arr.items) ==>
              && RebuildArraysInForm(arr).Success?
              && forall i :: 0 <= i < |arr.items| ==> RebuildArraysInForm(arr).value.items[i] == Leaf(arr.items[i], None)
  {
    if ObjectRows(arr.items) {
      var groups := GroupResults(arr);
      GroupResultsAt(arr);
      CollectSucceeds(groups, 0, []);
      if RebuildArraysInForm(arr).Success? {
        var vs := CollectAll(groups);
        assert RebuildArraysInForm(arr) == Success(Array(vs));
      }
    }
  }

  // ----- Round trip: the rebuilt controls hold the value they were built from -----

  /**
   * Arrays whose controls can hold their value unchanged. When the first
   * element is neither an object nor an array, every element is a plain value.
   * Otherwise every element is an object with distinct keys; its array values
   * are again of this kind and none of its other values is a boxed state.
   */
  ghost predicate Rebuildable(arr: Json)
    decreases arr
  {
    && arr.Seq?
    && (!ObjectRows(arr.items) ==>
          forall i :: 0 <= i < |arr.items| ==> PlainValue(arr.items[i]))
    && (ObjectRows(arr.items) ==>
          forall i :: 0 <= i < |arr.items| ==>
            && arr.items[i].Obj?
            && DistinctKeys(arr.items[i].fields)
            && (forall j :: 0 <= j < |arr.items[i].fields| ==> !BoxedState(arr.items[i].fields[j].1))
            && forall j :: 0 <= j < |arr.items[i].fields| && arr.items[i].fields[j].1.Seq? ==>
                 Rebuildable(arr.items[i].fields[j].1))
  }

  lemma {:induction false} RebuildRoundTrip(arr: Json)
    requires Rebuildable(arr)
    decreases arr, 1
    ensures RebuildArraysInForm(arr).Success?
    ensures Value(RebuildArraysInForm(arr).value) == arr
  {
    RebuildShape(arr);
    var built := RebuildArraysInForm(arr);
    if ObjectRows(arr.items) {
      forall i | 0 <= i < |arr.items|
        ensures BuildGroup(arr.items[i]).Success? && Value(BuildGroup(arr.items[i]).value) == arr.items[i]
      {
        RowRoundTrip(arr.items[i]);
      }
    }
    assert Value(built.value).items == arr.items;
  }

  lemma {:induction false} RowRoundTrip(row: Json)
    requires row.Obj? && DistinctKeys(row.fields)
    requires forall j :: 0 <= j < |row.fields| ==> !BoxedState(row.fields[j].1)
    requires forall j :: 0 <= j < |row.fields| && row.fields[j].1.Seq? ==> Rebuildable(row.fields[j].1)
    decreases row, 0
    ensures BuildGroup(row).Success? && Value(BuildGroup(row).value) == row
  {
    forall j | 0 <= j < |row.fields| && row.fields[j].1.Seq?
      ensures RebuildArraysInForm(row.fields[j].1).Success? && Value(RebuildArraysInForm(row.fields[j].1).value) == row.fields[j].1
    {
      RebuildRoundTrip(row.fields[j].1);
    }
    RowGroup(row);
    var cs := BuildGroup(row).value.children;
    assert |cs| == |row.fields|;
    forall j | 0 <= j < |row.fields| ensures (cs[j].0, Value(cs[j].1)) == row.fields[j] {
      assert KeysOf(cs)[j] == KeysOf(row.fields)[j];
    }
    assert Value(BuildGroup(row).value).fields == row.fields;
  }

  // ----- When the build throws -----

  /** No `null` anywhere in the value. */
  ghost predicate NullFree(v: Json)
    decreases v
  {
    match v
    case Scalar(a) => a != Null
    case Seq(items) => forall i :: 0 <= i < |items| ==> NullFree(items[i])
    case Obj(fields) => forall j :: 0 <= j < |fields| ==> NullFree(fields[j].1)
  }

  /** Only `Object.keys(null)` can throw, so an array free of nulls always rebuilds. */
  lemma {:induction false} NullFreeRebuilds(arr: Json)
    requires arr.Seq? && NullFree(arr)
    decreases arr, 1
    ensures RebuildArraysInForm(arr).Success?
  {
    if ObjectRows(arr.items) {
      forall i | 0 <= i < |arr.items| ensures BuildGroup(arr.items[i]).Success? {
        NullFreeRowBuilds(arr.items[i]);
      }
      GroupResultsAt(arr);
      CollectSucceeds(GroupResults(arr), 0, []);
    }
  }

  lemma {:induction false} NullFreeRowBuilds(row: Json)
    requires NullFree(row)
    decreases row, 0
    ensures BuildGroup(row).Success?
  {
    var es := Entries(row).value;
    var kids := ChildResults(row, es);
    forall m | 0 <= m < |es| ensures kids[m].Success? {
      if es[m].1.Seq? {
        NullFreeRebuilds(es[m].1);
      }
    }
    AddChildrenSucceeds(es, kids, 0, []);
  }

  /** A `null` element among object rows makes the whole build throw. */
  lemma NullRowThrows(arr: Json, i: nat)
    requires arr.Seq? && ObjectRows(arr.items) && i < |arr.items| && arr.items[i] == Scalar(Null)
    ensures RebuildArraysInForm(arr).Failure?
  {
    GroupResultsAt(arr);
    CollectSucceeds(GroupResults(arr), 0, []);
  }
}
