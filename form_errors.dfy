/**
 * `getErrors`: the error map sent with every update, folded over a group's
 * children. Leaves report under their own name, nested groups are merged
 * into the same flat map without a prefix, and arrays are skipped.
 */
module FormErrors {
  import opened Wrappers
  import opened Json
  import opened Controls

  type ErrorMap = map<string, ValidationErrors>

  /** `getErrors(group)`: every name it reports is a leaf reached through groups alone. */
  function GetErrors(group: Control): (r: ErrorMap)
    requires group.Group?
    decreases group, 1, 0
    ensures r.Keys <= LeafNames(group)
  {
    ErrorsFromKeys(group, 0, map[]);
    ErrorsFrom(group, 0, map[])
  }

  lemma {:induction false} ErrorsFromKeys(group: Control, i: nat, acc: ErrorMap)
    requires group.Group? && i <= |group.children|
    decreases group, 0, |group.children| - i, 1
    ensures ErrorsFrom(group, i, acc).Keys <= acc.Keys + LeafNamesFrom(group, i)
  {
    if i < |group.children| {
      var key := group.children[i].0;
      var control := group.children[i].1;
      var next :=
        match control
        case Leaf(_, Some(errors)) => acc[key := errors]
        case Group(_) => acc + GetErrors(control)
        case _ => acc;
      ErrorsFromKeys(group, i + 1, next);
    }
  }

  /** The `reduce` over `Object.keys(group.controls)` from child `i` on. */
  function ErrorsFrom(group: Control, i: nat, acc: ErrorMap): ErrorMap
    requires group.Group? && i <= |group.children|
    decreases group, 0, |group.children| - i, 0
  {
    if i == |group.children| then acc
    else
      var key := group.children[i].0;
      var control := group.children[i].1;
      var next :=
        match control
        case Leaf(_, Some(errors)) => acc[key := errors]
        case Group(_) => acc + GetErrors(control)
        case _ => acc;
      ErrorsFrom(group, i + 1, next)
  }

  // ----- An independent description: the failing leaves, depth first -----

  /** Every leaf with errors reached through groups alone, in depth-first order. */
  function ErrorLeaves(group: Control): seq<(string, ValidationErrors)>
    requires group.Group?
    decreases group, 1, 0
  {
    ErrorLeavesFrom(group, 0)
  }

  function ErrorLeavesFrom(group: Control, i: nat): seq<(string, ValidationErrors)>
    requires group.Group? && i <= |group.children|
    decreases group, 0, |group.children| - i
  {
    if i == |group.children| then []
    else
      var control := group.children[i].1;
      var here :=
        match control
        case Leaf(_, Some(errors)) => [(group.children[i].0, errors)]
        case Group(_) => ErrorLeaves(control)
        case _ => [];
      here + ErrorLeavesFrom(group, i + 1)
  }

  /** The names of all leaves reached through groups alone. */
  function LeafNames(group: Control): set<string>
    requires group.Group?
    decreases group, 1, 0
  {
    LeafNamesFrom(group, 0)
  }

  function LeafNamesFrom(group: Control, i: nat): set<string>
    requires group.Group? && i <= |group.children|
    decreases group, 0, |group.children| - i
  {
    if i == |group.children| then {}
    else
      var control := group.children[i].1;
      var here :=
        match control
        case Leaf(_, _) => {group.children[i].0}
        case Group(_) => LeafNames(control)
        case _ => {};
      here + LeafNamesFrom(group, i + 1)
  }

  /** Writing pairs into a map one after another, a later pair overwriting an earlier one. */
  function Overwrite(m: ErrorMap, pairs: seq<(string, ValidationErrors)>): ErrorMap
    decreases pairs
  {
    if pairs == [] then m else Overwrite(m[pairs[0].0 := pairs[0].1], pairs[1..])
  }

  lemma {:induction false} OverwriteAppend(m: ErrorMap, a: seq<(string, ValidationErrors)>, b: seq<(string, ValidationErrors)>)
    decreases a
    ensures Overwrite(m, a + b) == Overwrite(Overwrite(m, a), b)
  {
    if a == [] {
      assert a + b == b;
    } else {
      assert (a + b)[1..] == a[1..] + b;
      OverwriteAppend(m[a[0].0 := a[0].1], a[1..], b);
    }
  }

  lemma {:induction false} OverwriteUnion(m: ErrorMap, n: ErrorMap, pairs: seq<(string, ValidationErrors)>)
    decreases pairs
    ensures m + Overwrite(n, pairs) == Overwrite(m + n, pairs)
  {
    if pairs != [] {
      assert (m + n)[pairs[0].0 := pairs[0].1] == m + n[pairs[0].0 := pairs[0].1];
      OverwriteUnion(m, n[pairs[0].0 := pairs[0].1], pairs[1..]);
    }
  }

  lemma {:induction false} OverwriteKeys(m: ErrorMap, pairs: seq<(string, ValidationErrors)>, k: string)
    decreases pairs
    ensures k in Overwrite(m, pairs) <==> k in m || exists i :: 0 <= i < |pairs| && pairs[i].0 == k
  {
    if pairs != [] {
      OverwriteKeys(m[pairs[0].0 := pairs[0].1], pairs[1..], k);
      if exists i :: 0 <= i < |pairs[1..]| && pairs[1..][i].0 == k {
        var i :| 0 <= i < |pairs[1..]| && pairs[1..][i].0 == k;
        assert pairs[i + 1].0 == k;
      }
      if exists i :: 0 <= i < |pairs| && pairs[i].0 == k {
        var i :| 0 <= i < |pairs| && pairs[i].0 == k;
        if i > 0 {
          assert pairs[1..][i - 1].0 == k;
        }
      }
    }
  }

  lemma {:induction false} OverwriteLast(m: ErrorMap, pairs: seq<(string, ValidationErrors)>, i: nat)
    requires i < |pairs|
    requires forall j :: i < j < |pairs| ==> pairs[j].0 != pairs[i].0
    decreases pairs
    ensures pairs[i].0 in Overwrite(m, pairs) && Overwrite(m, pairs)[pairs[i].0] == pairs[i].1
  {
    if i > 0 {
      OverwriteLast(m[pairs[0].0 := pairs[0].1], pairs[1..], i - 1);
    } else {
      OverwriteUntouched(m[pairs[0].0 := pairs[0].1], pairs[1..], pairs[0].0);
    }
  }

  lemma {:induction false} OverwriteUntouched(m: ErrorMap, pairs: seq<(string, ValidationErrors)>, k: string)
    requires k in m
    requires forall j :: 0 <= j < |pairs| ==> pairs[j].0 != k
    decreases pairs
    ensures k in Overwrite(m, pairs) && Overwrite(m, pairs)[k] == m[k]
  {
    if pairs != [] {
      OverwriteUntouched(m[pairs[0].0 := pairs[0].1], pairs[1..], k);
    }
  }

  /** The fold is the depth-first list of failing leaves written into one map. */
  lemma {:induction false} GetErrorsFlattens(group: Control)
    requires group.Group?
    decreases group, 1, 0
    ensures GetErrors(group) == Overwrite(map[], ErrorLeaves(group))
  {
    ErrorsFromFlattens(group, 0, map[]);
  }

  lemma {:induction false} ErrorsFromFlattens(group: Control, i: nat, acc: ErrorMap)
    requires group.Group? && i <= |group.children|
    decreases group, 0, |group.children| - i
    ensures ErrorsFrom(group, i, acc) == Overwrite(acc, ErrorLeavesFrom(group, i))
  {
    if i < |group.children| {
      var key := group.children[i].0;
      var control := group.children[i].1;
      var here :=
        match control
        case Leaf(_, Some(errors)) => [(key, errors)]
        case Group(_) => ErrorLeaves(control)
        case _ => [];
      var next :=
        match control
        case Leaf(_, Some(errors)) => acc[key := errors]
        case Group(_) => acc + GetErrors(control)
        case _ => acc;
      OverwriteAppend(acc, here, ErrorLeavesFrom(group, i + 1));
      if control.Group? {
        GetErrorsFlattens(control);
        OverwriteUnion(acc, map[], ErrorLeaves(control));
        assert acc + map[] == acc;
      }
      assert next == Overwrite(acc, here);
      ErrorsFromFlattens(group, i + 1, next);
    }
  }

  lemma {:induction false} ErrorLeavesAreLeaves(group: Control)
    requires group.Group?
    decreases group, 1, 0
    ensures forall j :: 0 <= j < |ErrorLeaves(group)| ==> ErrorLeaves(group)[j].0 in LeafNames(group)
  {
    ErrorLeavesFromAreLeaves(group, 0);
  }

  lemma {:induction false} ErrorLeavesFromAreLeaves(group: Control, i: nat)
    requires group.Group? && i <= |group.children|
    decreases group, 0, |group.children| - i
    ensures forall j :: 0 <= j < |ErrorLeavesFrom(group, i)| ==> ErrorLeavesFrom(group, i)[j].0 in LeafNamesFrom(group, i)
  {
    if i < |group.children| {
      var control := group.children[i].1;
      if control.Group? {
        ErrorLeavesAreLeaves(control);
      }
      ErrorLeavesFromAreLeaves(group, i + 1);
    }
  }

  // ----- What the error map holds -----

  /**
   * A name is in the error map exactly when some leaf of that name, reached
   * through groups alone, has errors; every such name is a leaf of the tree.
   */
  lemma GetErrorsKeys(group: Control, k: string)
    requires group.Group?
    ensures k in GetErrors(group) <==> exists j :: 0 <= j < |ErrorLeaves(group)| && ErrorLeaves(group)[j].0 == k
    ensures k in GetErrors(group) ==> k in LeafNames(group)
  {
    GetErrorsFlattens(group);
    OverwriteKeys(map[], ErrorLeaves(group), k);
    ErrorLeavesAreLeaves(group);
  }

  /** Names collide in one flat namespace: the last failing leaf of a name, depth first, wins. */
  lemma GetErrorsLastWins(group: Control, j: nat)
    requires group.Group? && j < |ErrorLeaves(group)|
    requires forall m :: j < m < |ErrorLeaves(group)| ==> ErrorLeaves(group)[m].0 != ErrorLeaves(group)[j].0
    ensures ErrorLeaves(group)[j].0 in GetErrors(group)
    ensures GetErrors(group)[ErrorLeaves(group)[j].0] == ErrorLeaves(group)[j].1
  {
    GetErrorsFlattens(group);
    OverwriteLast(map[], ErrorLeaves(group), j);
  }

  lemma {:induction false} ErrorLeavesFromAppend(cs: seq<(string, Control)>, x: (string, Control), i: nat)
    requires i <= |cs|
    decreases |cs| - i
    ensures ErrorLeavesFrom(Group(cs + [x]), i) ==
              ErrorLeavesFrom(Group(cs), i) + ErrorLeavesFrom(Group([x]), 0)
  {
    var g, g' := Group(cs), Group(cs + [x]);
    if i < |cs| {
      assert g'.children[i] == g.children[i];
      ErrorLeavesFromAppend(cs, x, i + 1);
    } else {
      assert g'.children[i] == x;
      assert ErrorLeavesFrom(g', i + 1) == [];
      assert ErrorLeavesFrom(Group([x]), 1) == [];
    }
  }

  /**
   * One more child at the end of a group: a leaf with errors adds its name,
   * a nested group merges its own map over the rest, and a leaf without
   * errors or an array adds nothing. A group without children has no errors.
   */
  lemma GetErrorsAppend(cs: seq<(string, Control)>, key: string, control: Control)
    ensures GetErrors(Group([])) == map[]
    ensures GetErrors(Group(cs + [(key, control)])) ==
              match control
              case Leaf(_, Some(errors)) => GetErrors(Group(cs))[key := errors]
              case Group(_) => GetErrors(Group(cs)) + GetErrors(control)
              case _ => GetErrors(Group(cs))
  {
    var g, g' := Group(cs), Group(cs + [(key, control)]);
    var last := Group([(key, control)]);
    GetErrorsFlattens(g);
    GetErrorsFlattens(g');
    ErrorLeavesFromAppend(cs, (key, control), 0);
    OverwriteAppend(map[], ErrorLeaves(g), ErrorLeavesFrom(last, 0));
    assert ErrorLeavesFrom(last, 1) == [];
    match control {
      case Leaf(_, Some(errors)) =>
        assert ErrorLeavesFrom(last, 0) == [(key, errors)];
      case Group(_) =>
        assert ErrorLeavesFrom(last, 0) == ErrorLeaves(control);
        GetErrorsFlattens(control);
        OverwriteUnion(GetErrors(g), map[], ErrorLeaves(control));
        assert GetErrors(g) + map[] == GetErrors(g);
      case _ =>
        assert ErrorLeavesFrom(last, 0) == [];
    }
  }
}
