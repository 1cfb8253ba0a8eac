/**
 * `updateForm`: reshape the live control tree after a store value, so that
 * the bulk `patchValue` which follows finds a control for every array slot.
 */
module FormUpdate {
  import opened Wrappers
  import opened Json
  import opened Controls
  import opened FormArrays

  /**
   * The children of the group after the walk, and whether a TypeError stopped
   * it part-way; changes made before the error stay in place.
   */
  datatype Updated = Updated(controls: seq<(string, Control)>, threw: bool)

  /** `updateForm(values, null)`: the first array or object value throws. */
  predicate ThrowsOnNull(values: Json)
    requires values.Obj?
  {
    exists j :: 0 <= j < |values.fields| && IsObject(values.fields[j].1)
  }

  /**
   * `updateForm(values, control)` on a FormControl: it has no `setControl`,
   * and its `get(key)` yields null.
   */
  predicate ThrowsOnLeaf(values: Json)
    requires values.Obj?
  {
    exists j :: 0 <= j < |values.fields| &&
      (IsArray(values.fields[j].1) || (values.fields[j].1.Obj? && ThrowsOnNull(values.fields[j].1)))
  }

  /** `updateForm(formDatas, form)` on the children of the form's root group. */
  function UpdateForm(formDatas: Json, controls: seq<(string, Control)>): (r: Updated)
    ensures formDatas == Scalar(Null) ==> r == Updated(controls, true)
  {
    match Entries(formDatas)
    case None => Updated(controls, true)
    case Some(es) => UpdateFields(Obj(es), 0, controls)
  }

  /**
   * The walk over `Object.keys(obj)` from key `i` on. Nothing is ever
   * unregistered, even when the walk throws part way.
   */
  function UpdateFields(obj: Json, i: nat, controls: seq<(string, Control)>): (r: Updated)
    requires obj.Obj? && i <= |obj.fields|
    decreases obj, |obj.fields| - i
    ensures forall k {:trigger k in KeysOf(r.controls)} :: k in KeysOf(controls) ==> k in KeysOf(r.controls)
  {
    if i == |obj.fields| then Updated(controls, false)
    else
      var key := obj.fields[i].0;
      var values := obj.fields[i].1;
      if IsArray(values) then
        match RebuildArraysInForm(values)
        case Failure(_) => Updated(controls, true)
        case Success(formArray) => UpdateFields(obj, i + 1, SetControl(controls, key, formArray))
      else if values.Obj? then
        match Get(controls, key)
        case Some(Group(layer)) =>
          var inner := UpdateFields(values, 0, layer);
          var next := Replace(controls, key, Group(inner.controls));
          if inner.threw then Updated(next, true) else UpdateFields(obj, i + 1, next)
        case Some(Leaf(_, _)) =>
          if ThrowsOnLeaf(values) then Updated(controls, true) else UpdateFields(obj, i + 1, controls)
        case _ =>
          if ThrowsOnNull(values) then Updated(controls, true) else UpdateFields(obj, i + 1, controls)
      else
        UpdateFields(obj, i + 1, controls)
  }

  /** The loop of `updateForm`, changing the group key by key. */
  method UpdateFormInPlace(formDatas: Json, controls: seq<(string, Control)>) returns (r: Updated)
    ensures r == UpdateForm(formDatas, controls)
  {
    var keys := Entries(formDatas);
    if keys.None? {
      return Updated(controls, true);
    }
    r := UpdateLayer(Obj(keys.value), controls);
  }

  method UpdateLayer(obj: Json, controls: seq<(string, Control)>) returns (r: Updated)
    requires obj.Obj?
    decreases obj
    ensures r == UpdateFields(obj, 0, controls)
  {
    var formObject := controls;
    var i := 0;
    while i < |obj.fields|
      invariant 0 <= i <= |obj.fields|
      invariant UpdateFields(obj, i, formObject) == UpdateFields(obj, 0, controls)
    {
      var key := obj.fields[i].0;
      var values := obj.fields[i].1;
      if IsArray(values) {
        var formArray := BuildFormArray(values);
        if formArray.Failure? {
          return Updated(formObject, true);
        }
        assert UpdateFields(obj, i, formObject) == UpdateFields(obj, i + 1, SetControl(formObject, key, formArray.value));
        formObject := SetControl(formObject, key, formArray.value);
      } else if values.Obj? {
        var current := Get(formObject, key);
        if current.Some? && current.value.Group? {
          var inner := UpdateLayer(values, current.value.children);
          var next := Replace(formObject, key, Group(inner.controls));
          assert UpdateFields(obj, i, formObject) == if inner.threw then Updated(next, true) else UpdateFields(obj, i + 1, next);
          formObject := next;
          if inner.threw {
            return Updated(formObject, true);
          }
        } else if current.Some? && current.value.Leaf? {
          if ThrowsOnLeaf(values) {
            return Updated(formObject, true);
          }
        } else if ThrowsOnNull(values) {
          return Updated(formObject, true);
        }
      }
      i := i + 1;
    }
    r := Updated(formObject, false);
  }

  // ----- What the walk changes, and what it leaves alone -----

  /** A group walked into under `name`: the one thing besides an array value that changes a control. */
  predicate IsGroupAt(controls: seq<(string, Control)>, name: string) {
    Get(controls, name).Some? && Get(controls, name).value.Group?
  }

  /**
   * A control is never touched when no later key brings an array for its
   * name, nor an object while it is a group.
   */
  lemma {:induction false} UpdateKeepsOthers(obj: Json, i: nat, controls: seq<(string, Control)>, name: string)
    requires obj.Obj? && i <= |obj.fields|
    requires forall m :: i <= m < |obj.fields| && obj.fields[m].0 == name ==>
               !IsArray(obj.fields[m].1) && (obj.fields[m].1.Obj? ==> !IsGroupAt(controls, name))
    decreases |obj.fields| - i
    ensures Get(UpdateFields(obj, i, controls).controls, name) == Get(controls, name)
  {
    if i < |obj.fields| {
      var key := obj.fields[i].0;
      var values := obj.fields[i].1;
      if IsArray(values) {
        if RebuildArraysInForm(values).Success? {
          UpdateKeepsOthers(obj, i + 1, SetControl(controls, key, RebuildArraysInForm(values).value), name);
        }
      } else if values.Obj? {
        var current := Get(controls, key);
        if current.Some? && current.value.Group? {
          var inner := UpdateFields(values, 0, current.value.children);
          UpdateKeepsOthers(obj, i + 1, Replace(controls, key, Group(inner.controls)), name);
        } else {
          UpdateKeepsOthers(obj, i + 1, controls, name);
        }
      } else {
        UpdateKeepsOthers(obj, i + 1, controls, name);
      }
    }
  }

  /** An array value replaces its control by the array rebuilt from it. */
  lemma {:induction false} UpdateReplacesArray(obj: Json, i: nat, controls: seq<(string, Control)>, j: nat)
    requires obj.Obj? && i <= j < |obj.fields| && DistinctKeys(obj.fields)
    requires IsArray(obj.fields[j].1)
    requires !UpdateFields(obj, i, controls).threw
    decreases j - i
    ensures RebuildArraysInForm(obj.fields[j].1).Success?
    ensures Get(UpdateFields(obj, i, controls).controls, obj.fields[j].0) ==
              Some(RebuildArraysInForm(obj.fields[j].1).value)
  {
    var key := obj.fields[i].0;
    var values := obj.fields[i].1;
    if i < j {
      if IsArray(values) {
        if RebuildArraysInForm(values).Success? {
          UpdateReplacesArray(obj, i + 1, SetControl(controls, key, RebuildArraysInForm(values).value), j);
        }
      } else if values.Obj? {
        var current := Get(controls, key);
        if current.Some? && current.value.Group? {
          var inner := UpdateFields(values, 0, current.value.children);
          UpdateReplacesArray(obj, i + 1, Replace(controls, key, Group(inner.controls)), j);
        } else {
          UpdateReplacesArray(obj, i + 1, controls, j);
        }
      } else {
        UpdateReplacesArray(obj, i + 1, controls, j);
      }
    } else if RebuildArraysInForm(values).Success? {
      UpdateKeepsOthers(obj, i + 1, SetControl(controls, key, RebuildArraysInForm(values).value), key);
    }
  }

  /** An object value over a group walks into that group and leaves the result in its place. */
  lemma {:induction false} UpdateDescends(obj: Json, i: nat, controls: seq<(string, Control)>, j: nat, layer: seq<(string, Control)>)
    requires obj.Obj? && i <= j < |obj.fields| && DistinctKeys(obj.fields)
    requires obj.fields[j].1.Obj?
    requires Get(controls, obj.fields[j].0) == Some(Group(layer))
    requires !UpdateFields(obj, i, controls).threw
    decreases j - i
    ensures !UpdateFields(obj.fields[j].1, 0, layer).threw
    ensures Get(UpdateFields(obj, i, controls).controls, obj.fields[j].0) ==
              Some(Group(UpdateFields(obj.fields[j].1, 0, layer).controls))
  {
    var name := obj.fields[j].0;
    var key := obj.fields[i].0;
    var values := obj.fields[i].1;
    if i < j {
      assert key != name;
      if IsArray(values) {
        if RebuildArraysInForm(values).Success? {
          UpdateDescends(obj, i + 1, SetControl(controls, key, RebuildArraysInForm(values).value), j, layer);
        }
      } else if values.Obj? {
        var current := Get(controls, key);
        if current.Some? && current.value.Group? {
          var inner := UpdateFields(values, 0, current.value.children);
          var next := Replace(controls, key, Group(inner.controls));
          if !inner.threw {
            UpdateDescends(obj, i + 1, next, j, layer);
          }
        } else {
          UpdateDescends(obj, i + 1, controls, j, layer);
        }
      } else {
        UpdateDescends(obj, i + 1, controls, j, layer);
      }
    } else {
      var inner := UpdateFields(values, 0, layer);
      if !inner.threw {
        UpdateKeepsOthers(obj, i + 1, Replace(controls, key, Group(inner.controls)), key);
      }
    }
  }

  /** After a walk that did not throw, the group has its old names plus those of the array values. */
  lemma {:induction false} UpdateKeys(obj: Json, i: nat, controls: seq<(string, Control)>)
    requires obj.Obj? && i <= |obj.fields|
    requires !UpdateFields(obj, i, controls).threw
    decreases |obj.fields| - i
    ensures forall k :: k in KeysOf(UpdateFields(obj, i, controls).controls) <==>
              k in KeysOf(controls) || exists m :: i <= m < |obj.fields| && obj.fields[m].0 == k && IsArray(obj.fields[m].1)
  {
    if i < |obj.fields| {
      var key := obj.fields[i].0;
      var values := obj.fields[i].1;
      if IsArray(values) {
        UpdateKeys(obj, i + 1, SetControl(controls, key, RebuildArraysInForm(values).value));
      } else if values.Obj? {
        var current := Get(controls, key);
        if current.Some? && current.value.Group? {
          var inner := UpdateFields(values, 0, current.value.children);
          UpdateKeys(obj, i + 1, Replace(controls, key, Group(inner.controls)));
        } else {
          UpdateKeys(obj, i + 1, controls);
        }
      } else {
        UpdateKeys(obj, i + 1, controls);
      }
    }
  }

  /**
   * A store value shaped like the form: its keys are distinct, every array
   * value rebuilds, and every object value names a group it fits in turn.
   */
  ghost predicate Fits(obj: Json, controls: seq<(string, Control)>)
    decreases obj
  {
    && obj.Obj?
    && DistinctKeys(obj.fields)
    && forall m :: 0 <= m < |obj.fields| ==>
         && (IsArray(obj.fields[m].1) ==> RebuildArraysInForm(obj.fields[m].1).Success?)
         && (obj.fields[m].1.Obj? ==>
               var current := Get(controls, obj.fields[m].0);
               current.Some? && current.value.Group? && Fits(obj.fields[m].1, current.value.children))
  }

  lemma {:induction false} FitsNeverThrows(obj: Json, controls: seq<(string, Control)>)
    requires Fits(obj, controls)
    decreases obj, 1
    ensures !UpdateFields(obj, 0, controls).threw
  {
    FitsFromNeverThrows(obj, 0, controls);
  }

  lemma {:induction false} FitsFromNeverThrows(obj: Json, i: nat, controls: seq<(string, Control)>)
    requires obj.Obj? && i <= |obj.fields| && DistinctKeys(obj.fields)
    requires forall m :: i <= m < |obj.fields| ==>
               && (IsArray(obj.fields[m].1) ==> RebuildArraysInForm(obj.fields[m].1).Success?)
               && (obj.fields[m].1.Obj? ==>
                     var current := Get(controls, obj.fields[m].0);
                     current.Some? && current.value.Group? && Fits(obj.fields[m].1, current.value.children))
    decreases obj, 0, |obj.fields| - i
    ensures !UpdateFields(obj, i, controls).threw
  {
    if i < |obj.fields| {
      var key := obj.fields[i].0;
      var values := obj.fields[i].1;
      assert forall m :: i < m < |obj.fields| ==> obj.fields[m].0 != key;
      if IsArray(values) {
        var next := SetControl(controls, key, RebuildArraysInForm(values).value);
        assert forall m :: i < m < |obj.fields| ==> Get(next, obj.fields[m].0) == Get(controls, obj.fields[m].0);
        FitsFromNeverThrows(obj, i + 1, next);
      } else if values.Obj? {
        var layer := Get(controls, key).value.children;
        FitsNeverThrows(values, layer);
        var inner := UpdateFields(values, 0, layer);
        var next := Replace(controls, key, Group(inner.controls));
        assert forall m :: i < m < |obj.fields| ==> Get(next, obj.fields[m].0) == Get(controls, obj.fields[m].0);
        FitsFromNeverThrows(obj, i + 1, next);
      } else {
        FitsFromNeverThrows(obj, i + 1, controls);
      }
    }
  }

  // ----- The same facts for a whole store value -----

  lemma UpdateFormKeepsOthers(formDatas: Json, controls: seq<(string, Control)>, name: string)
    requires Entries(formDatas).Some? ==>
               forall m :: 0 <= m < |Entries(formDatas).value| && Entries(formDatas).value[m].0 == name ==>
                 !IsArray(Entries(formDatas).value[m].1) &&
                 (Entries(formDatas).value[m].1.Obj? ==> !IsGroupAt(controls, name))
    ensures Get(UpdateForm(formDatas, controls).controls, name) == Get(controls, name)
  {
    if Entries(formDatas).Some? {
      UpdateKeepsOthers(Obj(Entries(formDatas).value), 0, controls, name);
    }
  }

  /** Only arrays and nested objects change the tree: a value with neither leaves it as it is. */
  lemma {:induction false} UpdateFormScalarsOnly(formDatas: Json, controls: seq<(string, Control)>)
    requires Entries(formDatas).Some?
    requires forall m :: 0 <= m < |Entries(formDatas).value| ==> !IsObject(Entries(formDatas).value[m].1)
    ensures UpdateForm(formDatas, controls) == Updated(controls, false)
  {
    ScalarsFrom(Obj(Entries(formDatas).value), 0, controls);
  }

  /** The walk from key `i` on, over values that are neither arrays nor objects. */
  lemma {:induction false} ScalarsFrom(obj: Json, i: nat, controls: seq<(string, Control)>)
    requires obj.Obj? && i <= |obj.fields|
    requires forall m :: i <= m < |obj.fields| ==> !IsObject(obj.fields[m].1)
    decreases |obj.fields| - i
    ensures UpdateFields(obj, i, controls) == Updated(controls, false)
  {
    if i < |obj.fields| {
      ScalarsFrom(obj, i + 1, controls);
    }
  }

  lemma UpdateFormReplacesArray(formDatas: Json, controls: seq<(string, Control)>, j: nat)
    requires Entries(formDatas).Some? && DistinctKeys(Entries(formDatas).value)
    requires j < |Entries(formDatas).value| && IsArray(Entries(formDatas).value[j].1)
    requires !UpdateForm(formDatas, controls).threw
    ensures RebuildArraysInForm(Entries(formDatas).value[j].1).Success?
    ensures Get(UpdateForm(formDatas, controls).controls, Entries(formDatas).value[j].0) ==
              Some(RebuildArraysInForm(Entries(formDatas).value[j].1).value)
  {
    UpdateReplacesArray(Obj(Entries(formDatas).value), 0, controls, j);
  }

  /**
   * `formDatas` may itself be an array: its keys are then the indices "0",
   * "1", ..., which are distinct, so the array at index `j` ends up under the
   * key spelling `j`.
   */
  lemma UpdateFormArrayElement(formDatas: Json, controls: seq<(string, Control)>, j: nat)
    requires formDatas.Seq? && j < |formDatas.items| && IsArray(formDatas.items[j])
    requires !UpdateForm(formDatas, controls).threw
    ensures RebuildArraysInForm(formDatas.items[j]).Success?
    ensures Get(UpdateForm(formDatas, controls).controls, DecimalKey(j)) ==
              Some(RebuildArraysInForm(formDatas.items[j]).value)
  {
    ArrayEntriesDistinct(formDatas);
    UpdateFormReplacesArray(formDatas, controls, j);
  }

  lemma UpdateFormDescends(formDatas: Json, controls: seq<(string, Control)>, j: nat, layer: seq<(string, Control)>)
    requires Entries(formDatas).Some? && DistinctKeys(Entries(formDatas).value)
    requires j < |Entries(formDatas).value| && Entries(formDatas).value[j].1.Obj?
    requires Get(controls, Entries(formDatas).value[j].0) == Some(Group(layer))
    requires !UpdateForm(formDatas, controls).threw
    ensures Get(UpdateForm(formDatas, controls).controls, Entries(formDatas).value[j].0) ==
              Some(Group(UpdateFields(Entries(formDatas).value[j].1, 0, layer).controls))
  {
    UpdateDescends(Obj(Entries(formDatas).value), 0, controls, j, layer);
  }

  lemma UpdateFormKeys(formDatas: Json, controls: seq<(string, Control)>)
    requires !UpdateForm(formDatas, controls).threw
    ensures Entries(formDatas).Some?
    ensures forall k :: k in KeysOf(UpdateForm(formDatas, controls).controls) <==>
              k in KeysOf(controls) ||
              exists m :: 0 <= m < |Entries(formDatas).value| && Entries(formDatas).value[m].0 == k && IsArray(Entries(formDatas).value[m].1)
  {
    UpdateKeys(Obj(Entries(formDatas).value), 0, controls);
  }

}
