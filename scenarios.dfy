/** Worked examples of the reconciler and of the error map. */
module Scenarios {
  import opened Wrappers
  import opened Json
  import opened Controls
  import opened FormArrays
  import opened FormUpdate
  import opened FormErrors

  function S(s: string): Json { Scalar(Str(s)) }

  /**
   * The store holds `{name: "a", tags: ["x", "y"]}` for a form built with a
   * `name` control and an empty `tags` array: the walk gives `tags` two
   * leaves and leaves `name` alone, and a second walk with the same value
   * changes nothing more.
   */
  lemma NameAndTags()
    ensures var v := Obj([("name", S("a")), ("tags", Seq([S("x"), S("y")]))]);
            var form := [("name", Leaf(S("a"), None)), ("tags", Array([]))];
            var once := UpdateForm(v, form);
            && once == Updated([("name", Leaf(S("a"), None)), ("tags", Array([Leaf(S("x"), None), Leaf(S("y"), None)]))], false)
            && UpdateForm(v, once.controls) == once
  {
    var v := Obj([("name", S("a")), ("tags", Seq([S("x"), S("y")]))]);
    var tags := Seq([S("x"), S("y")]);
    var rebuilt := Array([Leaf(S("x"), None), Leaf(S("y"), None)]);
    assert RebuildArraysInForm(tags) == Success(rebuilt) by {
      assert !ObjectRows(tags.items);
      assert LeafArray(tags.items).items == rebuilt.items;
    }
    var form := [("name", Leaf(S("a"), None)), ("tags", Array([]))];
    var after := [("name", Leaf(S("a"), None)), ("tags", rebuilt)];
    assert Remove(form, "tags") == [("name", Leaf(S("a"), None))];
    assert SetControl(form, "tags", rebuilt) == after;
    assert after[1..] == [("tags", rebuilt)];
    assert Remove(after[1..], "tags") == [];
    assert Remove(after, "tags") == [("name", Leaf(S("a"), None))];
    assert SetControl(after, "tags", rebuilt) == after;
    assert UpdateFields(v, 2, after) == Updated(after, false);
    assert UpdateFields(v, 1, form) == Updated(after, false);
    assert UpdateFields(v, 1, after) == Updated(after, false);
  }

  /**
   * The store holds `{tags: ["x"], name: "a"}` for a form whose controls are
   * registered as `tags`, `name`. `setControl` moves `tags` to the end, so
   * the form's value afterwards lists `name` first and no longer equals the
   * store's value.
   */
  lemma TagsMoveLast()
    ensures var v := Obj([("tags", Seq([S("x")])), ("name", S("a"))]);
            var form := [("tags", Array([])), ("name", Leaf(S("a"), None))];
            var once := UpdateForm(v, form);
            && once == Updated([("name", Leaf(S("a"), None)), ("tags", Array([Leaf(S("x"), None)]))], false)
            && Value(Group(once.controls)) == Obj([("name", S("a")), ("tags", Seq([S("x")]))])
            && Value(Group(once.controls)) != v
  {
    TagsWalk();
    TagsValue();
  }

  lemma TagsWalk()
    ensures UpdateForm(Obj([("tags", Seq([S("x")])), ("name", S("a"))]), [("tags", Array([])), ("name", Leaf(S("a"), None))])
              == Updated([("name", Leaf(S("a"), None)), ("tags", Array([Leaf(S("x"), None)]))], false)
  {
    var v := Obj([("tags", Seq([S("x")])), ("name", S("a"))]);
    var tags := Seq([S("x")]);
    var rebuilt := Array([Leaf(S("x"), None)]);
    assert RebuildArraysInForm(tags) == Success(rebuilt) by {
      assert !ObjectRows(tags.items);
      assert LeafArray(tags.items).items == rebuilt.items;
    }
    var form := [("tags", Array([])), ("name", Leaf(S("a"), None))];
    var after := [("name", Leaf(S("a"), None)), ("tags", rebuilt)];
    assert Remove(form, "tags") == [("name", Leaf(S("a"), None))] by {
      assert form[1..] == [("name", Leaf(S("a"), None))];
    }
    assert SetControl(form, "tags", rebuilt) == after;
    assert UpdateFields(v, 2, after) == Updated(after, false);
    assert UpdateFields(v, 1, after) == Updated(after, false);
    assert UpdateFields(v, 0, form) == Updated(after, false);
  }

  lemma TagsValue()
    ensures Value(Group([("name", Leaf(S("a"), None)), ("tags", Array([Leaf(S("x"), None)]))]))
              == Obj([("name", S("a")), ("tags", Seq([S("x")]))])
  {
    var rebuilt := Array([Leaf(S("x"), None)]);
    assert Value(rebuilt) == Seq([S("x")]) by {
      assert Value(rebuilt).items == [S("x")];
    }
    var value := Value(Group([("name", Leaf(S("a"), None)), ("tags", rebuilt)]));
    assert value.fields == [("name", S("a")), ("tags", Seq([S("x")]))];
  }

  /** An array of objects becomes one group per element, with one control per key. */
  lemma ArrayOfObjects()
    ensures RebuildArraysInForm(Seq([Obj([("city", S("Lyon"))]), Obj([("city", S("Oslo"))])])) ==
              Success(Array([Group([("city", Leaf(S("Lyon"), None))]), Group([("city", Leaf(S("Oslo"), None))])]))
  {
    var arr := Seq([Obj([("city", S("Lyon"))]), Obj([("city", S("Oslo"))])]);
    RebuildShape(arr);
    RowGroup(arr.items[0]);
    RowGroup(arr.items[1]);
    var r := RebuildArraysInForm(arr).value;
    var g0 := Group([("city", Leaf(S("Lyon"), None))]);
    var g1 := Group([("city", Leaf(S("Oslo"), None))]);
    assert KeysOf(arr.items[0].fields) == ["city"];
    assert KeysOf(arr.items[1].fields) == ["city"];
    assert |r.items[0].children| == 1 && r.items[0].children[0].0 == KeysOf(r.items[0].children)[0];
    assert |r.items[1].children| == 1 && r.items[1].children[0].0 == KeysOf(r.items[1].children)[0];
    assert r.items[0] == g0;
    assert r.items[1] == g1;
    assert r.items == [g0, g1];
  }

  /**
   * Group `address` holds a failing leaf `zip`: the form's error map is
   * `{zip: ...}`, without the `address` prefix.
   */
  lemma NestedZip(failure: ValidationErrors)
    ensures GetErrors(Group([("address", Group([("zip", Leaf(S(""), Some(failure)))]))])) == map["zip" := failure]
  {
    var zip := Group([("zip", Leaf(S(""), Some(failure)))]);
    GetErrorsAppend([], "zip", Leaf(S(""), Some(failure)));
    GetErrorsAppend([], "address", zip);
    assert [("zip", Leaf(S(""), Some(failure)))] == [] + [("zip", Leaf(S(""), Some(failure)))];
    assert [("address", zip)] == [] + [("address", zip)];
  }

  /**
   * Two sibling groups each with a failing leaf `zip`: only the later one
   * survives in the flat error map.
   */
  lemma SiblingsCollide(home: ValidationErrors, work: ValidationErrors)
    ensures var g1 := Group([("zip", Leaf(S(""), Some(home)))]);
            var g2 := Group([("zip", Leaf(S(""), Some(work)))]);
            GetErrors(Group([("home", g1), ("work", g2)])) == map["zip" := work]
  {
    var g1 := Group([("zip", Leaf(S(""), Some(home)))]);
    var g2 := Group([("zip", Leaf(S(""), Some(work)))]);
    GetErrorsAppend([], "zip", Leaf(S(""), Some(home)));
    GetErrorsAppend([], "zip", Leaf(S(""), Some(work)));
    GetErrorsAppend([], "home", g1);
    GetErrorsAppend([("home", g1)], "work", g2);
    assert [("zip", Leaf(S(""), Some(home)))] == [] + [("zip", Leaf(S(""), Some(home)))];
    assert [("zip", Leaf(S(""), Some(work)))] == [] + [("zip", Leaf(S(""), Some(work)))];
    assert [("home", g1)] == [] + [("home", g1)];
    assert [("home", g1), ("work", g2)] == [("home", g1)] + [("work", g2)];
  }
}
