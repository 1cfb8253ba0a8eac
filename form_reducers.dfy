/** The store side: the initial slot, the per-form reducers and the `ngrxForm` meta-reducer. */
module FormReducers {
  import opened Wrappers
  import opened Json
  import opened FormModels

  /** `getInitialState(formContent = {})`; `None` stands for an omitted argument. */
  function GetInitialState(formContent: Option<Json>): (s: FormState)
    ensures s.value == (if formContent.Some? then formContent.value else Obj([]))
    ensures s.errors == Some(map[]) && s.pristine == Some(true) && s.valid == Some(false)
  {
    FormState(formContent.GetOr(Obj([])), Some(map[]), Some(true), Some(false))
  }

  type FormReducer = (Option<FormState>, Action) -> FormState

  /** `(state = getInitialState(), action) => state` */
  function KeepState(state: Option<FormState>, action: Action): (r: FormState)
    ensures state.Some? ==> r == state.value
    ensures state.None? ==> r == GetInitialState(None)
  {
    state.GetOr(GetInitialState(None))
  }

  /** `NgrxFormReducer(forms)`: one reducer per form name, each keeping its slot as it is. */
  function NgrxFormReducer(forms: seq<string>): (r: map<string, FormReducer>)
    ensures r.Keys == set k | k in forms
    ensures forall k, state, action | k in r :: r[k](Some(state), action) == state
    ensures forall k, action | k in r :: r[k](None, action) == GetInitialState(None)
  {
    ReduceForms(forms, 0, map[])
  }

  /** The `reduce` over `forms`, spreading one more entry into the results each time. */
  function ReduceForms(forms: seq<string>, i: nat, results: map<string, FormReducer>): (r: map<string, FormReducer>)
    requires i <= |forms|
    requires forall k, state, action | k in results :: results[k](Some(state), action) == state
    requires forall k, action | k in results :: results[k](None, action) == GetInitialState(None)
    decreases |forms| - i
    ensures r.Keys == results.Keys + set k | k in forms[i..]
    ensures forall k, state, action | k in r :: r[k](Some(state), action) == state
    ensures forall k, action | k in r :: r[k](None, action) == GetInitialState(None)
  {
    if i == |forms| then
      assert forms[i..] == [];
      results
    else
      assert forms[i..] == [forms[i]] + forms[i + 1..];
      ReduceForms(forms, i + 1, results[forms[i] := KeepState])
  }

  /**
   * `{ ...state[feature][path], ...form }`: every property the payload's form
   * carries wins, every other property of the old slot survives.
   */
  function MergeForm(previous: Option<FormState>, form: FormState): (r: FormState)
    ensures r.value == form.value
    ensures r.errors == if form.errors.Some? || previous.None? then form.errors else previous.value.errors
    ensures r.pristine == if form.pristine.Some? || previous.None? then form.pristine else previous.value.pristine
    ensures r.valid == if form.valid.Some? || previous.None? then form.valid else previous.value.valid
  {
    match previous
    case None => form
    case Some(held) =>
      FormState(
        form.value,
        if form.errors.Some? then form.errors else held.errors,
        if form.pristine.Some? then form.pristine else held.pristine,
        if form.valid.Some? then form.valid else held.valid)
  }

  /** A form that carries every property replaces the old slot outright. */
  lemma MergeFullForm(previous: Option<FormState>, form: FormState)
    requires form.errors.Some? && form.pristine.Some? && form.valid.Some?
    ensures MergeForm(previous, form) == form
  {
  }

  /** Merging the same form twice is merging it once. */
  lemma MergeIdempotent(previous: Option<FormState>, form: FormState)
    ensures MergeForm(Some(MergeForm(previous, form)), form) == MergeForm(previous, form)
  {
  }

  /** The nested spread of the update: only `state[feature][path]` changes. */
  function ApplyUpdate(state: StoreState, payload: UpdatePayload): (r: Result<StoreState>)
    ensures r.Failure? <==> payload.feature !in state
    ensures r.Success? ==>
              var feature, path := payload.feature, payload.path;
              && r.value.Keys == state.Keys
              && (forall f :: f in state && f != feature ==> r.value[f] == state[f])
              && r.value[feature].Keys == state[feature].Keys + {path}
              && (forall p :: p in state[feature] && p != path ==> r.value[feature][p] == state[feature][p])
              && r.value[feature][path] ==
                   MergeForm(if path in state[feature] then Some(state[feature][path]) else None, payload.form)
  {
    var feature, path := payload.feature, payload.path;
    if feature !in state then
      Failure("Cannot read properties of undefined (reading '" + path + "')")
    else
      var slot := if path in state[feature] then Some(state[feature][path]) else None;
      Success(state[feature := state[feature][path := MergeForm(slot, payload.form)]])
  }

  type Reducer = (StoreState, Action) -> StoreState

  /** The reducer `ngrxForm(reducer)` returns, applied to `state` and `action`. */
  function NgrxForm(reducer: Reducer, state: StoreState, action: Action): (r: Result<StoreState>)
    ensures ActionType(action) != UPDATE_FORM ==> r == Success(reducer(state, action))
    ensures action.OtherAction? && action.actionType == UPDATE_FORM ==> r.Failure?
    ensures action.UpdateFormAction? ==>
              (r.Failure? <==> action.payload.feature !in state) &&
              (r.Success? ==> r.value == reducer(ApplyUpdate(state, action.payload).value, action))
  {
    if ActionType(action) == UPDATE_FORM then
      match action
      case UpdateFormAction(payload) =>
        var updated :- ApplyUpdate(state, payload);
        Success(reducer(updated, action))
      case OtherAction(_) => Failure("Cannot destructure property 'feature' of 'action.payload' as it is undefined")
    else
      Success(reducer(state, action))
  }
}
