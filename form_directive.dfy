/**
 * The directive's pure steps: the selector that reads a form's value out
 * of the store, the change detector, and the gate that turns a settled edit
 * into an update action.
 */
module FormDirective {
  import opened Wrappers
  import opened Json
  import opened Serialization
  import opened Controls
  import opened FormErrors
  import opened FormModels
  import opened FormReducers

  /**
   * `isDifferent(a, b)`: the two serialisations differ. Over values whose
   * objects keep their key order, serialising loses nothing, so this holds
   * exactly when the values are not the same value.
   */
  function IsDifferent(a: Json, b: Json): (r: bool)
    ensures r <==> a != b
  {
    SerializeInjective(a, b);
    Serialize(a) != Serialize(b)
  }

  /** Key order is part of the value: the same fields in another order count as a change. */
  lemma KeyOrderCounts(x: Json, y: Json)
    ensures IsDifferent(Obj([("a", x), ("b", y)]), Obj([("b", y), ("a", x)]))
  {
  }

  /** The selector `data[featureName][path].value`; a missing feature or path throws. */
  function Select(state: StoreState, featureName: string, path: string): (r: Result<Json>)
    ensures r.Success? <==> featureName in state && path in state[featureName]
    ensures r.Success? ==> r.value == state[featureName][path].value
  {
    if featureName !in state then
      Failure("Cannot read properties of undefined (reading '" + path + "')")
    else if path !in state[featureName] then
      Failure("Cannot read properties of undefined (reading 'value')")
    else
      Success(state[featureName][path].value)
  }

  /**
   * The payload `formToStore` dispatches for a settled edit. Its form
   * carries every optional property, so the reducer's merge replaces the
   * slot outright whatever the slot held before.
   */
  function EditPayload(featureName: string, path: string, formDatas: Json, form: Control, pristine: bool, valid: bool)
    : (r: UpdatePayload)
    requires form.Group?
    ensures r.feature == featureName && r.path == path && r.form.value == formDatas
    ensures r.form.errors == Some(GetErrors(form)) && r.form.pristine == Some(pristine) && r.form.valid == Some(valid)
    ensures forall previous :: MergeForm(previous, r.form) == r.form
  {
    UpdatePayload(featureName, path, FormState(formDatas, Some(GetErrors(form)), Some(pristine), Some(valid)))
  }

  /**
   * The `filter` and the `dispatch` of `formToStore`: an action is sent
   * exactly when the settled form value differs from the store's, and it
   * carries the form value, the flattened errors and the form's flags.
   */
  function DispatchGate(featureName: string, path: string, formDatas: Json, storeDatas: Json,
                        form: Control, pristine: bool, valid: bool): (r: Option<Action>)
    requires form.Group?
    ensures r.Some? <==> formDatas != storeDatas
    ensures r.Some? ==>
              && r.value.UpdateFormAction?
              && r.value.payload.feature == featureName
              && r.value.payload.path == path
              && r.value.payload.form.value == formDatas
              && r.value.payload.form.errors == Some(GetErrors(form))
              && r.value.payload.form.pristine == Some(pristine)
              && r.value.payload.form.valid == Some(valid)
  {
    if IsDifferent(formDatas, storeDatas) then
      Some(UpdateFormAction(EditPayload(featureName, path, formDatas, form, pristine, valid)))
    else
      None
  }

  /** The reducer the store runs for a feature whose form reducers all keep their slots. */
  function KeepStore(state: StoreState, action: Action): StoreState {
    state
  }

  /**
   * What the directive dispatches is what its selector reads back: after the
   * store applies the update, the form's slot holds the edited value and the
   * new errors and flags.
   */
  lemma DispatchReadsBack(state: StoreState, payload: UpdatePayload)
    requires payload.feature in state
    ensures NgrxForm(KeepStore, state, UpdateFormAction(payload)).Success?
    ensures Select(NgrxForm(KeepStore, state, UpdateFormAction(payload)).value, payload.feature, payload.path)
              == Success(payload.form.value)
  {
  }

  /**
   * No echo: once the store has applied an edit, comparing the same form
   * value with what the selector now reads dispatches nothing. The walk the
   * store's emission then starts is not covered here: it can reorder the
   * form's keys (`Scenarios.TagsMoveLast`).
   */
  lemma NoEchoAfterDispatch(state: StoreState, featureName: string, path: string, formDatas: Json,
                            storeDatas: Json, form: Control, pristine: bool, valid: bool)
    requires form.Group? && featureName in state
    requires DispatchGate(featureName, path, formDatas, storeDatas, form, pristine, valid).Some?
    ensures var action := DispatchGate(featureName, path, formDatas, storeDatas, form, pristine, valid).value;
            var next := NgrxForm(KeepStore, state, action);
            && next.Success?
            && Select(next.value, featureName, path) == Success(formDatas)
            && DispatchGate(featureName, path, formDatas, Select(next.value, featureName, path).value,
                            form, pristine, valid).None?
  {
    var action := DispatchGate(featureName, path, formDatas, storeDatas, form, pristine, valid).value;
    DispatchReadsBack(state, action.payload);
  }
}
