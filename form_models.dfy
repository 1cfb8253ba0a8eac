/** The records that travel between the directive and the store. */
module FormModels {
  import opened Wrappers
  import opened Json
  import opened FormErrors

  /**
   * One form's slot in the store. `value` is always present; `None` in the
   * other fields means the property is absent from the record.
   */
  datatype FormState = FormState(
    value: Json,
    errors: Option<ErrorMap>,
    pristine: Option<bool>,
    valid: Option<bool>)

  datatype UpdatePayload = UpdatePayload(feature: string, path: string, form: FormState)

  /** The feature state maps a form's path to its slot; the store maps a feature name to its feature state. */
  type FeatureState = map<string, FormState>
  type StoreState = map<string, FeatureState>

  const UPDATE_FORM: string := "[NgrxForm] Update Form"

  /** The update action, or any other action the store sees, known only by its type. */
  datatype Action = UpdateFormAction(payload: UpdatePayload) | OtherAction(actionType: string)

  function ActionType(action: Action): string {
    match action
    case UpdateFormAction(_) => UPDATE_FORM
    case OtherAction(t) => t
  }
}
