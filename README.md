# ngrx-form-binding, modelled in Dafny

This project models the two pieces of logic at the heart of the
ngrx-form-binding library. The library keeps an Angular reactive form and
one slot of an NgRx store in step with each other.

* **The store side** (`form.reducers.ts`). `getInitialState` seeds a form's
  slot. `NgrxFormReducer` builds one reducer per form; each keeps its slot
  as it is. `ngrxForm` is a meta-reducer: on the `[NgrxForm] Update Form`
  action it shallow-merges the payload's form into `state[feature][path]`
  and leaves every other feature and path as it was.
* **The directive side** (`form.directives.ts`). The selector reads
  `state[feature][path].value`. `updateForm` reshapes the live control tree
  after a store value: array values get freshly built FormArrays, object
  values are walked into. `rebuildArraysInForm` builds those arrays.
  `isDifferent` compares serialisations. `getErrors` flattens the leaves'
  validation errors into one map. The `formToStore` gate dispatches an
  update only for a value that differs from the store's.

Store values are the `Json` datatype. It has scalars, arrays and objects,
and objects keep their keys in insertion order, so key order is visible.
The control tree is the `Control` datatype: `Leaf` (FormControl), `Group`
(FormGroup, children in registration order) and `Array` (FormArray).
A JavaScript `TypeError` is a `Failure` result. In `updateForm` it is a
`threw` flag beside the tree as it stood when the error struck: changes
made before the error stay, as they do in place.

Modules, one file each: `Wrappers`, `Json` (values, and `Object.keys` as
`Entries`), `Serialization` (the stand-in for `JSON.stringify` and its
parser), `Controls` (the tree and Angular's `get`, `setControl`,
`addControl`), `FormArrays` (`rebuildArraysInForm`), `FormUpdate`
(`updateForm`), `UpdateReplay` (when the walk throws, and walking the same
value twice), `FormErrors` (`getErrors`), `FormModels` (the records and
the action), `FormReducers` (`form.reducers.ts`), `FormDirective`
(selector, `isDifferent`, dispatch gate) and `Scenarios` (worked examples).

Conventions of the host libraries that the model writes out:

* `x instanceof Array` is `IsArray` and `x instanceof Object` is
  `IsObject`. `IsObject` holds of arrays too. So `rebuildArraysInForm`
  takes its "array of objects" branch when the first element is an array.
  Each element then becomes a group keyed by its indices.
* `Object.keys` (`Json.Entries`) gives an object's own keys in order. For
  an array it gives the decimal indices. For a string it gives one index
  per character, where a character is a Unicode scalar value (Dafny's
  `char`), not a UTF-16 code unit. For a boolean or a
  number it gives nothing. For `null` it throws.
* Angular's `FormGroup.setControl` deletes the old registration and
  registers the new control. The name therefore moves to the end of the
  group's order (`Controls.SetControl`). `addControl` ignores a name that
  is already registered (`Controls.AddControl`). A nested group that
  `updateForm` walks into is changed in place, so it keeps its position
  (`Controls.Replace`). So after a store value with an array key that is
  not last, the form's value lists its keys in another order than the
  store's (`Scenarios.TagsMoveLast`). `isDifferent` compares key order, so
  the form then dispatches one more update without any edit.
* When `updateForm` walks into a missing control, `formObject` is `null`.
  The first array or object value under it then throws. On a FormControl,
  `setControl` does not exist, and `get` returns `null`.

Two behaviours of the code that a reader might not expect:

* An update for a feature the store does not have throws: the reducer
  reads `state[feature][path]` (`ApplyUpdate` fails), and so does the
  selector for a missing feature or path (`Select` fails). A missing path
  in the reducer is fine: spreading `undefined` adds nothing, so the slot
  becomes the payload's form.
* An entry of the error map is what `control.errors` holds: the
  validator's whole record of failures, not a message string.

## Model

| member | source | states |
|---|---|---|
| `Json.Entries` | projects/ngrx-form/src/lib/directives/form.directives.ts:109-110 | `Object.keys(v)` with `v[key]`: null throws; an object gives its fields in order; an array gives its items under their decimal indices |
| `Json.DecimalKeyInjective` | projects/ngrx-form/src/lib/directives/form.directives.ts:109 | distinct indices have distinct property names, so an array's keys never collide |
| `Json.ArrayEntriesDistinct` | projects/ngrx-form/src/lib/directives/form.directives.ts:87 | `Object.keys` of an array never gives the same key twice |
| `Serialization.ParseSerialize` | projects/ngrx-form/src/lib/directives/form.directives.ts:160-162 | the serialisation that stands in for `JSON.stringify` can be parsed back to the very value, whatever follows it |
| `Serialization.SerializeInjective` | projects/ngrx-form/src/lib/directives/form.directives.ts:160-162 | two values serialise alike exactly when they are equal |
| `Serialization.Serialize` | projects/ngrx-form/src/lib/directives/form.directives.ts:161 | the stand-in for `JSON.stringify` gives every value a non-empty text that opens with a value token, never with a closing bracket or a key |
| `FormDirective.IsDifferent` | projects/ngrx-form/src/lib/directives/form.directives.ts:160-162 | `isDifferent(a, b)` holds exactly when `a != b`; so it is false of a value and itself, and symmetric |
| `FormDirective.KeyOrderCounts` | projects/ngrx-form/src/lib/directives/form.directives.ts:160-162 | the same fields in another key order count as different |
| `Controls.Get` | projects/ngrx-form/src/lib/directives/form.directives.ts:96 | `get(name)` finds a control exactly when the name is registered |
| `Controls.GetFirst` | projects/ngrx-form/src/lib/directives/form.directives.ts:96 | the control `get(name)` finds is the one at the first position registered under `name` |
| `Controls.SetControl` | projects/ngrx-form/src/lib/directives/form.directives.ts:92 | after `setControl(name, c)` the name holds `c` and comes last; every other name holds what it held; the names are the old ones plus `name` |
| `Controls.AddControl` | projects/ngrx-form/src/lib/directives/form.directives.ts:112-117 | `addControl` appends a new name and leaves an already registered one alone |
| `Controls.Replace` | projects/ngrx-form/src/lib/directives/form.directives.ts:96-97 | a group changed in place keeps its names and order; only the named child changes |
| `Controls.Value` | projects/ngrx-form/src/lib/directives/form.directives.ts:59 | `control.value`, the value `valueChanges` emits: a leaf's own value; a group's object with one key per child, in the group's order; an array's array with one item per control |
| `FormArrays.NewControl` | projects/ngrx-form/src/lib/directives/form.directives.ts:117 | `fb.control(v)` is a leaf holding `v` with no errors |
| `FormArrays.LeafArray` | projects/ngrx-form/src/lib/directives/form.directives.ts:124-126 | `fb.array(values)` has one leaf per value, holding that value |
| `FormArrays.RebuildArraysInForm` | projects/ngrx-form/src/lib/directives/form.directives.ts:102-128 | the result, when there is one, is a FormArray; an array whose first element is neither an object nor an array never throws in the model (a later `[value, validator]` element can throw in the source; see "Left out"). `RebuildShape`, `RebuildRoundTrip` and `NullFreeRebuilds` state the rest |
| `FormArrays.BuildGroup` | projects/ngrx-form/src/lib/directives/form.directives.ts:107-120 | the group built for one element: a null element throws, and a result is always a FormGroup. `RowGroup` states its keys and children |
| `FormArrays.BuildFormArray` | projects/ngrx-form/src/lib/directives/form.directives.ts:102-128 | the loops that push one group per element compute exactly `RebuildArraysInForm` |
| `FormArrays.BuildFormGroup` | projects/ngrx-form/src/lib/directives/form.directives.ts:107-120 | the loop that adds one control per key of an element computes exactly `BuildGroup` |
| `FormArrays.RebuildShape` | projects/ngrx-form/src/lib/directives/form.directives.ts:102-128 | the result has one item per element; when the first element is an object or an array every item is its element's group and the build throws exactly when one of those does; otherwise it never throws and is a flat array of leaves holding the elements (for elements that are neither boxed states nor arrays) |
| `FormArrays.RowGroup` | projects/ngrx-form/src/lib/directives/form.directives.ts:107-120 | a null element throws; otherwise the group has the element's keys in order, array values rebuilt recursively and every other value in a fresh leaf, and it throws exactly when a nested rebuild does |
| `FormArrays.RebuildRoundTrip` | projects/ngrx-form/src/lib/directives/form.directives.ts:102-128 | the rebuilt array's value is the array it was built from, for an array of plain values, or of objects with distinct keys whose array values are again of this kind and whose other values are not boxed states (`{value, disabled}`) |
| `FormArrays.NullFreeRebuilds` | projects/ngrx-form/src/lib/directives/form.directives.ts:109 | an array with no null anywhere is always rebuilt without a TypeError, as long as no flat array in it holds a later `[value, validator]` element with a truthy validator slot |
| `FormArrays.NullRowThrows` | projects/ngrx-form/src/lib/directives/form.directives.ts:103-109 | a null element in an array of objects makes the rebuild throw |
| `FormUpdate.UpdateForm` | projects/ngrx-form/src/lib/directives/form.directives.ts:86-100 | `updateForm(null, form)` throws at once and changes nothing. The lemmas below state what the walk does to every key |
| `FormUpdate.UpdateFields` | projects/ngrx-form/src/lib/directives/form.directives.ts:87-99 | the walk from key `i` on never unregisters a name, even when it throws part way |
| `FormUpdate.UpdateFormInPlace` | projects/ngrx-form/src/lib/directives/form.directives.ts:86-100 | the key-by-key loop that changes the group computes exactly `UpdateForm` |
| `FormUpdate.UpdateLayer` | projects/ngrx-form/src/lib/directives/form.directives.ts:86-100 | one level of that loop, recursing into nested groups, computes exactly `UpdateFields` |
| `FormUpdate.UpdateFormKeepsOthers` | projects/ngrx-form/src/lib/directives/form.directives.ts:87-99 | a control is left as it was, even when the walk throws, unless a key of its name holds an array, or holds an object while the control is a group |
| `FormUpdate.UpdateFormReplacesArray` | projects/ngrx-form/src/lib/directives/form.directives.ts:91-92 | after a walk that does not throw, an array-valued key holds `rebuildArraysInForm` of its value |
| `FormUpdate.UpdateFormArrayElement` | projects/ngrx-form/src/lib/directives/form.directives.ts:87-92 | for a store value that is itself an array, the array element at index `j` ends up rebuilt under the key spelling `j` |
| `FormUpdate.UpdateFormDescends` | projects/ngrx-form/src/lib/directives/form.directives.ts:95-97 | an object-valued key over a group holds that group walked with the nested value |
| `FormUpdate.UpdateFormKeys` | projects/ngrx-form/src/lib/directives/form.directives.ts:86-100 | after a walk that does not throw, the group's names are its old names plus the array-valued keys: nothing is removed |
| `FormUpdate.UpdateFormScalarsOnly` | projects/ngrx-form/src/lib/directives/form.directives.ts:87-99 | a store value with no array or object values changes nothing and does not throw |
| `FormUpdate.FitsNeverThrows` | projects/ngrx-form/src/lib/directives/form.directives.ts:86-100 | a store value shaped like the form never makes the walk throw, as long as its rebuilt arrays do not throw in Angular's control constructor (see "Left out") |
| `UpdateReplay.ThrowFrame` | projects/ngrx-form/src/lib/directives/form.directives.ts:86-100 | with distinct keys, one level of the walk throws exactly when some key throws on its own against the control the group held under that name before the walk |
| `UpdateReplay.UpdateFormThrows` | projects/ngrx-form/src/lib/directives/form.directives.ts:86-100 | `updateForm` throws exactly when `Object.keys` of the value throws, or some key does: an array that fails to rebuild, an object over a group whose own walk throws, over a leaf, an object holding an array, or holding an object that holds an array or object; over a missing control, an object holding an array or object |
| `UpdateReplay.NormalForm` | projects/ngrx-form/src/lib/directives/form.directives.ts:86-100 | after a walk that does not throw, the group is its old children with nested groups walked into and the array keys taken out, followed by the rebuilt arrays in key order |
| `UpdateReplay.UpdateIdempotent` | projects/ngrx-form/src/lib/directives/form.directives.ts:86-100 | on one level, a second walk with the same value over the tree the first walk left changes nothing and does not throw |
| `UpdateReplay.UpdateFormIdempotent` | projects/ngrx-form/src/lib/directives/form.directives.ts:73-100 | after a walk that did not throw, the store emitting the same value again leaves the control tree as it is and does not throw (store values have distinct keys at every depth, as JavaScript objects do) |
| `FormErrors.GetErrors` | projects/ngrx-form/src/lib/directives/form.directives.ts:164-176 | every name in the error map is a leaf reached through groups alone |
| `FormErrors.GetErrorsFlattens` | projects/ngrx-form/src/lib/directives/form.directives.ts:164-176 | the fold equals writing the failing leaves, taken depth first through groups, one after another into an empty map |
| `FormErrors.GetErrorsKeys` | projects/ngrx-form/src/lib/directives/form.directives.ts:164-176 | a name is in the error map exactly when a failing leaf of that name is reached through groups; every such name is a leaf of the tree |
| `FormErrors.GetErrorsLastWins` | projects/ngrx-form/src/lib/directives/form.directives.ts:169-171 | nested errors share one flat namespace: the last failing leaf of a name supplies its entry |
| `FormErrors.GetErrorsAppend` | projects/ngrx-form/src/lib/directives/form.directives.ts:164-176 | an empty group has no errors; a further leaf with errors sets its name, a further group merges its map over the rest, and a leaf without errors or an array adds nothing |
| `FormReducers.GetInitialState` | projects/ngrx-form/src/lib/store/form.reducers.ts:5-11 | the slot holds the given content (`{}` when omitted), no errors, `pristine` true and `valid` false |
| `FormReducers.KeepState` | projects/ngrx-form/src/lib/store/form.reducers.ts:18 | each form's reducer returns the slot it is given, and the initial slot when given none |
| `FormReducers.NgrxFormReducer` | projects/ngrx-form/src/lib/store/form.reducers.ts:14-21 | one reducer per form name and no other; each returns the slot it is given, and the initial slot when given none |
| `FormReducers.MergeForm` | projects/ngrx-form/src/lib/store/form.reducers.ts:31-34 | the payload's value always wins; each optional property the payload carries wins; each it lacks survives from the old slot |
| `FormReducers.MergeIdempotent` | projects/ngrx-form/src/lib/store/form.reducers.ts:31-34 | merging the same form twice is merging it once |
| `FormReducers.MergeFullForm` | projects/ngrx-form/src/lib/store/form.reducers.ts:31-34 | a form carrying every property replaces the slot outright |
| `FormReducers.ApplyUpdate` | projects/ngrx-form/src/lib/store/form.reducers.ts:26-36 | throws exactly when the feature is missing; otherwise every other feature and every other path keeps its slot, and the path's slot is the merge of the old slot (if any) with the payload's form |
| `FormReducers.NgrxForm` | projects/ngrx-form/src/lib/store/form.reducers.ts:23-39 | any other action reaches the inner reducer with the state unchanged; the update action reaches it with the updated state, or throws when the feature is missing or the action has no payload |
| `FormDirective.Select` | projects/ngrx-form/src/lib/directives/form.directives.ts:62-70 | reads `state[feature][path].value`, and throws exactly when the feature or the path is missing |
| `FormDirective.EditPayload` | projects/ngrx-form/src/lib/directives/form.directives.ts:139-151 | the payload names the feature and path and carries the form value, `getErrors` of the form and both flags; since its form holds every property, the reducer's merge replaces the slot outright |
| `FormDirective.DispatchGate` | projects/ngrx-form/src/lib/directives/form.directives.ts:133-152 | an action is sent exactly when the form value differs from the store's; it names the feature and path and carries the form value, `getErrors` of the form, and the pristine and valid flags |
| `FormDirective.DispatchReadsBack` | projects/ngrx-form/src/lib/store/form.reducers.ts:23-39 | after the store applies an update, the selector reads back the payload's value |
| `FormDirective.NoEchoAfterDispatch` | projects/ngrx-form/src/lib/directives/form.directives.ts:133-152 | after a dispatched edit is applied, comparing the same form value with what the store now holds dispatches nothing; the walk the store's emission then starts is not part of this statement |
| `Scenarios.TagsMoveLast` | projects/ngrx-form/src/lib/directives/form.directives.ts:86-93 | store `{tags: ["x"], name: "a"}` over a form registered as `tags`, `name`: `setControl` moves `tags` last, so the form's value lists `name` first and differs from the store's value |
| `Scenarios.NameAndTags` | projects/ngrx-form/src/lib/directives/form.directives.ts:86-100 | `{name: "a", tags: ["x", "y"]}` gives `tags` two leaves, leaves `name` alone, and a second walk changes nothing |
| `Scenarios.ArrayOfObjects` | projects/ngrx-form/src/lib/directives/form.directives.ts:103-123 | an array of objects becomes one group per element with one leaf per key |
| `Scenarios.NestedZip` | projects/ngrx-form/src/lib/directives/form.directives.ts:164-176 | a failing `zip` inside group `address` is reported as `{zip: ...}`, with no prefix |
| `Scenarios.SiblingsCollide` | projects/ngrx-form/src/lib/directives/form.directives.ts:169-171 | two sibling groups with a failing `zip` each: only the later one's errors survive |

## Left out

- The RxJS plumbing (`debounceTime(400)`, `withLatestFrom`, `takeUntil`, the subscriptions) and the `ngOnInit` / `ngOnDestroy` lifecycle are time- and event-driven. The model keeps only the pure steps they connect: the selector, the walk, and the gate.
- `isPlatformBrowser`, `markForCheck` and Angular's `patchValue` are calls into the framework. The bulk value patch that follows `updateForm` is not modelled.
- The exact text of `JSON.stringify` is not modelled. `Serialize` is a token encoding with the same determinism and key-order sensitivity. Numbers are integers. There is no `undefined`, `NaN` or `-0`, so the cases where `JSON.stringify` maps two different values to one text do not arise.
- Angular's `get(name)` splits a name at `.` into a path. The model looks names up whole, so store keys containing a dot are not modelled.
- An object value whose control is a FormArray: Angular's `FormArray.get` and `setControl` take numeric indices. The model treats this target like a missing control.
- FormArrays.NewControl: Angular's FormControl constructor reads an object with exactly the keys `value` and `disabled` as a boxed state: the control holds the inner value and is disabled. The model's leaf holds such an object as it is, and disabled controls are not modelled.
- FormArrays.LeafArray: `fb.array(values)` reads an element that is a boxed state as above, and a later element that is itself an array as a `[value, validators]` control config. The model gives every element a plain leaf holding the element.
- FormArrays.RebuildArraysInForm: in the flat branch, `fb.array(values)` reads a later array element `[v, validator, ...]` as a control config. A truthy validator slot that is not a function (such as `[1, [2, 3]]`) makes Angular's FormControl constructor throw a TypeError when it first runs the validator. The model's clause that a flat array never throws does not hold there. Angular's validator and option handling is library code and is not modelled.
- FormArrays.NullFreeRebuilds: for the same reason, a null-free array can still throw in the source when one of its flat arrays holds such an element. The model rebuilds it.
- FormArrays.RebuildShape: its flat-branch clause (a leaf holding each element) describes the source only for elements that are neither boxed states nor arrays, for the reasons above.
- FormUpdate.FitsNeverThrows: it counts on array rebuilds that succeed in the model, so it inherits the gap above. An array that rebuilds in the model but throws in Angular's control constructor is not covered.
- UpdateReplay.UpdateFormThrows: "an array that fails to rebuild" means a rebuild that fails in the model, so the same gap applies.
- Json.Entries: a string's keys are counted in Unicode scalar values. JavaScript counts UTF-16 code units, so a character outside the Basic Multilingual Plane gives two keys there and one here.
- FormArrays.RebuildRoundTrip: the round trip is stated only for arrays with no boxed states and, in a flat array, no array elements. For a boxed state Angular builds a disabled control, and a parent's `.value` leaves disabled controls out. The model has no disabled controls, so it states nothing about those inputs.
- JavaScript lists integer-like property names (`"0"`, `"1"`, …) before the others, in ascending order. The model keeps plain insertion order throughout.
- Controls are values, so object identity and aliasing between controls are not modelled. Changing a nested group in place is modelled as replacing that child at its position.
- The store's own combination of reducers (NgRx `combineReducers`) is library code. `FormDirective.KeepStore` stands for a store whose form reducers all keep their slots, as each entry of `NgrxFormReducer` does. A store state is typed as features of form slots only.
- `ngrx-form.module.ts` and `services/form.tokens.ts` are dependency-injection wiring. The feature name is a plain parameter here.
- The action is the `FormModels.Action` datatype. Its type string is taken from `+store/form.actions.ts`. The directive's `fromAction.updateform` creator and the reducer's import `store/form.actions.ts` are not part of this model.
- `FormDirective.DispatchGate`: the `pristine` and `valid` flags read from `FormGroupDirective` are typed `boolean | undefined` in the source. The model takes them as booleans.
