# Validated forms: form controller and per-field error display

A Dafny model of the orchestration core of AndroidValidatedForms: the
`FormController`, which owns an ordered list of form sections (each an
ordered list of form elements), the form model's change listener, whole-form
validation and a swappable error-display strategy, and the default strategy
`PerFieldValidationErrorDisplay`, which marks and clears the error of each
element.

Files and modules:

- `form_parts.dfy`, module `FormParts`: the collaborators the core uses,
  reduced to the state it touches. `ValidationError` (field name and message
  key), `Resources` (the host's message resolution, an arbitrary function from
  error to text), `FormModel` (its property-change listener list: add appends,
  remove drops one occurrence), `FormElement` (name, labeled-field flag, the
  answer of its `validateInput()`, error mark, refresh count, model) and
  `FormSection` (name, ordered elements, model), plus a section's own
  first-match `getElement`.
- `form_queries.dfy`, module `FormQueries`: the controller's queries as
  functions on its section list (`FindSection`, `FindElement`,
  `ElementCount`, `CollectErrors`) and what they mean: first-match precedence,
  the effect of inserting or appending sections, membership and emptiness of
  the aggregated errors.
- `per_field_validation_error_display.dfy`, module `ErrorDisplay`: the
  per-field display as a class, with `ShownError`, the mark an element shows
  after a list of errors, and its properties (last error wins, untouched
  elements keep their mark, no mark is ever cleared).
- `form_controller.dfy`, module `FormControllers`: the listener registration
  (remove, then add), the view-id counter and the `FormController` class.

Design decisions:

- Sections and elements are objects, so an element shared by two sections
  behaves as in Java. Their names, the labeled flag and the validation answer
  are constants, and so is a section's element list (no operation of the
  core adds or removes elements); the error mark, refresh count and model are
  fields.
- In Java the controller and the per-field display refer to each other.
  Modules cannot import each other here, so the display receives the
  controller's live section list at each call, and resolves names with the
  same `FindElement` that the controller's `GetElement` is proved to compute.
- The display strategy is `PerField(display)` or `Custom(id)`. Every call the
  controller makes on a strategy is recorded in the ghost field `handoffs`; the per-field
  strategy's effect on the elements is modelled; a custom one may do anything
  to them, and the model states nothing about the elements after handing
  errors to it.
- The code dereferences the lookup result without a check
  (`FormController.java:311`, `PerFieldValidationErrorDisplay.java:35-36`), so
  the model makes a successful lookup a precondition of `PropertyChange` and
  `ShowErrors`. `CollectedErrorsResolve` shows that the precondition holds for
  the form's own errors whenever each field reports errors under its own name.
- `addSection(section, position)` throws for a position outside
  `0..size`; the model makes that range a precondition.
- `generateViewId` is one sequential step of the compare-and-swap loop. The
  counter is a `ViewIdGenerator` object standing for the static field.

## Model

| member | source | states |
|---|---|---|
| `FormParts.RemoveFirstTakesOne` | androidvalidatedforms/src/main/java/com/azavea/androidvalidatedforms/FormController.java:125 | removing a listener takes exactly one occurrence of it out of the model's listener list, if there is one |
| `FormParts.FirstNamed` | androidvalidatedforms/src/main/java/com/azavea/androidvalidatedforms/FormController.java:200 | a section's lookup answers an element of the section with that name, and answers nothing exactly when no element has that name |
| `FormParts.FirstNamedAt` | androidvalidatedforms/src/main/java/com/azavea/androidvalidatedforms/FormController.java:200 | among elements sharing a name, a section's lookup answers the earliest one |
| `FormQueries.FindSection` | androidvalidatedforms/src/main/java/com/azavea/androidvalidatedforms/FormController.java:163-170 | a section lookup answers a section of the form with that name, and null exactly when no section has that name |
| `FormQueries.FindSectionAt` | androidvalidatedforms/src/main/java/com/azavea/androidvalidatedforms/FormController.java:163-170 | among sections sharing a name, the earliest one is answered |
| `FormQueries.FindElement` | androidvalidatedforms/src/main/java/com/azavea/androidvalidatedforms/FormController.java:198-206 | an element lookup answers an element of some section with that name, and null exactly when no section has an element with that name |
| `FormQueries.FindElementAt` | androidvalidatedforms/src/main/java/com/azavea/androidvalidatedforms/FormController.java:198-206 | with duplicate names, the first section holding the name wins, and within it the first element |
| `FormQueries.FindElementConcat` | androidvalidatedforms/src/main/java/com/azavea/androidvalidatedforms/FormController.java:178-206 | sections placed after others never change the answers of the earlier ones; a later section is consulted only when the earlier ones have no such element |
| `FormQueries.ElementCountConcat` | androidvalidatedforms/src/main/java/com/azavea/androidvalidatedforms/FormController.java:213-220 | the element count of a list of sections is the sum of the counts of any two parts it is split into, so inserting a section adds exactly its element count |
| `FormQueries.CollectErrorsConcat` | androidvalidatedforms/src/main/java/com/azavea/androidvalidatedforms/FormController.java:236-251 | the aggregated errors of a list of sections are the errors of its first part followed by those of the rest: the order is section order |
| `FormQueries.SectionErrorsMembers` | androidvalidatedforms/src/main/java/com/azavea/androidvalidatedforms/FormController.java:242-246 | a section contributes exactly the errors of its labeled fields; other elements contribute nothing |
| `FormQueries.CollectErrorsMembers` | androidvalidatedforms/src/main/java/com/azavea/androidvalidatedforms/FormController.java:236-251 | an error is in the form's validation result exactly when some labeled field of some section reports it |
| `FormQueries.CollectErrorsEmpty` | androidvalidatedforms/src/main/java/com/azavea/androidvalidatedforms/FormController.java:258-260 | the form's validation result is empty exactly when every labeled field reports no error |
| `FormQueries.CollectedErrorsResolve` | androidvalidatedforms/src/main/java/com/azavea/androidvalidatedforms/validations/PerFieldValidationErrorDisplay.java:34-36 | when fields report errors under their own names, every aggregated error resolves to an element, so showing them never dereferences a missing element |
| `ErrorDisplay.Target` | androidvalidatedforms/src/main/java/com/azavea/androidvalidatedforms/validations/PerFieldValidationErrorDisplay.java:35 | the element an error resolves to belongs to the form and carries the error's field name |
| `ErrorDisplay.ShownErrorLastWins` | androidvalidatedforms/src/main/java/com/azavea/androidvalidatedforms/validations/PerFieldValidationErrorDisplay.java:34-37 | when several errors resolve to one element, it ends up showing the message of the last of them |
| `ErrorDisplay.ShownErrorUntouched` | androidvalidatedforms/src/main/java/com/azavea/androidvalidatedforms/validations/PerFieldValidationErrorDisplay.java:31-38 | an element no error resolves to keeps its previous mark; in particular an empty error list changes nothing |
| `ErrorDisplay.ShownErrorNeverClears` | androidvalidatedforms/src/main/java/com/azavea/androidvalidatedforms/validations/PerFieldValidationErrorDisplay.java:31-38 | showing errors never clears a mark |
| `ErrorDisplay.PerFieldValidationErrorDisplay.ResetErrors` | androidvalidatedforms/src/main/java/com/azavea/androidvalidatedforms/validations/PerFieldValidationErrorDisplay.java:22-28 | every element of every section ends with no error mark, whatever its mark was, so a second reset leaves the same state; refresh counts and models are untouched |
| `ErrorDisplay.PerFieldValidationErrorDisplay.ShowErrors` | androidvalidatedforms/src/main/java/com/azavea/androidvalidatedforms/validations/PerFieldValidationErrorDisplay.java:31-38 | requires every error to resolve; each element ends with the mark `ShownError` gives for the errors applied in list order to its old mark, and nothing else changes |
| `ErrorDisplay.PerFieldValidationErrorDisplay.constructor` | androidvalidatedforms/src/main/java/com/azavea/androidvalidatedforms/validations/PerFieldValidationErrorDisplay.java:16-19 | the display keeps the resources it resolves messages with |
| `FormControllers.RegisterCounts` | androidvalidatedforms/src/main/java/com/azavea/androidvalidatedforms/FormController.java:123-127 | remove-then-add leaves the controller's listener once if it was absent, at its old multiplicity otherwise, and every other listener as it was |
| `FormControllers.RegisterIdempotent` | androidvalidatedforms/src/main/java/com/azavea/androidvalidatedforms/FormController.java:123-127 | once the listener is registered at most once, registering again leaves the listener list unchanged |
| `FormControllers.RegisterTimesOnce` | androidvalidatedforms/src/main/java/com/azavea/androidvalidatedforms/FormController.java:118-127 | after any positive number of registrations, starting from at most one copy, the listener is registered exactly once |
| `FormControllers.NextViewId` | androidvalidatedforms/src/main/java/com/azavea/androidvalidatedforms/FormController.java:139-140 | the counter's successor of a non-negative value is never 0 and never exceeds 0x00FFFFFF when the value does not |
| `FormControllers.IdAfterCycles` | androidvalidatedforms/src/main/java/com/azavea/androidvalidatedforms/FormController.java:135-145 | from the seed 1, the id handed out after k earlier calls is k mod 0x00FFFFFF plus 1 |
| `FormControllers.IdsInRangeAndDistinct` | androidvalidatedforms/src/main/java/com/azavea/androidvalidatedforms/FormController.java:135-145 | every handed-out id is in [1, 0x00FFFFFF]; ids within any 0x00FFFFFF consecutive calls are distinct, and they repeat with that period |
| `FormControllers.ViewIdGenerator.constructor` | androidvalidatedforms/src/main/java/com/azavea/androidvalidatedforms/FormController.java:37 | the counter starts at 1 |
| `FormControllers.ViewIdGenerator.GenerateViewId` | androidvalidatedforms/src/main/java/com/azavea/androidvalidatedforms/FormController.java:135-145 | returns the counter value, which is in [1, 0x00FFFFFF], and advances it to the next value, rolling over to 1 |
| `FormControllers.FormController.constructor` | androidvalidatedforms/src/main/java/com/azavea/androidvalidatedforms/FormController.java:39-44 | a new form has no sections, a fresh model whose only listener is the controller's, and a fresh per-field display using the given resources |
| `FormControllers.FormController.RegisterFormModelListener` | androidvalidatedforms/src/main/java/com/azavea/androidvalidatedforms/FormController.java:123-127 | the listener list becomes the remove-then-add result, holding the controller's listener once if it held it at most once |
| `FormControllers.FormController.GetSection` | androidvalidatedforms/src/main/java/com/azavea/androidvalidatedforms/FormController.java:163-170 | the scan answers `FindSection`: the first section with that name, or none |
| `FormControllers.FormController.AddSectionAt` | androidvalidatedforms/src/main/java/com/azavea/androidvalidatedforms/FormController.java:178-180 | the section is inserted at the position, the sections before it stay before it and those after it shift right, in their old order |
| `FormControllers.FormController.AddSection` | androidvalidatedforms/src/main/java/com/azavea/androidvalidatedforms/FormController.java:187-189 | the section is appended after all existing sections |
| `FormControllers.FormController.GetElement` | androidvalidatedforms/src/main/java/com/azavea/androidvalidatedforms/FormController.java:198-206 | the section-by-section scan answers `FindElement`: the first section's first element with that name, or none |
| `FormControllers.FormController.GetNumberOfElements` | androidvalidatedforms/src/main/java/com/azavea/androidvalidatedforms/FormController.java:213-220 | the loop's total equals the sum over sections of their element counts |
| `FormControllers.FormController.ValidateInput` | androidvalidatedforms/src/main/java/com/azavea/androidvalidatedforms/FormController.java:236-251 | the nested loops produce exactly `CollectErrors`: labeled fields' errors in section, then element, then rule order |
| `FormControllers.FormController.IsValidInput` | androidvalidatedforms/src/main/java/com/azavea/androidvalidatedforms/FormController.java:258-260 | true exactly when validation reports nothing, that is, when every labeled field reports no error |
| `FormControllers.FormController.ShowValidationErrors` | androidvalidatedforms/src/main/java/com/azavea/androidvalidatedforms/FormController.java:265-267 | hands exactly the validation result to the strategy set last; with the per-field strategy the marks become those `ShownError` gives and nothing else about the elements changes; a custom strategy's effect is left unconstrained |
| `FormControllers.FormController.ResetValidationErrors` | androidvalidatedforms/src/main/java/com/azavea/androidvalidatedforms/FormController.java:273-275 | hands a reset to the strategy set last; with the per-field strategy every mark is cleared and nothing else about the elements changes; a custom strategy's effect is left unconstrained |
| `FormControllers.FormController.SetValidationErrorsDisplayMethod` | androidvalidatedforms/src/main/java/com/azavea/androidvalidatedforms/FormController.java:282-284 | the given strategy replaces the previous one |
| `FormControllers.FormController.RecreateViews` | androidvalidatedforms/src/main/java/com/azavea/androidvalidatedforms/FormController.java:292-307 | every section and element gets the controller's model, error marks and refresh counts are untouched, and the listener is re-registered and still present exactly once |
| `FormControllers.FormController.PropertyChange` | androidvalidatedforms/src/main/java/com/azavea/androidvalidatedforms/FormController.java:309-313 | requires the event's name to resolve; the element `FindElement` answers for it is refreshed once and nothing else changes |

## Left out

- The reflective form model (`createFormModel`, `FormController.java:69-112`): reading and writing named fields of the backing object goes through Java reflection and is not modelled; the model object is reduced to its listener list, and the backing object itself is not represented.
- `FormModel`, `FormElementController`, `FormSectionController`, `LabeledFieldController` and `ValidationError`: their Java sources are not shown, and each is reduced to the state the core touches. Each element's `validateInput()` answer is a fixed sequence chosen when the element is built, so its dependence on the current model value and the rule-level behaviour of fields (such as a required-field short-circuit) are not represented.
- A section's own `getElement` is modelled as a first-match scan in insertion order, which is what the form relies on; its code is not part of this model.
- View construction in `recreateViews` (`removeAllViews`, `getView`, `addView`): platform views are not modelled, so the container argument is dropped.
- The compare-and-swap retry loop of `generateViewId`: concurrent callers are not modelled; one call is one sequential step.
- Message localisation: `error.getMessage(res)` is an arbitrary function of the error; the display takes the resources when it is created instead of asking its context at each call.
- Custom display strategies: only the call handed to them is recorded; what they do to the form is not modelled, so `ShowValidationErrors` and `ResetValidationErrors` promise nothing about the elements when a custom strategy is set.
- `FormControllers.FormController.PropertyChange`: when no element has the event's name, Java throws a `NullPointerException` at `FormController.java:311`; the model replaces that crash with the precondition that the name resolves.
- `ErrorDisplay.PerFieldValidationErrorDisplay.ShowErrors`: when an error's field name resolves to no element, Java throws a `NullPointerException` at `PerFieldValidationErrorDisplay.java:35-36`; the model replaces that crash with the precondition that every error resolves.
- `FormControllers.FormController.ShowValidationErrors`: with the per-field display, the same `NullPointerException` is replaced by the precondition that every aggregated error resolves.
- `FormControllers.FormController.AddSectionAt`: a position outside `0..size` makes Java's `ArrayList.add` throw `IndexOutOfBoundsException`; the model requires the position to be in range instead of modelling the exception.
- The display's back-reference to its controller: the per-field display acts on the sections of the controller that calls it, so a display built for one controller and installed in another is not modelled.
- `FormControllers.FormController.GetNumberOfElements`: does not model 32-bit overflow of the Java `int` count, which wraps once the total reaches 2^31 elements.
- `refreshElements`, `getSections`, `getModel` and `getModelObject`: plain accessors, or a pass-through to the sections' own `refresh`, whose code is not part of this model.
- Logging (`Log.d`, `printStackTrace`).
- `ImageController`: permission prompts, intents, camera and file-picker results, file creation and bitmap resizing are platform plumbing outside this core.
