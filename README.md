# Dynamic form builder: field model in Dafny

The `FormBuilder` React component keeps an ordered list of field records
`{type, label, value, required, options?}`. The user adds fields through a
dialog (type, label, comma-separated options, a Required checkbox), edits
their values through the controls `InputField` draws, removes fields, and
validates the whole form. This project models that field list and the small
pure rules of `InputField`, and proves what they do.

- `js.dfy`, module `Js`: the JavaScript pieces the component relies on. A
  field's value slot is a tagged value `Str(string) | Arr(seq<string>)` with
  JavaScript truthiness: `""` is falsy and every array, `[]` included, is
  truthy. The module also holds `split(',')` and `join(',')` with their round
  trips, `includes`, `filter(val => val !== x)` and the start rule of
  `splice(index, 1)`.
- `input_field.dfy`, module `InputField`: the inline error
  `required && !value`, the control drawn for each type, the checked state of
  checkbox options (`value.includes(option)`) and radio options
  (`value === option`), the dropdown's leading empty-valued "Select an option"
  entry, and the string each control reports to `onChange`.
- `form_builder.dfy`, module `FormBuilder`: the `Field` record, field creation
  (`NewField`), the checkbox toggle, the type dispatch of the `onChange`
  closure (`Changed`), the messages of `validateForm` (`Message`, `Messages`,
  `Validate`), and the class `Builder`. The class holds the `fields` list, the
  stored `errors` and the dialog-wide `required` flag. Its methods append,
  remove and update fields. Each method keeps every field `WellShaped`: the
  options are present exactly for dropdown, checkbox and radio; a checkbox
  value is always an array; a text value is always a string.

Some behaviours of the code are easy to miss, and the model keeps them:

- A new dropdown or radio field starts with value `[]`, not `''`.
- A required dropdown that was never touched is therefore reported as
  "Please select an option for X.", not "X is required."
  (`DropdownUntouched`). While the value is `[]` the browser already shows
  the placeholder entry, so picking it fires no change. Only after another
  entry was chosen does picking the placeholder store `""`, which then gives
  "X is required." (`DropdownPlaceholder`).
- Removing at an index at or past the end does nothing, as `splice` does. A
  negative index counts from the end. Nothing is reported as an error.
- Updating a value at an index outside the list throws a `TypeError` before
  the new list is stored. The model returns `ok == false` and leaves the list
  unchanged.
- Toggling twice restores the value when the option starts absent
  (`ToggleTwiceAbsent`). For a present option it gives the other entries in
  order, then one copy of the option (`ToggleTwicePresent`). That differs
  from the old value unless the option occurred once, as the last entry
  (`ToggleTwicePresentRestores`). Toggling removes every copy of the option.
- `InputField` receives the builder-wide dialog flag as `required`, not the
  field's own `required`. The model keeps that behaviour as its contract.
  `InlineAndBulkDisagree` shows the inline error and the bulk validation
  disagreeing because of it.

## Model

| member | source | states |
|---|---|---|
| Js.Split | src/components/FormBuilder.jsx:42 | `split(',')` gives at least one piece, and no piece contains a comma |
| Js.JoinSplit | src/components/FormBuilder.jsx:42 | joining the pieces with `,` gives back the options text exactly |
| Js.SplitLength | src/components/FormBuilder.jsx:42 | the number of options is the number of commas plus one |
| Js.SplitJoin | src/components/FormBuilder.jsx:42 | splitting a join of a non-empty list of comma-free pieces gives back those pieces |
| Js.SplitSingleEmpty | src/components/FormBuilder.jsx:42 | the text splits into `[""]` exactly when it is empty |
| Js.Without | src/components/FormBuilder.jsx:65 | `filter(val => val !== x)` keeps exactly the elements other than `x` and never grows |
| Js.WithoutDistinct | src/components/FormBuilder.jsx:65 | filtering a duplicate-free array leaves it duplicate-free |
| Js.SpliceStart | src/components/FormBuilder.jsx:58 | the index `splice` removes at: a negative index counts from the end and stops at 0; an index past the end is clamped to the length |
| Js.RemoveAt | src/components/FormBuilder.jsx:58 | for `0 <= i < n` the length drops by one, earlier elements stay and later ones shift down by one; an index `>= n` leaves the array unchanged |
| Js.RemoveAtNegative | src/components/FormBuilder.jsx:58 | a negative index `-k` (with `k <= n`) removes the element at `n - k` |
| InputField.InlineError | src/components/InputField.jsx:14-20 | the error is present exactly when `required` holds and the value is falsy, and then reads "`label` is required." |
| InputField.ArrayNeverInlineError | src/components/InputField.jsx:15 | an array value, `[]` included, never shows the inline error |
| Js.Truthy | src/components/FormBuilder.jsx:110 | the only falsy value a field can hold is the empty string; every array is truthy |
| Js.StrIncludesIff | src/components/InputField.jsx:57 | string `includes` holds exactly when the text occurs at some position |
| InputField.Render | src/components/InputField.jsx:26-76 | the field shows its label; the inline error is `InlineError` of the value, the given `required` and the label, so it is present exactly when `required` holds and the value is falsy; a text box, text area or dropdown shows the field's value; each type gets its own control; a dropdown offers `""` and then the options, a checkbox or radio group offers the options in order |
| InputField.Payload | src/components/InputField.jsx:33-70 | typing reports the typed text, and only to a text box or text area; picking position `i` reports the `i`-th offered entry or option, and nothing past the end |
| InputField.CheckboxChecked | src/components/InputField.jsx:57 | an option is checked exactly when the array value contains it, or, for a string value, when it occurs in the string |
| InputField.RadioChecked | src/components/InputField.jsx:69 | an option is checked exactly when the value is a string equal to it character by character; a checked value is truthy unless the option is empty |
| InputField.RenderDropdown | src/components/InputField.jsx:40-48 | a dropdown lists the empty-valued "Select an option" entry, then the options in order; picking the placeholder reports `""` and picking entry `i + 1` reports option `i` |
| InputField.RenderCheckbox | src/components/InputField.jsx:50-61 | checkbox options appear in order, each checked exactly when the value contains it, and each reports itself when picked |
| InputField.RenderRadio | src/components/InputField.jsx:62-73 | radio options appear in order, each checked exactly when it equals the value; equal options are checked together, an array value checks none, and each option reports itself |
| InputField.RenderTextReportsTyped | src/components/InputField.jsx:29-39 | a text box or text area reports the typed string and ignores a pick |
| InputField.RadioAtMostOneChecked | src/components/InputField.jsx:69 | with distinct options, at most one radio button is checked |
| FormBuilder.NewField | src/components/FormBuilder.jsx:32-46 | the new field copies type, label and required; an option type gets value `[]` and options that join back to the text, number commas + 1 and are `[""]` exactly for empty text; any other type gets value `''` and no options; the field is well shaped |
| FormBuilder.NewFieldOptionsInjective | src/components/FormBuilder.jsx:39-44 | two option texts that give the same options are the same text |
| FormBuilder.NewFieldOptionsReachable | src/components/FormBuilder.jsx:39-44 | every non-empty list of comma-free options comes from some options text |
| FormBuilder.Toggle | src/components/FormBuilder.jsx:64-66 | the option is in the result exactly when it was not in the value; every other string keeps its membership; an absent option is appended at the end; a present one is dropped in every copy, with the other entries kept in order, and the value gets shorter |
| FormBuilder.ToggleKeepsDistinct | src/components/FormBuilder.jsx:64-66 | a duplicate-free value stays duplicate-free |
| FormBuilder.ToggleTwiceAbsent | src/components/FormBuilder.jsx:64-66 | toggling an absent option twice restores the value exactly |
| FormBuilder.ToggleTwicePresent | src/components/FormBuilder.jsx:64-66 | toggling a present option twice leaves the other entries in order and the option at the end |
| FormBuilder.ToggleTwicePresentRestores | src/components/FormBuilder.jsx:64-66 | for a present option, toggling twice gives back the value exactly when the option occurs once, as the last entry |
| FormBuilder.ToggleTwicePresentReorders | src/components/FormBuilder.jsx:64-66 | `["Cheese", "Olives"]` toggled twice on "Cheese" is `["Olives", "Cheese"]` |
| FormBuilder.CheckboxScenario | src/components/FormBuilder.jsx:62-68 | on an untouched checkbox field, toggling `a`, `b`, `a` ends at `[b]` (Cheese, Olives, Cheese ends at `["Olives"]`) |
| FormBuilder.Changed | src/components/FormBuilder.jsx:92-98 | a checkbox field's value becomes `Toggle` of its items and the payload; any other type takes the payload as its value; type, label, required and options are unchanged, and a well-shaped field stays well shaped |
| FormBuilder.Message | src/components/FormBuilder.jsx:109-122 | a field gets a message only if required, exactly when its value is `''` or it is an option type holding `[]`, and the message is one of the three templates |
| FormBuilder.MessageCases | src/components/FormBuilder.jsx:110-121 | a well-shaped field gets a message exactly when it is required and its value is empty; a falsy value gives "`label` is required.", an empty dropdown array gives "Please select an option for `label`.", an empty checkbox or radio array gives "Select at least one option for `label`." |
| FormBuilder.Messages | src/components/FormBuilder.jsx:124 | each stored error is the message of some field; the list is empty exactly when no field has a message |
| FormBuilder.MessagesAppend | src/components/FormBuilder.jsx:109-124 | the messages of two lists laid end to end are their messages end to end, so the errors follow field order |
| FormBuilder.MessagesSingle | src/components/FormBuilder.jsx:109-124 | a single field contributes its own message or nothing |
| FormBuilder.MessagesComplete | src/components/FormBuilder.jsx:109-124 | every failing field's message is among the stored errors |
| FormBuilder.Validate | src/components/FormBuilder.jsx:108-127 | the form is valid exactly when the error list is empty, exactly when no field has a message, and, for well-shaped fields, exactly when every field is satisfied |
| FormBuilder.DropdownUntouched | src/components/FormBuilder.jsx:43 | a required untouched dropdown holds `[]` and gets exactly "Please select an option for `label`." |
| FormBuilder.ChoiceClearsMessage | src/components/FormBuilder.jsx:70-80 | choosing a non-empty option on a dropdown or radio field clears its message |
| FormBuilder.DropdownPlaceholder | src/components/InputField.jsx:42 | storing the placeholder's `""` (possible once another entry was chosen) makes a required dropdown report "`label` is required." |
| FormBuilder.ColorOptions | src/components/FormBuilder.jsx:42 | "Red,Green,Blue" splits into the three colours |
| FormBuilder.RenderFields | src/components/FormBuilder.jsx:82-99 | one view per field, in order: view `i` is `Render` of field `i`'s own type, label, value and options, so it shows that field's label and control, with the inline error decided by the dialog-wide `required` flag |
| FormBuilder.InlineAndBulkDisagree | src/components/FormBuilder.jsx:91 | because the dialog flag is passed as `required`, an empty required field can show no inline error yet fail validation, and a non-required one can show the error yet pass |
| FormBuilder.PickRadioChecksIt | src/components/InputField.jsx:69-70 | picking radio option `i` reports it, and the redrawn group checks exactly the options equal to it |
| FormBuilder.PickCheckboxFlipsIt | src/components/InputField.jsx:57-58 | picking checkbox option `i` reports it, and the redrawn group flips the options equal to it and leaves the others unchanged |
| FormBuilder.Builder.Views | src/components/FormBuilder.jsx:82-106 | one view per field, in order: view `i` is `Render` of field `i`'s own type, label, value and options, with the inline error decided by the builder's dialog flag |
| FormBuilder.Builder.constructor | src/components/FormBuilder.jsx:6-12 | the builder starts with no fields, no errors and the dialog flag off |
| FormBuilder.Builder.SetRequired | src/components/FormBuilder.jsx:209-214 | the dialog's Required checkbox sets the builder-wide flag |
| FormBuilder.Builder.SubmitField | src/components/FormBuilder.jsx:28-54 | the new field is appended at the end, the length grows by one, earlier fields are unchanged, and the dialog flag is cleared |
| FormBuilder.Builder.RemoveField | src/components/FormBuilder.jsx:56-60 | the list becomes its `splice(index, 1)`; an in-range index shortens it by one, an index at or past the end leaves it unchanged |
| FormBuilder.Builder.CheckboxChange | src/components/FormBuilder.jsx:62-68 | only the field at `index` changes, and its value becomes the toggle of the option; an index outside the list changes nothing |
| FormBuilder.Builder.ValueChange | src/components/FormBuilder.jsx:70-80 | only the field at `index` changes, and its value becomes the reported string; an index outside the list changes nothing |
| FormBuilder.Builder.OnChange | src/components/FormBuilder.jsx:92-98 | only the field at `index` changes, as `Changed` says for its type; an index outside the list changes nothing |
| FormBuilder.Builder.ValidateForm | src/components/FormBuilder.jsx:108-127 | the stored errors become the messages of the failing fields in order; the result says whether all fields are satisfied; the fields are not modified |

The table leaves out four helpers with no contract of their own, each used
inside members it lists: `Js.Length` is `.length` (src/components/FormBuilder.jsx:112, 117),
`Js.Includes` and `Js.StrIncludes` are `.includes` (src/components/InputField.jsx:57),
and `InputField.HasOptions` is the type test for dropdown, checkbox and radio
(src/components/FormBuilder.jsx:39).

## Left out

- Saving and loading through `localStorage` with `JSON.stringify` and
  `JSON.parse` (`saveForm`, `loadForm`). These are browser and library
  calls. A missing key loads `[]`, but malformed data throws, so there is no
  fail-soft decoder to model.
- The dialog's show/hide state and its label and options inputs
  (`addFormField`, `handleModalClose`, `showModal`, `newFieldLabel`,
  `newFieldOptions`). This is presentation state. The chosen type, label and
  options text are parameters of `SubmitField`.
- `alert` and `console.log` in `handleSubmit`: output only. The validation it
  calls is `ValidateForm`.
- The JSX layout, the react-bootstrap components, showing the error list, and
  the `useState`/`useEffect` timing. The inline error is computed directly
  from the current value, flags and label, not kept as effect state.
- `src/App.jsx`: it only composes the component.
- Field types are the five the buttons offer. Other type strings could only
  arrive through `loadForm`, so the `field.type &&` render guard is always
  true here.
- FormBuilder.Builder.CheckboxChange: requires that the field at an in-range
  `index` is a checkbox, because only the dispatch reaches this handler and
  only for checkbox fields. An out-of-range index is accepted and gives
  `ok == false`. What the code would do to a text value is not modelled.
- FormBuilder.Builder.ValueChange: requires that the field at an in-range
  `index` is not a checkbox, for the same reason. It stands for both
  `handleRadioChange` and `handleValueChange`, which have the same body.
- Array copying and aliasing: the handlers copy the list shallowly and then
  assign to the shared field object. The model updates the field by value.
  The old list is discarded at once, so the difference cannot be observed.
- JavaScript string length counts UTF-16 code units, while the model counts
  characters. The only test made is whether the length is zero, so the two
  agree.
