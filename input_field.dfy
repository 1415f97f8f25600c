/** One rendered form field: its inline "required" error, the controls it
    shows for its type (with the checked state of each checkbox or radio
    option and the entries of a dropdown), and the string each control
    reports to its `onChange` callback. */
module InputField {
  import opened Js

  /** The five field types the builder offers. */
  datatype FieldType = Text | TextArea | Dropdown | Checkbox | Radio

  /** The types whose field carries a list of options. */
  predicate HasOptions(t: FieldType)
  {
    t == Dropdown || t == Checkbox || t == Radio
  }

  /** The live validation effect: `<label> is required.` when `required` holds
      and the value is falsy, no error otherwise. */
  function InlineError(value: Value, required: bool, labelText: string): (error: Option<string>)
    ensures error.Some? <==> required && !Truthy(value)
    ensures error.Some? ==> error.value == labelText + " is required."
  {
    if required && !Truthy(value) then Some(labelText + " is required.") else None
  }

  /** An array value, even the empty one, never shows the inline error,
      whatever the `required` flag. */
  lemma ArrayNeverInlineError(items: seq<string>, required: bool, labelText: string)
    ensures InlineError(Arr(items), required, labelText) == None
  {
  }

  /** A checkbox option is drawn checked when the value includes it. */
  predicate CheckboxChecked(value: Value, option: string)
    ensures value.Arr? ==> (CheckboxChecked(value, option) <==> exists i :: 0 <= i < |value.items| && value.items[i] == option)
    ensures value.Str? ==> (CheckboxChecked(value, option) <==> exists i: nat :: OccursAt(value.s, option, i))
  {
    if value.Str? then StrIncludesIff(value.s, option); Includes(value, option) else Includes(value, option)
  }

  /** A radio option is drawn checked when the value is that very string. */
  predicate RadioChecked(value: Value, option: string)
    ensures RadioChecked(value, option) ==> Truthy(value) || option == ""
    ensures RadioChecked(value, option) <==> value.Str? && |value.s| == |option| && forall k :: 0 <= k < |option| ==> value.s[k] == option[k]
  {
    value == Str(option)
  }

  /** An `<option>` of a dropdown: the value it reports and the text shown. */
  datatype Entry = Entry(value: string, text: string)

  /** A checkbox or radio button: the option it stands for (also its label)
      and whether it is drawn checked. */
  datatype Choice = Choice(option: string, checked: bool)

  /** The control drawn for each field type. */
  datatype Control =
    | TextBox(shown: Value)
    | TextAreaBox(shown: Value)
    | Select(selected: Value, entries: seq<Entry>)
    | CheckGroup(choices: seq<Choice>)
    | RadioGroup(choices: seq<Choice>)

  /** A rendered field: its heading, its control and the inline error text. */
  datatype View = View(heading: string, control: Control, error: Option<string>)

  /** The text of the leading, empty-valued dropdown entry. */
  const Placeholder: string := "Select an option"

  /** The rendering of one field. `options.map` needs the options, so a
      dropdown, checkbox or radio field must carry them. */
  function Render(kind: FieldType, labelText: string, value: Value, options: Option<seq<string>>, required: bool): (v: View)
    requires HasOptions(kind) ==> options.Some?
    ensures v.heading == labelText
    ensures v.error == InlineError(value, required, labelText)
    ensures v.error.Some? <==> required && !Truthy(value)
    ensures v.control.TextBox? || v.control.TextAreaBox? ==> v.control.shown == value
    ensures v.control.Select? ==> v.control.selected == value
    ensures (kind == Text <==> v.control.TextBox?) && (kind == TextArea <==> v.control.TextAreaBox?)
    ensures (kind == Dropdown <==> v.control.Select?) && (kind == Checkbox <==> v.control.CheckGroup?) && (kind == Radio <==> v.control.RadioGroup?)
    ensures HasOptions(kind) ==> Offered(v.control) == (if kind == Dropdown then [""] else []) + options.value
  {
    var control :=
      match kind
      case Text => TextBox(value)
      case TextArea => TextAreaBox(value)
      case Dropdown =>
        Select(value, [Entry("", Placeholder)] + seq(|options.value|, i requires 0 <= i < |options.value| => Entry(options.value[i], options.value[i])))
      case Checkbox =>
        CheckGroup(seq(|options.value|, i requires 0 <= i < |options.value| => Choice(options.value[i], CheckboxChecked(value, options.value[i]))))
      case Radio =>
        RadioGroup(seq(|options.value|, i requires 0 <= i < |options.value| => Choice(options.value[i], RadioChecked(value, options.value[i]))));
    View(labelText, control, InlineError(value, required, labelText))
  }

  /** The strings a control can report when one of its entries or options
      is picked, in order; a text box offers none. */
  function Offered(c: Control): seq<string>
  {
    match c
    case TextBox(_) => []
    case TextAreaBox(_) => []
    case Select(_, entries) => seq(|entries|, i requires 0 <= i < |entries| => entries[i].value)
    case CheckGroup(choices) => seq(|choices|, i requires 0 <= i < |choices| => choices[i].option)
    case RadioGroup(choices) => seq(|choices|, i requires 0 <= i < |choices| => choices[i].option)
  }

  /** What the user does to a control: type into a text box, or pick the
      entry or option at a position. */
  datatype Action = Type(text: string) | Pick(index: nat)

  /** The string a control passes to `onChange` for an action, if the action
      applies to that control: the typed text (`e.target.value`) for a text
      box or text area, the picked entry's value for a dropdown, and the
      option itself for a checkbox or radio button. */
  function Payload(c: Control, a: Action): (r: Option<string>)
    ensures a.Type? ==> (r.Some? <==> c.TextBox? || c.TextAreaBox?)
    ensures a.Type? && r.Some? ==> r.value == a.text
    ensures a.Pick? ==> (r.Some? <==> a.index < |Offered(c)|)
    ensures a.Pick? && r.Some? ==> r.value == Offered(c)[a.index]
  {
    match (c, a)
    case (TextBox(_), Type(t)) => Some(t)
    case (TextAreaBox(_), Type(t)) => Some(t)
    case (Select(_, entries), Pick(i)) => if i < |entries| then Some(entries[i].value) else None
    case (CheckGroup(choices), Pick(i)) => if i < |choices| then Some(choices[i].option) else None
    case (RadioGroup(choices), Pick(i)) => if i < |choices| then Some(choices[i].option) else None
    case _ => None
  }

  /** A dropdown lists the empty-valued placeholder first, then each option
      in the given order; picking the placeholder reports `""`, picking entry
      `i + 1` reports option `i`. */
  lemma RenderDropdown(labelText: string, value: Value, options: seq<string>, required: bool)
    ensures Render(Dropdown, labelText, value, Some(options), required).control.Select?
    ensures var entries := Render(Dropdown, labelText, value, Some(options), required).control.entries;
      && |entries| == |options| + 1
      && entries[0] == Entry("", Placeholder)
      && (forall i :: 0 <= i < |options| ==> entries[i + 1] == Entry(options[i], options[i]))
    ensures var c := Render(Dropdown, labelText, value, Some(options), required).control;
      && Payload(c, Pick(0)) == Some("")
      && (forall i :: 0 <= i < |options| ==> Payload(c, Pick(i + 1)) == Some(options[i]))
  {
  }

  /** Checkbox options appear in order, each checked exactly when the value
      includes it, and each reports itself when picked. */
  lemma RenderCheckbox(labelText: string, items: seq<string>, options: seq<string>, required: bool)
    ensures var c := Render(Checkbox, labelText, Arr(items), Some(options), required).control;
      && c.CheckGroup?
      && |c.choices| == |options|
      && (forall i :: 0 <= i < |options| ==> c.choices[i].option == options[i])
      && (forall i :: 0 <= i < |options| ==> (c.choices[i].checked <==> options[i] in items))
      && (forall i :: 0 <= i < |options| ==> Payload(c, Pick(i)) == Some(options[i]))
  {
  }

  /** Radio options appear in order, each checked exactly when it equals the
      value; options that are the same string are checked together, and a
      value that is still an array checks none of them. */
  lemma RenderRadio(labelText: string, value: Value, options: seq<string>, required: bool)
    ensures var c := Render(Radio, labelText, value, Some(options), required).control;
      && c.RadioGroup?
      && |c.choices| == |options|
      && (forall i :: 0 <= i < |options| ==> c.choices[i].option == options[i])
      && (forall i :: 0 <= i < |options| ==> (c.choices[i].checked <==> value == Str(options[i])))
      && (forall i, j :: 0 <= i < |options| && 0 <= j < |options| && options[i] == options[j] ==> c.choices[i].checked == c.choices[j].checked)
      && (value.Arr? ==> forall i :: 0 <= i < |options| ==> !c.choices[i].checked)
      && (forall i :: 0 <= i < |options| ==> Payload(c, Pick(i)) == Some(options[i]))
  {
  }

  /** A text box or text area reports what was typed into it, and ignores a pick. */
  lemma RenderTextReportsTyped(kind: FieldType, labelText: string, value: Value, options: Option<seq<string>>, required: bool, t: string, i: nat)
    requires kind == Text || kind == TextArea
    ensures Payload(Render(kind, labelText, value, options, required).control, Type(t)) == Some(t)
    ensures Payload(Render(kind, labelText, value, options, required).control, Pick(i)) == None
  {
  }

  /** With distinct options, at most one radio button is checked. */
  lemma RadioAtMostOneChecked(labelText: string, value: Value, options: seq<string>, required: bool)
    requires Distinct(options)
    ensures var c := Render(Radio, labelText, value, Some(options), required).control;
      forall i, j :: 0 <= i < |c.choices| && 0 <= j < |c.choices| && c.choices[i].checked && c.choices[j].checked ==> i == j
  {
  }
}
