/** The form builder's field list: building a field from the creation
    dialog, appending and removing fields, the per-type value updates behind
    each control's `onChange`, bulk validation with its three message
    templates, and the rendering of the whole list. */
module FormBuilder {
  import opened Js
  import opened InputField

  /** One field record `{type, label, value, required, options?}`. */
  datatype Field = Field(kind: FieldType, labelText: string, value: Value, required: bool, options: Option<seq<string>>)

  /** The shape every field the builder holds keeps: options exactly for the
      option types; a checkbox value is always an array; a text or textarea
      value is always a string; a dropdown or radio value is the initial `[]`
      until a choice replaces it with a string. */
  predicate WellShaped(f: Field)
  {
    && (f.options.Some? <==> HasOptions(f.kind))
    && (f.kind == Checkbox ==> f.value.Arr?)
    && (f.kind == Text || f.kind == TextArea ==> f.value.Str?)
    && (f.kind == Dropdown || f.kind == Radio ==> f.value.Arr? ==> f.value.items == [])
  }

  /** The field `handleModalSubmit` builds from the dialog's type, label,
      options text and required flag. */
  function NewField(kind: FieldType, labelText: string, optionsText: string, required: bool): (f: Field)
    ensures WellShaped(f)
    ensures f.kind == kind && f.labelText == labelText && f.required == required
    ensures HasOptions(kind) ==> f.value == Arr([])
    ensures !HasOptions(kind) ==> f.value == Str("") && f.options == None
    ensures f.options.Some? ==> Join(f.options.value) == optionsText
    ensures f.options.Some? ==> |f.options.value| == CommaCount(optionsText) + 1
    ensures f.options.Some? ==> forall i :: 0 <= i < |f.options.value| ==> Comma !in f.options.value[i]
    ensures f.options.Some? ==> (f.options.value == [""] <==> optionsText == "")
  {
    JoinSplit(optionsText);
    SplitLength(optionsText);
    SplitSingleEmpty(optionsText);
    var base := Field(kind, labelText, Str(""), required, None);
    if HasOptions(kind) then base.(options := Some(Split(optionsText)), value := Arr([])) else base
  }

  /** The options of a new field determine its options text: two option
      texts that give the same options are the same text. */
  lemma NewFieldOptionsInjective(kind: FieldType, labelText: string, t1: string, t2: string, required: bool)
    requires HasOptions(kind)
    requires NewField(kind, labelText, t1, required).options == NewField(kind, labelText, t2, required).options
    ensures t1 == t2
  {
  }

  /** Every non-empty list of comma-free options is what some options text
      produces. */
  lemma NewFieldOptionsReachable(kind: FieldType, labelText: string, options: seq<string>, required: bool)
    requires HasOptions(kind)
    requires |options| >= 1
    requires forall i :: 0 <= i < |options| ==> Comma !in options[i]
    ensures NewField(kind, labelText, Join(options), required).options == Some(options)
  {
    SplitJoin(options);
  }

  /** The checkbox update: remove `option` (every copy) when it is included,
      append it at the end otherwise. */
  function Toggle(items: seq<string>, option: string): (r: seq<string>)
    ensures option in r <==> option !in items
    ensures forall x :: x != option ==> (x in r <==> x in items)
    ensures option !in items ==> r == items + [option]
    ensures option in items ==> r == Without(items, option)
    ensures option in items ==> |r| < |items|
  {
    if option in items then
      var j :| 0 <= j < |items| && items[j] == option;
      assert Without(items, option) == Without(items[..j], option) + Without(items[j..], option) by {
        assert items == items[..j] + items[j..];
        WithoutAppend(items[..j], items[j..], option);
      }
      assert |Without(items[..j], option)| <= j;
      assert items[j..] == [option] + items[j + 1..];
      assert |Without(items[j..], option)| < |items| - j;
      Without(items, option)
    else
      items + [option]
  }

  /** Toggling keeps a value free of duplicates. */
  lemma ToggleKeepsDistinct(items: seq<string>, option: string)
    requires Distinct(items)
    ensures Distinct(Toggle(items, option))
  {
    if option in items {
      WithoutDistinct(items, option);
    } else {
      var r := items + [option];
      forall i, j | 0 <= i < j < |r| ensures r[i] != r[j] {
        if j == |items| {
          assert r[i] == items[i] && r[j] == option;
        }
      }
    }
  }

  /** Toggling an absent option twice restores the value exactly. */
  lemma ToggleTwiceAbsent(items: seq<string>, option: string)
    requires option !in items
    ensures Toggle(Toggle(items, option), option) == items
  {
    WithoutAppend(items, [option], option);
    WithoutAbsent(items, option);
  }

  /** Toggling a present option twice gives the other entries in order,
      then one copy of the option at the end. */
  lemma ToggleTwicePresent(items: seq<string>, option: string)
    requires option in items
    ensures Toggle(Toggle(items, option), option) == Without(items, option) + [option]
  {
  }

  /** So for a present option, toggling twice gives the value back exactly
      when the option occurs once, as the last entry. */
  lemma ToggleTwicePresentRestores(items: seq<string>, option: string)
    requires option in items
    ensures Toggle(Toggle(items, option), option) == items
        <==> items[|items| - 1] == option && option !in items[..|items| - 1]
  {
    ToggleTwicePresent(items, option);
    var n := |items|;
    var w := items[..n - 1];
    assert items == w + [items[n - 1]];
    if items[n - 1] == option && option !in w {
      WithoutAppend(w, [option], option);
      WithoutAbsent(w, option);
      assert Without([option], option) == [];
    }
    if Toggle(Toggle(items, option), option) == items {
      var r := Without(items, option) + [option];
      assert items[n - 1] == r[|r| - 1];
      assert w == r[..|r| - 1];
      assert r[..|r| - 1] == Without(items, option);
    }
  }

  /** For instance, `["Cheese", "Olives"]` toggled twice on "Cheese" is
      `["Olives", "Cheese"]`. */
  lemma ToggleTwicePresentReorders()
    ensures Toggle(Toggle(["Cheese", "Olives"], "Cheese"), "Cheese") == ["Olives", "Cheese"]
  {
  }

  /** What the `onChange` closure of a field does with the reported string:
      a checkbox field toggles it, a radio field and every other type take it
      as the new value. */
  function Changed(f: Field, payload: string): (g: Field)
    requires f.kind == Checkbox ==> f.value.Arr?
    ensures g.kind == f.kind && g.labelText == f.labelText && g.required == f.required && g.options == f.options
    ensures WellShaped(f) ==> WellShaped(g)
    ensures f.kind == Checkbox ==> g.value == Arr(Toggle(f.value.items, payload))
    ensures f.kind == Checkbox ==> g.value.Arr? && (payload in g.value.items <==> payload !in f.value.items)
    ensures f.kind != Checkbox ==> g.value == Str(payload)
  {
    if f.kind == Checkbox then f.(value := Arr(Toggle(f.value.items, payload)))
    else f.(value := Str(payload))
  }

  /** The message `validateForm` gives a field, if any, in the order the code
      tests them: a falsy value; an empty dropdown array; an empty checkbox or
      radio array. */
  function Message(f: Field): (m: Option<string>)
    ensures m.Some? ==> f.required
    ensures m.Some? <==> f.required && (f.value == Str("") || (f.value == Arr([]) && HasOptions(f.kind)))
    ensures m.Some? ==> m.value in {f.labelText + " is required.", "Please select an option for " + f.labelText + ".", "Select at least one option for " + f.labelText + "."}
  {
    if f.required && !Truthy(f.value) then Some(f.labelText + " is required.")
    else if f.kind == Dropdown && f.required && Length(f.value) == 0 then Some("Please select an option for " + f.labelText + ".")
    else if (f.kind == Checkbox || f.kind == Radio) && f.required && Length(f.value) == 0 then Some("Select at least one option for " + f.labelText + ".")
    else None
  }

  /** A field is satisfied when it is not required or its value, string or
      array, is not empty. */
  predicate Satisfied(f: Field)
  {
    !f.required || Length(f.value) > 0
  }

  /** A well-shaped field gets a message exactly when it is not satisfied,
      and the message is the one its value and type call for. */
  lemma MessageCases(f: Field)
    requires WellShaped(f)
    ensures Message(f).None? <==> Satisfied(f)
    ensures !f.required ==> Message(f) == None
    ensures f.required && f.value == Str("") ==> Message(f) == Some(f.labelText + " is required.")
    ensures f.required && f.kind == Dropdown && f.value == Arr([]) ==> Message(f) == Some("Please select an option for " + f.labelText + ".")
    ensures f.required && (f.kind == Checkbox || f.kind == Radio) && f.value == Arr([]) ==> Message(f) == Some("Select at least one option for " + f.labelText + ".")
  {
  }

  /** `errors.filter(error => error !== null)` over the mapped messages: the
      messages of the failing fields, in field order. */
  function Messages(fs: seq<Field>): (ms: seq<string>)
    ensures |ms| <= |fs|
    ensures forall m :: m in ms ==> exists i :: 0 <= i < |fs| && Message(fs[i]) == Some(m)
    ensures ms == [] <==> forall i :: 0 <= i < |fs| ==> Message(fs[i]).None?
  {
    if fs == [] then []
    else
      var rest := Messages(fs[1..]);
      assert forall i :: 1 <= i < |fs| ==> fs[1..][i - 1] == fs[i];
      assert forall m :: m in rest ==> exists i :: 1 <= i < |fs| && Message(fs[i]) == Some(m);
      match Message(fs[0])
      case Some(m) => [m] + rest
      case None => rest
  }

  /** The messages of two lists laid end to end are their messages end to end. */
  lemma {:induction false} MessagesAppend(a: seq<Field>, b: seq<Field>)
    ensures Messages(a + b) == Messages(a) + Messages(b)
  {
    if a == [] {
      assert a + b == b;
    } else {
      assert (a + b)[0] == a[0];
      assert (a + b)[1..] == a[1..] + b;
      MessagesAppend(a[1..], b);
    }
  }

  /** A single field contributes its own message, or nothing. */
  lemma MessagesSingle(f: Field)
    ensures Messages([f]) == (match Message(f) case Some(m) => [m] case None => [])
  {
  }

  /** Every failing field's message is in the list. */
  lemma {:induction false} MessagesComplete(fs: seq<Field>, i: nat)
    requires i < |fs| && Message(fs[i]).Some?
    ensures Message(fs[i]).value in Messages(fs)
  {
    if i > 0 {
      assert fs[1..][i - 1] == fs[i];
      MessagesComplete(fs[1..], i - 1);
    }
  }

  /** What `validateForm` computes: whether every field passed, and the
      stored error list. */
  datatype Validation = Validation(ok: bool, errors: seq<string>)

  function Validate(fs: seq<Field>): (v: Validation)
    ensures v.ok <==> v.errors == []
    ensures v.ok <==> forall i :: 0 <= i < |fs| ==> Message(fs[i]).None?
    ensures (forall i :: 0 <= i < |fs| ==> WellShaped(fs[i])) ==> (v.ok <==> forall i :: 0 <= i < |fs| ==> Satisfied(fs[i]))
  {
    forall i | 0 <= i < |fs| && WellShaped(fs[i]) {
      MessageCases(fs[i]);
    }
    var errors := Messages(fs);
    Validation(forall i :: 0 <= i < |fs| ==> Message(fs[i]) == None, errors)
  }

  /** `renderFormFields`: each field in order, drawn with the builder-wide
      `required` flag of the dialog rather than its own. */
  function RenderFields(fs: seq<Field>, dialogRequired: bool): (views: seq<View>)
    requires forall i :: 0 <= i < |fs| ==> WellShaped(fs[i])
    ensures |views| == |fs|
    ensures forall i :: 0 <= i < |fs| ==> views[i].heading == fs[i].labelText
    ensures forall i :: 0 <= i < |fs| ==> (views[i].error.Some? <==> dialogRequired && !Truthy(fs[i].value))
    ensures forall i :: 0 <= i < |fs| ==> WellShaped(fs[i]) && views[i] == Render(fs[i].kind, fs[i].labelText, fs[i].value, fs[i].options, dialogRequired)
  {
    seq(|fs|, i requires 0 <= i < |fs| && WellShaped(fs[i]) => Render(fs[i].kind, fs[i].labelText, fs[i].value, fs[i].options, dialogRequired))
  }

  /** The inline error and the bulk validation can disagree: a required text
      field left empty shows no inline error while the dialog flag is off,
      yet fails validation; a field that is not required shows the inline
      error while the flag is on, yet passes validation. */
  lemma InlineAndBulkDisagree()
    ensures var f := NewField(Text, "Name", "", true);
      RenderFields([f], false)[0].error == None && !Validate([f]).ok
    ensures var g := NewField(Text, "Name", "", false);
      RenderFields([g], true)[0].error == Some("Name is required.") && Validate([g]).ok
  {
    var f := NewField(Text, "Name", "", true);
    MessagesSingle(f);
    var g := NewField(Text, "Name", "", false);
    MessagesSingle(g);
    assert RenderFields([g], true)[0] == Render(Text, "Name", Str(""), None, true);
    assert "Name" + " is required." == "Name is required.";
  }

  /** The options text "Red,Green,Blue" gives the three colours. */
  lemma ColorOptions()
    ensures Split("Red,Green,Blue") == ["Red", "Green", "Blue"]
  {
    var parts := ["Red", "Green", "Blue"];
    assert Join(parts[2..]) == "Blue";
    assert Join(parts[1..]) == "Green,Blue";
    assert Join(parts) == "Red,Green,Blue";
    SplitJoin(parts);
  }

  /** A required dropdown that has not been touched holds `[]`, which is
      truthy, so it is reported as needing a choice rather than as required. */
  lemma DropdownUntouched(labelText: string, optionsText: string)
    ensures NewField(Dropdown, labelText, optionsText, true).value == Arr([])
    ensures Validate([NewField(Dropdown, labelText, optionsText, true)]).errors == ["Please select an option for " + labelText + "."]
  {
  }

  /** Choosing a non-empty option clears a dropdown's or radio's message. */
  lemma ChoiceClearsMessage(f: Field, choice: string)
    requires f.kind == Dropdown || f.kind == Radio
    requires choice != ""
    ensures Validate([Changed(f, choice)]).errors == []
  {
  }

  /** Once another entry was chosen, picking the dropdown's placeholder entry
      again stores `""`, which a required field reports as required. (While
      the value is `[]` the placeholder is already shown and picking it fires
      no change.) */
  lemma DropdownPlaceholder(f: Field)
    requires f.kind == Dropdown && f.required
    ensures Validate([Changed(f, "")]).errors == [f.labelText + " is required."]
  {
  }

  /** Toggling `a`, then `b`, then `a` again on a checkbox field that has
      not been touched leaves `[b]`: Cheese, Olives, Cheese ends at
      `["Olives"]`. */
  lemma CheckboxScenario(labelText: string, optionsText: string, required: bool, a: string, b: string)
    requires a != b
    ensures var f := NewField(Checkbox, labelText, optionsText, required);
      Changed(Changed(Changed(f, a), b), a).value == Arr([b])
  {
  }

  /** Picking radio option `i` and drawing the field again checks exactly
      the options equal to option `i`. */
  lemma PickRadioChecksIt(f: Field, i: nat, dialogRequired: bool)
    requires WellShaped(f) && f.kind == Radio && i < |f.options.value|
    ensures var c := Render(f.kind, f.labelText, f.value, f.options, dialogRequired).control;
      Payload(c, Pick(i)) == Some(f.options.value[i])
    ensures var opts := f.options.value;
      var c := Render(Radio, f.labelText, Changed(f, opts[i]).value, f.options, dialogRequired).control;
      forall j :: 0 <= j < |opts| ==> (c.choices[j].checked <==> opts[j] == opts[i])
  {
  }

  /** Picking checkbox option `i` and drawing the field again flips the
      checked state of every option equal to it and leaves the others. */
  lemma PickCheckboxFlipsIt(f: Field, i: nat, dialogRequired: bool)
    requires WellShaped(f) && f.kind == Checkbox && i < |f.options.value|
    ensures var c := Render(f.kind, f.labelText, f.value, f.options, dialogRequired).control;
      Payload(c, Pick(i)) == Some(f.options.value[i])
    ensures var opts := f.options.value;
      var before := Render(Checkbox, f.labelText, f.value, f.options, dialogRequired).control;
      var after := Render(Checkbox, f.labelText, Changed(f, opts[i]).value, f.options, dialogRequired).control;
      forall j :: 0 <= j < |opts| ==> (after.choices[j].checked <==> (if opts[j] == opts[i] then !before.choices[j].checked else before.choices[j].checked))
  {
  }

  /** The `FormBuilder` component's field state: the field list, the stored
      validation errors, and the dialog's `required` checkbox. */
  class Builder {
    var fields: seq<Field>
    var errors: seq<string>
    var required: bool

    ghost predicate Valid()
      reads this
    {
      forall i :: 0 <= i < |fields| ==> WellShaped(fields[i])
    }

    constructor ()
      ensures Valid()
      ensures fields == [] && errors == [] && !required
    {
      fields := [];
      errors := [];
      required := false;
    }

    /** The dialog's Required checkbox. */
    method SetRequired(b: bool)
      requires Valid()
      modifies this`required
      ensures Valid()
      ensures required == b
    {
      required := b;
    }

    /** `handleModalSubmit`: append the new field and clear the dialog's
        required flag. */
    method SubmitField(kind: FieldType, labelText: string, optionsText: string)
      requires Valid()
      modifies this`fields, this`required
      ensures Valid()
      ensures fields == old(fields) + [NewField(kind, labelText, optionsText, old(required))]
      ensures |fields| == |old(fields)| + 1
      ensures forall i :: 0 <= i < |old(fields)| ==> fields[i] == old(fields)[i]
      ensures !required
    {
      fields := fields + [NewField(kind, labelText, optionsText, required)];
      required := false;
    }

    /** `removeFormField`: `splice(index, 1)` on a copy of the list. */
    method RemoveField(index: int)
      requires Valid()
      modifies this`fields
      ensures Valid()
      ensures fields == RemoveAt(old(fields), index)
      ensures 0 <= index < |old(fields)| ==> |fields| == |old(fields)| - 1
      ensures index >= |old(fields)| ==> fields == old(fields)
    {
      var updated := RemoveAt(fields, index);
      forall i | 0 <= i < |updated| ensures WellShaped(updated[i]) {
        var k := SpliceStart(|fields|, index);
        assert updated[i] in fields by {
          if k < |fields| {
            assert updated == fields[..k] + fields[k + 1..];
            if i < k { assert updated[i] == fields[i]; } else { assert updated[i] == fields[i + 1]; }
          }
        }
      }
      fields := updated;
    }

    /** `handleCheckboxChange`: toggle `option` in the value of the checkbox
        field at `index`. Indexing past the list throws before the state is
        stored, so nothing changes then. */
    method CheckboxChange(index: int, option: string) returns (ok: bool)
      requires Valid()
      requires 0 <= index < |fields| ==> fields[index].kind == Checkbox
      modifies this`fields
      ensures Valid()
      ensures ok <==> 0 <= index < |old(fields)|
      ensures ok ==> fields == old(fields)[index := old(fields)[index].(value := Arr(Toggle(old(fields)[index].value.items, option)))]
      ensures !ok ==> fields == old(fields)
    {
      ok := 0 <= index < |fields|;
      if ok {
        var f := fields[index];
        fields := fields[index := f.(value := Arr(Toggle(f.value.items, option)))];
      }
    }

    /** `handleRadioChange` and `handleValueChange`: the value of the field
        at `index` becomes the reported string. Reached for every type but
        checkbox; indexing past the list throws and changes nothing. */
    method ValueChange(index: int, value: string) returns (ok: bool)
      requires Valid()
      requires 0 <= index < |fields| ==> fields[index].kind != Checkbox
      modifies this`fields
      ensures Valid()
      ensures ok <==> 0 <= index < |old(fields)|
      ensures ok ==> fields == old(fields)[index := old(fields)[index].(value := Str(value))]
      ensures !ok ==> fields == old(fields)
    {
      ok := 0 <= index < |fields|;
      if ok {
        fields := fields[index := fields[index].(value := Str(value))];
      }
    }

    /** The `onChange` closure given to the field at `index`: dispatch on
        that field's type. */
    method OnChange(index: int, payload: string) returns (ok: bool)
      requires Valid()
      modifies this`fields
      ensures Valid()
      ensures ok <==> 0 <= index < |old(fields)|
      ensures ok ==> fields == old(fields)[index := Changed(old(fields)[index], payload)]
      ensures !ok ==> fields == old(fields)
    {
      if 0 <= index < |fields| && fields[index].kind == Checkbox {
        ok := CheckboxChange(index, payload);
      } else {
        ok := ValueChange(index, payload);
      }
    }

    /** `validateForm`: store the messages of the failing fields and report
        whether there were none. The fields are left as they are. */
    method ValidateForm() returns (ok: bool)
      requires Valid()
      modifies this`errors
      ensures Valid()
      ensures fields == old(fields)
      ensures errors == Messages(fields)
      ensures ok <==> errors == []
      ensures ok <==> forall i :: 0 <= i < |fields| ==> Satisfied(fields[i])
    {
      var v := Validate(fields);
      errors := v.errors;
      ok := v.ok;
    }

    /** What the component draws for its fields. */
    function Views(): (views: seq<View>)
      reads this
      requires Valid()
      ensures |views| == |fields|
      ensures forall i :: 0 <= i < |fields| ==> views[i].heading == fields[i].labelText
      ensures forall i :: 0 <= i < |fields| ==> (views[i].error.Some? <==> required && !Truthy(fields[i].value))
      ensures forall i :: 0 <= i < |fields| ==> views[i] == Render(fields[i].kind, fields[i].labelText, fields[i].value, fields[i].options, required)
    {
      RenderFields(fields, required)
    }
  }
}
