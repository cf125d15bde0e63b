/**
Forms own stretches of the control list, and selects stretches of the option
list. Which radio button and which option end up chosen is settled as the
controls arrive.
*/
module FormList {
  import opened Wrappers
  import opened DocumentTypes

  // --- forms and their controls --------------------------------------------------

  predicate InForm(form: Form, i: nat) {
    form.firstControl <= i < form.firstControl + form.controlCount
  }

  /** Each form's range holds exactly the controls that name it. */
  ghost predicate FormsExact(controls: seq<FormControl>, forms: seq<Form>) {
    && (forall i :: 0 <= i < |controls| && controls[i].form.Some? ==> controls[i].form.value < |forms|)
    && (forall i, f :: 0 <= i < |controls| && 0 <= f < |forms| ==>
         (controls[i].form == Some(f) <==> InForm(forms[f], i)))
  }

  /** The open form is the last one, and reaches to the end of the controls. */
  ghost predicate FormOpen(controls: seq<FormControl>, forms: seq<Form>, form: Option<nat>) {
    && (forall f :: 0 <= f < |forms| ==> forms[f].firstControl + forms[f].controlCount <= |controls|)
    && (form.Some? ==>
          form.value + 1 == |forms| && forms[form.value].firstControl + forms[form.value].controlCount == |controls|)
  }

  /** The forms once a control joins the open one. */
  function Joined(forms: seq<Form>, form: Option<nat>): seq<Form> {
    if form.None? || form.value >= |forms| then forms
    else forms[form.value := forms[form.value].(controlCount := forms[form.value].controlCount + 1)]
  }

  lemma ControlJoins(controls: seq<FormControl>, forms: seq<Form>, form: Option<nat>, control: FormControl)
    requires FormsExact(controls, forms) && FormOpen(controls, forms, form) && control.form == form
    ensures FormsExact(controls + [control], Joined(forms, form))
            && FormOpen(controls + [control], Joined(forms, form), form)
  {
    var more, joined := controls + [control], Joined(forms, form);
    forall i, f | 0 <= i < |more| && 0 <= f < |joined|
      ensures more[i].form == Some(f) <==> InForm(joined[f], i)
    {
      if i < |controls| {
        assert controls[i].form == Some(f) <==> InForm(forms[f], i);
      }
    }
  }

  lemma FormOpens(controls: seq<FormControl>, forms: seq<Form>, action: Url)
    requires FormsExact(controls, forms) && FormOpen(controls, forms, None)
    ensures var more := forms + [Form(action, |controls|, 0)];
            FormsExact(controls, more) && FormOpen(controls, more, Some(|forms|))
  {
    var more := forms + [Form(action, |controls|, 0)];
    forall i, f | 0 <= i < |controls| && 0 <= f < |more|
      ensures controls[i].form == Some(f) <==> InForm(more[f], i)
    {
      if f < |forms| {
        assert controls[i].form == Some(f) <==> InForm(forms[f], i);
      }
    }
  }

  // --- radio buttons ----------------------------------------------------------------

  /** Two radio buttons of which only one can be checked. */
  predicate Rivals(a: FormControl, b: FormControl) {
    a.kind == Radio && b.kind == Radio && a.form == b.form && a.name == b.name && a.name != []
  }

  /** A control is checked exactly when its tag asked for that and no later rival's did. */
  ghost predicate ChecksSettled(controls: seq<FormControl>, asked: seq<bool>) {
    && |asked| == |controls|
    && forall i :: 0 <= i < |controls| ==>
         (controls[i].checked <==>
            && asked[i] && IsCheckable(controls[i].kind)
            && forall j :: i < j < |controls| && Rivals(controls[i], controls[j]) ==> !asked[j])
  }

  lemma {:induction false} AtMostOneChecked(controls: seq<FormControl>, asked: seq<bool>, i: nat, j: nat)
    requires ChecksSettled(controls, asked) && i < j < |controls| && Rivals(controls[i], controls[j])
    ensures !(controls[i].checked && controls[j].checked)
  {
    assert controls[j].checked ==> asked[j];
    assert controls[i].checked && Rivals(controls[i], controls[j]) ==> !asked[j];
  }

  /** A control once `newer` has arrived. */
  function Yielding(earlier: FormControl, newer: FormControl): FormControl {
    if newer.checked && Rivals(earlier, newer) then earlier.(checked := false) else earlier
  }

  function Yielded(controls: seq<FormControl>, newer: FormControl): (yielded: seq<FormControl>)
    ensures |yielded| == |controls|
  {
    if controls == [] then []
    else Yielded(controls[..|controls| - 1], newer) + [Yielding(controls[|controls| - 1], newer)]
  }

  lemma {:induction false} YieldedAt(controls: seq<FormControl>, newer: FormControl, i: nat)
    requires i < |controls|
    ensures Yielded(controls, newer)[i] == Yielding(controls[i], newer)
  {
    if i < |controls| - 1 {
      YieldedAt(controls[..|controls| - 1], newer, i);
    }
  }

  lemma NewControlSettles(controls: seq<FormControl>, asked: seq<bool>, newer: FormControl, wanted: bool)
    requires ChecksSettled(controls, asked) && newer.checked == (wanted && IsCheckable(newer.kind))
    ensures ChecksSettled(Yielded(controls, newer) + [newer], asked + [wanted])
  {
    var yielded := Yielded(controls, newer);
    var more, wants := yielded + [newer], asked + [wanted];
    forall i | 0 <= i < |controls|
      ensures yielded[i] == Yielding(controls[i], newer)
    {
      YieldedAt(controls, newer, i);
    }
    forall i | 0 <= i < |more|
      ensures more[i].checked <==>
                && wants[i] && IsCheckable(more[i].kind)
                && forall j :: i < j < |more| && Rivals(more[i], more[j]) ==> !wants[j]
    {
      if i < |controls| {
        var last := |controls|;
        assert more[last] == newer && wants[last] == wanted;
        assert forall j :: i < j < last ==>
          (Rivals(more[i], more[j]) <==> Rivals(controls[i], controls[j])) && wants[j] == asked[j];
        assert forall j :: i < j < last && Rivals(controls[i], controls[j]) ==> Rivals(more[i], more[j]);
      }
    }
  }

  lemma YieldedJoins(controls: seq<FormControl>, forms: seq<Form>, form: Option<nat>, newer: FormControl)
    requires FormsExact(controls, forms) && FormOpen(controls, forms, form) && newer.form == form
    ensures var more := Yielded(controls, newer) + [newer];
            FormsExact(more, Joined(forms, form)) && FormOpen(more, Joined(forms, form), form)
  {
    var yielded := Yielded(controls, newer);
    forall i | 0 <= i < |controls|
      ensures controls[i].form == yielded[i].form
    {
      YieldedAt(controls, newer, i);
    }
    AlikeForms(controls, yielded, forms, form);
    ControlJoins(yielded, forms, form, newer);
  }

  lemma AlikeForms(a: seq<FormControl>, b: seq<FormControl>, forms: seq<Form>, form: Option<nat>)
    requires FormsExact(a, forms) && FormOpen(a, forms, form)
    requires |a| == |b| && forall i :: 0 <= i < |a| ==> a[i].form == b[i].form
    ensures FormsExact(b, forms) && FormOpen(b, forms, form)
  {
    forall i, f | 0 <= i < |b| && 0 <= f < |forms|
      ensures b[i].form == Some(f) <==> InForm(forms[f], i)
    {
      assert a[i].form == Some(f) <==> InForm(forms[f], i);
    }
  }

  lemma AlikeChecks(a: seq<FormControl>, b: seq<FormControl>, asked: seq<bool>)
    requires ChecksSettled(a, asked) && |a| == |b|
    requires forall i :: 0 <= i < |a| ==>
               a[i].form == b[i].form && a[i].kind == b[i].kind && a[i].name == b[i].name
                   && a[i].checked == b[i].checked
    ensures ChecksSettled(b, asked)
  {
    forall i | 0 <= i < |b|
      ensures b[i].checked <==>
                asked[i] && IsCheckable(b[i].kind) && forall j :: i < j < |b| && Rivals(b[i], b[j]) ==> !asked[j]
    {
      assert forall j :: i < j < |b| ==> (Rivals(a[i], a[j]) <==> Rivals(b[i], b[j]));
    }
  }

  // --- selects and their options --------------------------------------------------------

  predicate InSelect(control: FormControl, i: nat) {
    control.firstOption <= i < control.firstOption + control.optionCount
  }

  /** Each control's range holds exactly the options that name it. */
  ghost predicate OptionsExact(controls: seq<FormControl>, options: seq<SelectOption>) {
    && (forall i :: 0 <= i < |options| ==> options[i].control < |controls|)
    && (forall c :: 0 <= c < |controls| ==> controls[c].firstOption + controls[c].optionCount <= |options|)
    && (forall i, c :: 0 <= i < |options| && 0 <= c < |controls| ==>
         (options[i].control == c <==> InSelect(controls[c], i)))
  }

  lemma ControlWithoutOptions(controls: seq<FormControl>, options: seq<SelectOption>, control: FormControl)
    requires OptionsExact(controls, options) && control.firstOption == |options| && control.optionCount == 0
    ensures OptionsExact(controls + [control], options)
  {
  }

  /** An option joins the last control, which reaches to the end of the options. */
  lemma OptionJoins(controls: seq<FormControl>, options: seq<SelectOption>, c: nat, option: SelectOption)
    requires OptionsExact(controls, options) && c < |controls| && option.control == c
    requires controls[c].firstOption + controls[c].optionCount == |options|
    ensures OptionsExact(controls[c := controls[c].(optionCount := controls[c].optionCount + 1)], options + [option])
  {
    var more, grown := options + [option], controls[c := controls[c].(optionCount := controls[c].optionCount + 1)];
    forall i, k | 0 <= i < |more| && 0 <= k < |grown|
      ensures more[i].control == k <==> InSelect(grown[k], i)
    {
      if i < |options| {
        assert options[i].control == k <==> InSelect(controls[k], i);
      }
    }
  }

  lemma AlikeOptions(a: seq<FormControl>, b: seq<FormControl>, options: seq<SelectOption>, others: seq<SelectOption>)
    requires OptionsExact(a, options) && |a| == |b| && |options| == |others|
    requires forall c :: 0 <= c < |a| ==> a[c].firstOption == b[c].firstOption && a[c].optionCount == b[c].optionCount
    requires forall i :: 0 <= i < |options| ==> options[i].control == others[i].control
    ensures OptionsExact(b, others)
  {
    forall i, c | 0 <= i < |others| && 0 <= c < |b|
      ensures others[i].control == c <==> InSelect(b[c], i)
    {
      assert options[i].control == c <==> InSelect(a[c], i);
    }
  }

  /** The last option marked as selected, or the first enabled one when none is. */
  function Chosen(options: seq<SelectOption>, marked: seq<bool>, start: nat, end: nat): Option<nat>
    requires start <= end <= |options| == |marked|
    decreases end
  {
    if start == end then None
    else if marked[end - 1] then Some(end - 1)
    else
      var before := Chosen(options, marked, start, end - 1);
      if before.None? && !options[end - 1].disabled then Some(end - 1) else before
  }

  lemma {:induction false} ChosenIsRight(options: seq<SelectOption>, marked: seq<bool>, start: nat, end: nat)
    requires start <= end <= |options| == |marked|
    ensures var chosen := Chosen(options, marked, start, end);
            && (chosen.None? <==> forall i :: start <= i < end ==> !marked[i] && options[i].disabled)
            && (chosen.Some? ==> start <= chosen.value < end)
            && ((exists i :: start <= i < end && marked[i]) ==>
                  chosen.Some? && marked[chosen.value] && forall i :: chosen.value < i < end ==> !marked[i])
            && ((forall i :: start <= i < end ==> !marked[i]) && chosen.Some? ==>
                  !options[chosen.value].disabled && forall i :: start <= i < chosen.value ==> options[i].disabled)
    decreases end
  {
    if start < end {
      ChosenIsRight(options, marked, start, end - 1);
    }
  }

  lemma {:induction false} ChosenStill(options: seq<SelectOption>, marked: seq<bool>, others: seq<SelectOption>,
                                       alsoMarked: seq<bool>, start: nat, end: nat)
    requires start <= end <= |options| == |marked| && end <= |others| == |alsoMarked|
    requires forall i :: start <= i < end ==> options[i].disabled == others[i].disabled && marked[i] == alsoMarked[i]
    ensures Chosen(options, marked, start, end) == Chosen(others, alsoMarked, start, end)
    decreases end
  {
    if start < end {
      ChosenStill(options, marked, others, alsoMarked, start, end - 1);
    }
  }

  /** A closed select shows the chosen option and no other; one that allows several shows what the page
      marked, and so does one that is still open. */
  ghost predicate Shows(control: FormControl, options: seq<SelectOption>, marked: seq<bool>, closed: bool, i: nat)
    requires i < |options| == |marked| && control.firstOption + control.optionCount <= |options|
  {
    options[i].selected <==>
      if closed && !control.multiple
      then Chosen(options, marked, control.firstOption, control.firstOption + control.optionCount) == Some(i)
      else marked[i]
  }

  function Owner(controls: seq<FormControl>, options: seq<SelectOption>, i: nat): FormControl
    requires i < |options| && options[i].control < |controls|
  {
    controls[options[i].control]
  }

  ghost predicate ChoicesSettled(controls: seq<FormControl>, options: seq<SelectOption>, marked: seq<bool>,
                                 open: Option<nat>)
    requires OptionsExact(controls, options)
  {
    && |marked| == |options|
    && forall i {:trigger Owner(controls, options, i)} :: 0 <= i < |options| ==>
         Shows(Owner(controls, options, i), options, marked, open != Some(options[i].control), i)
  }

  /** Of two options of a closed single select at most one is selected; and one is if any was marked or
      can be chosen. */
  lemma ClosedSelectShowsOne(controls: seq<FormControl>, options: seq<SelectOption>, marked: seq<bool>,
                             open: Option<nat>, c: nat)
    requires OptionsExact(controls, options) && ChoicesSettled(controls, options, marked, open)
    requires c < |controls| && open != Some(c) && !controls[c].multiple
    ensures forall i, j :: 0 <= i < j < |options| && options[i].control == c == options[j].control ==>
              !(options[i].selected && options[j].selected)
    ensures (exists i :: 0 <= i < |options| && options[i].control == c && options[i].selected) <==>
            (exists i :: 0 <= i < |options| && options[i].control == c && (marked[i] || !options[i].disabled))
  {
    var start, end := controls[c].firstOption, controls[c].firstOption + controls[c].optionCount;
    var chosen := Chosen(options, marked, start, end);
    ChosenIsRight(options, marked, start, end);
    forall i | 0 <= i < |options| && options[i].control == c
      ensures start <= i < end && (options[i].selected <==> chosen == Some(i))
    {
      assert Shows(Owner(controls, options, i), options, marked, open != Some(options[i].control), i);
      assert InSelect(controls[c], i);
    }
    if chosen.Some? {
      assert InSelect(controls[c], chosen.value);
      assert options[chosen.value].control == c && options[chosen.value].selected;
    }
  }

  /** And it is the last one marked, or with none marked the first that is enabled. */
  lemma ClosedSelectShowsThis(controls: seq<FormControl>, options: seq<SelectOption>, marked: seq<bool>,
                              open: Option<nat>, c: nat, i: nat)
    requires OptionsExact(controls, options) && ChoicesSettled(controls, options, marked, open)
    requires c < |controls| && open != Some(c) && !controls[c].multiple && i < |options| && options[i].control == c
    ensures options[i].selected <==>
              if exists j :: 0 <= j < |options| && options[j].control == c && marked[j]
              then marked[i] && forall j :: i < j < |options| && options[j].control == c ==> !marked[j]
              else !options[i].disabled && forall j :: 0 <= j < i && options[j].control == c ==> options[j].disabled
  {
    var start, end := controls[c].firstOption, controls[c].firstOption + controls[c].optionCount;
    ChosenIsRight(options, marked, start, end);
    assert Shows(Owner(controls, options, i), options, marked, open != Some(options[i].control), i);
    forall j | 0 <= j < |options|
      ensures options[j].control == c <==> start <= j < end
    {
      assert options[j].control == c <==> InSelect(controls[c], j);
    }
  }

  /** A select that allows several shows what was marked, and so does one that is still open. */
  lemma OtherSelectsShowMarks(controls: seq<FormControl>, options: seq<SelectOption>, marked: seq<bool>,
                              open: Option<nat>, i: nat)
    requires OptionsExact(controls, options) && ChoicesSettled(controls, options, marked, open) && i < |options|
    requires open == Some(options[i].control) || controls[options[i].control].multiple
    ensures options[i].selected <==> marked[i]
  {
    assert Shows(Owner(controls, options, i), options, marked, open != Some(options[i].control), i);
  }

  lemma OptionAddedShows(controls: seq<FormControl>, options: seq<SelectOption>, marked: seq<bool>, c: nat,
                         option: SelectOption)
    requires OptionsExact(controls, options) && ChoicesSettled(controls, options, marked, Some(c))
    requires c < |controls| && option.control == c && controls[c].firstOption + controls[c].optionCount == |options|
    ensures var grown := controls[c := controls[c].(optionCount := controls[c].optionCount + 1)];
            OptionsExact(grown, options + [option])
                && ChoicesSettled(grown, options + [option], marked + [option.selected], Some(c))
  {
    OptionJoins(controls, options, c, option);
    var grown := controls[c := controls[c].(optionCount := controls[c].optionCount + 1)];
    var more, wants := options + [option], marked + [option.selected];
    forall i | 0 <= i < |more|
      ensures Shows(Owner(grown, more, i), more, wants, Some(c) != Some(more[i].control), i)
    {
      if i < |options| && options[i].control != c {
        var control := controls[options[i].control];
        assert Shows(Owner(controls, options, i), options, marked, true, i);
        ChosenStill(options, marked, more, wants, control.firstOption, control.firstOption + control.optionCount);
      } else if i < |options| {
        assert Shows(Owner(controls, options, i), options, marked, false, i);
      }
    }
  }

  /** Closing a select: its own options show the chosen one, and nobody else's change. */
  lemma SelectClosesShowing(controls: seq<FormControl>, options: seq<SelectOption>, marked: seq<bool>, c: nat,
                            settled: seq<SelectOption>)
    requires OptionsExact(controls, options) && ChoicesSettled(controls, options, marked, Some(c))
    requires c < |controls| && |settled| == |options|
    requires forall i :: 0 <= i < |options| ==>
               settled[i].control == options[i].control && settled[i].disabled == options[i].disabled
    requires forall i :: 0 <= i < |options| && !InSelect(controls[c], i) ==> settled[i].selected == options[i].selected
    requires forall i :: 0 <= i < |options| && InSelect(controls[c], i) ==> Shows(controls[c], settled, marked, true, i)
    ensures OptionsExact(controls, settled) && ChoicesSettled(controls, settled, marked, None)
  {
    AlikeOptions(controls, controls, options, settled);
    forall i | 0 <= i < |settled|
      ensures Shows(Owner(controls, settled, i), settled, marked, true, i)
    {
      var k := options[i].control;
      assert k == c <==> InSelect(controls[c], i);
      if k != c {
        assert Shows(Owner(controls, options, i), options, marked, true, i);
        StillShows(controls[k], options, marked, settled, i);
      }
    }
  }

  lemma StillShows(control: FormControl, options: seq<SelectOption>, marked: seq<bool>, others: seq<SelectOption>,
                   i: nat)
    requires |marked| == |options| == |others| && i < |options|
             && control.firstOption + control.optionCount <= |options|
    requires forall k :: 0 <= k < |options| ==> others[k].disabled == options[k].disabled
    requires Shows(control, options, marked, true, i) && others[i].selected == options[i].selected
    ensures Shows(control, others, marked, true, i)
  {
    ChosenStill(options, marked, others, marked, control.firstOption, control.firstOption + control.optionCount);
  }

  lemma AlikeChoices(a: seq<FormControl>, b: seq<FormControl>, options: seq<SelectOption>, others: seq<SelectOption>,
                     marked: seq<bool>, open: Option<nat>)
    requires OptionsExact(a, options) && ChoicesSettled(a, options, marked, open) && |a| == |b| && |options| == |others|
    requires forall c :: 0 <= c < |a| ==>
               a[c].firstOption == b[c].firstOption && a[c].optionCount == b[c].optionCount
                   && a[c].multiple == b[c].multiple
    requires forall i :: 0 <= i < |options| ==>
               && options[i].control == others[i].control && options[i].disabled == others[i].disabled
               && options[i].selected == others[i].selected
    ensures OptionsExact(b, others) && ChoicesSettled(b, others, marked, open)
  {
    AlikeOptions(a, b, options, others);
    forall i | 0 <= i < |others|
      ensures Shows(Owner(b, others, i), others, marked, open != Some(others[i].control), i)
    {
      var control := a[options[i].control];
      assert Shows(Owner(a, options, i), options, marked, open != Some(options[i].control), i);
      ChosenStill(options, marked, others, marked, control.firstOption, control.firstOption + control.optionCount);
    }
  }

  lemma ControlAddedShows(controls: seq<FormControl>, options: seq<SelectOption>, marked: seq<bool>,
                          control: FormControl, open: Option<nat>)
    requires OptionsExact(controls, options) && ChoicesSettled(controls, options, marked, None)
    requires control.firstOption == |options| && control.optionCount == 0 && (open.Some? ==> open.value == |controls|)
    ensures OptionsExact(controls + [control], options) && ChoicesSettled(controls + [control], options, marked, open)
  {
    ControlWithoutOptions(controls, options, control);
    forall i | 0 <= i < |options|
      ensures Shows(Owner(controls + [control], options, i), options, marked, open != Some(options[i].control), i)
    {
      assert Shows(Owner(controls, options, i), options, marked, true, i);
    }
  }

  lemma YieldedShows(controls: seq<FormControl>, options: seq<SelectOption>, marked: seq<bool>, newer: FormControl,
                     open: Option<nat>)
    requires OptionsExact(controls, options) && ChoicesSettled(controls, options, marked, None)
    requires newer.firstOption == |options| && newer.optionCount == 0 && (open.Some? ==> open.value == |controls|)
    ensures var more := Yielded(controls, newer) + [newer];
            OptionsExact(more, options) && ChoicesSettled(more, options, marked, open)
  {
    var yielded := Yielded(controls, newer);
    forall c | 0 <= c < |controls|
      ensures yielded[c].firstOption == controls[c].firstOption && yielded[c].optionCount == controls[c].optionCount
      ensures yielded[c].multiple == controls[c].multiple
    {
      YieldedAt(controls, newer, c);
    }
    AlikeChoices(controls, yielded, options, options, marked, None);
    ControlAddedShows(yielded, options, marked, newer, open);
  }

  /** A control joins the page: forms, radio groups and selects stay in order. */
  lemma NewcomerSettles(controls: seq<FormControl>, asked: seq<bool>, forms: seq<Form>, form: Option<nat>,
                        options: seq<SelectOption>,
                        marked: seq<bool>, newer: FormControl, wanted: bool, more: seq<FormControl>,
                        moreAsked: seq<bool>)
    requires FormsExact(controls, forms) && FormOpen(controls, forms, form) && ChecksSettled(controls, asked)
    requires OptionsExact(controls, options) && ChoicesSettled(controls, options, marked, None)
    requires newer.form == form && newer.checked == (wanted && IsCheckable(newer.kind))
    requires newer.firstOption == |options| && newer.optionCount == 0
    requires Appended(Yielded(controls, newer), more, newer) && Appended(asked, moreAsked, wanted)
    ensures FormsExact(more, Joined(forms, form)) && FormOpen(more, Joined(forms, form), form)
            && ChecksSettled(more, moreAsked)
    ensures OptionsExact(more, options) && ChoicesSettled(more, options, marked, None)
  {
    assert more == Yielded(controls, newer) + [newer] && moreAsked == asked + [wanted];
    NewControlSettles(controls, asked, newer, wanted);
    YieldedJoins(controls, forms, form, newer);
    YieldedShows(controls, options, marked, newer, None);
  }

  /** Filling in a control's value or label disturbs nothing. */
  lemma Refilled(controls: seq<FormControl>, asked: seq<bool>, forms: seq<Form>, form: Option<nat>,
                 options: seq<SelectOption>,
                 marked: seq<bool>, open: Option<nat>, c: nat, value: Text, overflow: bool, shown: Text)
    requires FormsExact(controls, forms) && FormOpen(controls, forms, form) && ChecksSettled(controls, asked)
    requires OptionsExact(controls, options) && ChoicesSettled(controls, options, marked, open) && c < |controls|
    ensures var more := controls[c := controls[c].(initialValue := value, valueOverflow := overflow,
                                                   displayLabel := shown)];
            && FormsExact(more, forms) && FormOpen(more, forms, form) && ChecksSettled(more, asked)
            && OptionsExact(more, options) && ChoicesSettled(more, options, marked, open)
  {
    var more := controls[c := controls[c].(initialValue := value, valueOverflow := overflow, displayLabel := shown)];
    AlikeForms(controls, more, forms, form);
    AlikeChecks(controls, more, asked);
    AlikeChoices(controls, more, options, options, marked, open);
  }

  /** A new option joins the open select, and shows what the page marked. */
  lemma OptionJoinsAll(controls: seq<FormControl>, asked: seq<bool>, forms: seq<Form>, form: Option<nat>,
                       options: seq<SelectOption>,
                       marked: seq<bool>, c: nat, option: SelectOption, grown: seq<FormControl>,
                       more: seq<SelectOption>, moreMarked: seq<bool>)
    requires FormsExact(controls, forms) && FormOpen(controls, forms, form) && ChecksSettled(controls, asked)
    requires OptionsExact(controls, options) && ChoicesSettled(controls, options, marked, Some(c))
    requires c < |controls| && option.control == c && controls[c].firstOption + controls[c].optionCount == |options|
    requires grown == controls[c := controls[c].(optionCount := controls[c].optionCount + 1)]
    requires Appended(options, more, option) && Appended(marked, moreMarked, option.selected)
    ensures FormsExact(grown, forms) && FormOpen(grown, forms, form) && ChecksSettled(grown, asked)
    ensures OptionsExact(grown, more) && ChoicesSettled(grown, more, moreMarked, Some(c))
    ensures grown[c].firstOption + grown[c].optionCount == |more|
  {
    assert more == options + [option] && moreMarked == marked + [option.selected];
    AlikeForms(controls, grown, forms, form);
    AlikeChecks(controls, grown, asked);
    OptionAddedShows(controls, options, marked, c, option);
  }

  /** What the options show at the moment. */
  function Selected(options: seq<SelectOption>): (flags: seq<bool>)
    ensures |flags| == |options|
  {
    seq(|options|, i requires 0 <= i < |options| => options[i].selected)
  }

  /** The options once a single select is settled: the chosen one is selected, and no other of its own. */
  function Settled(options: seq<SelectOption>, start: nat, end: nat): (settled: seq<SelectOption>)
    requires start <= end <= |options|
  {
    var chosen := Chosen(options, Selected(options), start, end);
    seq(|options|, i requires 0 <= i < |options| =>
      if start <= i < end then options[i].(selected := chosen == Some(i)) else options[i])
  }

  /** Closing a select settles its options, unless it allows several. */
  function Closing(control: FormControl, options: seq<SelectOption>): seq<SelectOption> {
    var end := control.firstOption + control.optionCount;
    if control.multiple || end > |options| then options else Settled(options, control.firstOption, end)
  }

  lemma SelectSettles(controls: seq<FormControl>, options: seq<SelectOption>, marked: seq<bool>, c: nat,
                      settled: seq<SelectOption>)
    requires OptionsExact(controls, options) && ChoicesSettled(controls, options, marked, Some(c)) && c < |controls|
    requires settled == Closing(controls[c], options)
    ensures OptionsExact(controls, settled) && ChoicesSettled(controls, settled, marked, None)
  {
    var start, end := controls[c].firstOption, controls[c].firstOption + controls[c].optionCount;
    forall i | 0 <= i < |options| && InSelect(controls[c], i)
      ensures options[i].selected == marked[i]
    {
      assert options[i].control == c;
      assert Shows(Owner(controls, options, i), options, marked, false, i);
    }
    ChosenStill(options, Selected(options), settled, marked, start, end);
    SelectClosesShowing(controls, options, marked, c, settled);
  }

  /** A control without options may be opened as a select at any time. */
  lemma NobodysOptions(controls: seq<FormControl>, options: seq<SelectOption>, marked: seq<bool>, c: nat)
    requires OptionsExact(controls, options) && ChoicesSettled(controls, options, marked, None)
    requires c < |controls| && controls[c].optionCount == 0
    ensures ChoicesSettled(controls, options, marked, Some(c))
  {
    forall i | 0 <= i < |options|
      ensures Shows(Owner(controls, options, i), options, marked, Some(c) != Some(options[i].control), i)
    {
      assert options[i].control == c <==> InSelect(controls[c], i);
      assert Shows(Owner(controls, options, i), options, marked, true, i);
    }
  }
}
