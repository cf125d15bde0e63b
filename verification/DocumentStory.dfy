/**
What the steps of a document add up to, whatever the events: nothing that is
there is ever taken back, text bears the style and link in force when it came,
a few modes follow the tags alone, and cuts in the text do not matter.
*/
module DocumentStory {
  import opened Wrappers
  import opened Basics
  import opened DocumentTypes
  import opened TextFlow
  import opened RunList
  import opened InlineStack
  import opened TableGrid
  import opened TableList
  import opened FormList
  import opened DocumentSteps

  // --- growing ----------------------------------------------------------------------

  ghost predicate CopyGrew(b: Copy, a: Copy, style: Style, link: Option<nat>) {
    b.title <= a.title && b.text <= a.text && b.runs <= a.runs && b.runPre <= a.runPre
        && Grown(b.marks, a.marks, style, link)
  }

  /** A form keeps its place, and gains controls. */
  predicate FormGrew(b: Form, a: Form) {
    a == b.(controlCount := a.controlCount) && b.controlCount <= a.controlCount
  }

  /** What a control is stays; what it holds and shows may still be found out. */
  predicate ControlGrew(b: FormControl, a: FormControl) {
    a == b.(initialValue := a.initialValue, valueOverflow := a.valueOverflow, displayLabel := a.displayLabel,
            checked := a.checked, optionCount := a.optionCount)
    && b.optionCount <= a.optionCount && (a.checked ==> b.checked)
  }

  predicate OptionGrew(b: SelectOption, a: SelectOption) {
    a == b.(caption := a.caption, value := a.value, selected := a.selected)
  }

  ghost predicate FieldsGrown(b: Fields, a: Fields) {
    && |b.forms| <= |a.forms| && (forall i :: 0 <= i < |b.forms| ==> FormGrew(b.forms[i], a.forms[i]))
    && |b.controls| <= |a.controls| && (forall i :: 0 <= i < |b.controls| ==> ControlGrew(b.controls[i], a.controls[i]))
    && |b.options| <= |a.options| && (forall i :: 0 <= i < |b.options| ==> OptionGrew(b.options[i], a.options[i]))
    && b.asked <= a.asked && b.wished <= a.wished
  }

  ghost predicate FieldsGrewOver(b: Fields, a: Fields, times: nat) {
    if times == 0 then FieldsGrown(b, a) else FieldsGrewOver(b, a, times - 1)
  }

  /** The same, told so that it is opened only where it is needed. */
  ghost predicate FieldsGrew(b: Fields, a: Fields) {
    a == b.(form := a.form, select := a.select, textarea := a.textarea, button := a.button)
        || FieldsGrewOver(b, a, |b.forms| + 2)
  }

  lemma {:induction false} FieldsGrewOverMeans(b: Fields, a: Fields, times: nat)
    ensures FieldsGrewOver(b, a, times) <==> FieldsGrown(b, a)
  {
    if times != 0 {
      FieldsGrewOverMeans(b, a, times - 1);
    }
  }

  lemma FieldsGrewMeans(b: Fields, a: Fields)
    ensures FieldsGrew(b, a) <==> FieldsGrown(b, a)
  {
    FieldsGrewOverMeans(b, a, |b.forms| + 2);
    assert FieldsGrew(b, a) ==> FieldsGrown(b, a);
  }

  /** Only the open table's record is written again, when it is finished. */
  ghost predicate GridsGrew(b: Grids, a: Grids) {
    && b.tableRows <= a.tableRows && b.tableCells <= a.tableCells && |b.tables| <= |a.tables|
    && (forall i :: 0 <= i < |b.tables| ==> b.tables[i] == a.tables[i] || (b.table.Some? && b.table.value.index == i))
    && (a.table.Some? ==>
          (b.table.Some? && a.table.value.index == b.table.value.index) || a.table.value.index >= |b.tables|)
  }

  ghost predicate RestGrew(b: Rest, a: Rest) {
    b.images <= a.images && b.labels <= a.labels && a.resolve == b.resolve && a.ownedBytes == b.ownedBytes
  }

  /** Whatever was in the document still is, and what is new in the text bears the style and link that were in
      force. */
  ghost predicate Grew(b: Draft, a: Draft) {
    && CopyGrew(b.copy, a.copy, b.dress.style, b.dress.link) && b.setting.blocks <= a.setting.blocks
    && b.dress.links <= a.dress.links && FieldsGrew(b.fields, a.fields)
    && (a.grids == b.grids || GridsGrew(b.grids, a.grids)) && RestGrew(b.rest, a.rest)
  }

  // --- what tags alone decide -----------------------------------------------------------

  /** Whether a title, a select or a textarea is open, whether a button is and how many controls are open in it,
      and whether text is kept as it is written. */
  datatype Mode = Mode(inTitle: bool, inSelect: bool, inTextarea: bool, button: Option<nat>, preformatted: bool)

  ghost function ModeOf(d: Draft): Mode {
    Mode(d.setting.inTitle, d.fields.select.Some?, d.fields.textarea.Some?,
         if d.fields.button.None? then None else Some(d.fields.button.value.suppressedControls), d.setting.preformatted)
  }

  /** A run is open only in an open block and in no title, no space is due where no block is open, and every
      byte of text is marked. */
  ghost predicate Proper(d: Draft) {
    && (d.copy.runOpen ==> d.setting.openKind.Some? && !d.setting.inTitle) && |d.copy.marks| == |d.copy.text|
    && (d.setting.openKind.None? && !d.setting.inTitle ==> d.setting.atBlockStart)
  }

  /** No text was lost, no run misfiled, and neither the mode nor the lists changed. */
  ghost predicate Quiet(b: Draft, a: Draft) {
    && a.copy.lost == b.copy.lost && a.setting.misfiled == b.setting.misfiled && ModeOf(a) == ModeOf(b)
    && (b.grids.table.None? ==> a.grids.table.None?) && a.rest.lists == b.rest.lists && (Proper(b) ==> Proper(a))
  }

  /** The document grew, and what follows is written in the same style. */
  ghost predicate Onward(b: Draft, a: Draft) {
    Grew(b, a) && Quiet(b, a) && a.dress.style == b.dress.style && a.dress.link == b.dress.link
  }

  lemma OnwardTrans(b: Draft, m: Draft, a: Draft)
    requires Onward(b, m) && Grew(m, a)
    ensures Grew(b, a)
    ensures Quiet(m, a) ==> Quiet(b, a)
    ensures Onward(m, a) ==> Onward(b, a)
  {
    FieldsGrowOn(b.fields, m.fields, a.fields);
    GridsGrowOn(b.grids, m.grids, a.grids);
  }

  lemma FieldsGrowOn(b: Fields, m: Fields, a: Fields)
    requires FieldsGrew(b, m) && FieldsGrew(m, a)
    ensures FieldsGrew(b, a)
  {
    FieldsGrewMeans(b, m);
    FieldsGrewMeans(m, a);
    FieldsGrewMeans(b, a);
    forall i | 0 <= i < |b.forms|
      ensures FormGrew(b.forms[i], a.forms[i])
    {
      assert FormGrew(b.forms[i], m.forms[i]) && FormGrew(m.forms[i], a.forms[i]);
    }
    forall i | 0 <= i < |b.controls|
      ensures ControlGrew(b.controls[i], a.controls[i])
    {
      assert ControlGrew(b.controls[i], m.controls[i]) && ControlGrew(m.controls[i], a.controls[i]);
    }
    forall i | 0 <= i < |b.options|
      ensures OptionGrew(b.options[i], a.options[i])
    {
      assert OptionGrew(b.options[i], m.options[i]) && OptionGrew(m.options[i], a.options[i]);
    }
  }

  lemma GridsGrowOn(b: Grids, m: Grids, a: Grids)
    requires GridsGrew(b, m) && GridsGrew(m, a)
    ensures GridsGrew(b, a)
  {
  }

  lemma StillOnward(d: Draft)
    ensures Onward(d, d)
  {
  }

  // --- text, runs and blocks ----------------------------------------------------------------

  lemma FlowedOnward(d: Draft, f: Flow)
    requires d.setting.openKind.Some? || (d.setting.atBlockStart ==> f.atStart)
    ensures Onward(d, Flowed(d, f))
  {
  }

  lemma TitleWroteOnward(d: Draft, f: Flow)
    requires d.setting.inTitle && d.copy.title <= f.out
    ensures Onward(d, Flowed(d, f).(copy := d.copy.(title := f.out)))
  {
  }

  lemma HomeOnward(d: Draft)
    requires !d.setting.inTitle
    ensures Onward(d, WithRunOpen(Housed(d)))
    ensures WithRunOpen(Housed(d)).setting.openKind.Some? && !WithRunOpen(Housed(d)).setting.inTitle
  {
  }

  lemma WroteOnward(d: Draft, f: Flow)
    requires Wrote(d, f).Success? && Flowing(d).out <= f.out
    requires f.out == Flowing(d).out && d.setting.atBlockStart ==> f.atStart
    ensures Onward(d, Wrote(d, f).value)
  {
    if d.setting.inTitle {
      TitleWroteOnward(d, f);
    } else if |f.out| <= |d.copy.text| {
      assert f.out == d.copy.text;
      FlowedOnward(d, f);
    } else {
      HomeOnward(d);
      FlowedOnward(WithRunOpen(Housed(d)), f);
    }
  }

  lemma FlushedOnward(d: Draft)
    requires Flushed(d).Success?
    ensures Onward(d, Flushed(d).value)
  {
    WroteOnward(d, Flush(Flowing(d)));
  }

  lemma BrokenOnward(d: Draft)
    requires Broken(d).Success?
    ensures Onward(d, Broken(d).value)
  {
    if !d.setting.inTitle {
      WroteOnward(d, Flow(d.copy.text + [NEWLINE], false, true));
    }
  }

  lemma LetteredOnward(d: Draft, c: char)
    requires Lettered(d, c).Success?
    ensures Onward(d, Lettered(d, c).value)
  {
    WroteOnward(d, Flow(Flowing(d).out + Utf8(c), d.setting.pendingSpace, false));
  }

  lemma TextedOnward(d: Draft, characters: string)
    requires Texted(d, characters).Success?
    ensures Onward(d, Texted(d, characters).value) && Texted(d, characters).value.rest == d.rest
  {
    if d.fields.select.None? && d.fields.textarea.None? && d.fields.button.None? {
      PourKeepsStart(Flowing(d), d.setting.preformatted, characters);
      WroteOnward(d, Pour(Flowing(d), d.setting.preformatted, characters));
    }
  }

  lemma RunEndedOnward(d: Draft)
    requires RunEnded(d).Success?
    ensures Onward(d, RunEnded(d).value)
  {
  }

  lemma CommittedOnward(d: Draft, block: Block)
    requires Committed(d, block).Success? && !d.copy.runOpen
    ensures Onward(d, Committed(d, block).value)
  {
  }

  lemma BlockEndedOnward(d: Draft)
    requires BlockEnded(d).Success?
    ensures Onward(d, BlockEnded(d).value)
  {
    RunEndedOnward(d);
    var e := RunEnded(d).value;
    if e.setting.openKind.Some? {
      CommittedOnward(e, OpenBlockOf(e, e.setting.openKind.value));
      OnwardTrans(d, e, Committed(e, OpenBlockOf(e, e.setting.openKind.value)).value);
    }
  }

  lemma BlockBegunOnward(d: Draft, kind: BlockKind)
    requires BlockBegun(d, kind).Success?
    ensures Onward(d, BlockBegun(d, kind).value)
  {
    BlockEndedOnward(d);
    OnwardTrans(d, BlockEnded(d).value, BlockBegun(d, kind).value);
  }

  lemma RunCutOnward(d: Draft)
    requires RunCut(d).Success?
    ensures Onward(d, RunCut(d).value)
  {
    FlushedOnward(d);
    RunEndedOnward(Flushed(d).value);
    OnwardTrans(d, Flushed(d).value, RunCut(d).value);
  }

  /** What was written before a change of style keeps the old one. */
  lemma StyledGrows(d: Draft, style: Style, link: Option<nat>)
    requires Styled(d, style, link).Success?
    ensures Grew(d, Styled(d, style, link).value) && Quiet(d, Styled(d, style, link).value)
  {
    if d.dress.style != style || d.dress.link != link {
      RunCutOnward(d);
      OnwardTrans(d, RunCut(d).value, Styled(d, style, link).value);
    }
  }

  // --- inline elements ------------------------------------------------------------------------

  lemma InlineOpenedGrows(d: Draft, name: Name, bit: Style, setsLink: bool)
    requires InlineOpened(d, name, bit, setsLink).Success?
    ensures var a := InlineOpened(d, name, bit, setsLink).value;
            Grew(d, a) && Quiet(d, a) && a.dress.link == d.dress.link
    ensures bit == PLAIN ==> Onward(d, InlineOpened(d, name, bit, setsLink).value)
  {
    if |d.dress.inline| < MAX_NESTING_DEPTH {
      var added := bit.Without(d.dress.style);
      var frame := InlineFrame(name, added, d.dress.link, setsLink);
      var e := d.(dress := d.dress.(inline := d.dress.inline + [frame],
                                    saved := d.dress.saved + [Before(d.dress.style, d.dress.link)]));
      StillOnward(d);
      if added != PLAIN {
        StyledGrows(e, d.dress.style.With(added), d.dress.link);
        OnwardTrans(d, e, InlineOpened(d, name, bit, setsLink).value);
      }
    } else {
      StillOnward(d);
    }
  }

  lemma InlineClosedGrows(d: Draft, name: Name)
    requires InlineClosed(d, name).Success?
    ensures Grew(d, InlineClosed(d, name).value) && Quiet(d, InlineClosed(d, name).value)
  {
    var frames, saved := d.dress.inline, d.dress.saved;
    var index := Innermost(frames, name);
    StillOnward(d);
    if index < |frames| && index < |saved| {
      var e := Unwound(d, index);
      StyledGrows(e, AddedBits(frames[..index]), LinkBelow(frames, d.dress.link, index));
      OnwardTrans(d, e, InlineClosed(d, name).value);
    }
  }

  lemma LinkStartedGrows(d: Draft, href: Option<Text>)
    requires LinkStarted(d, href).Success?
    ensures Grew(d, LinkStarted(d, href).value) && Quiet(d, LinkStarted(d, href).value)
  {
    var target := Target(d.rest.resolve, d.rest.ownedBytes, |d.dress.links|, d.dress.linkUrlBytes, href);
    if target.None? {
      InlineOpenedGrows(d, AnchorTag, PLAIN, false);
    } else {
      var e := LinkAdded(d, target.value);
      StillOnward(d);
      LinkOpenedGrows(e, |d.dress.links|);
      OnwardTrans(d, e, LinkStarted(d, href).value);
    }
  }

  lemma LinkOpenedGrows(d: Draft, index: nat)
    requires LinkOpened(d, index).Success?
    ensures Grew(d, LinkOpened(d, index).value) && Quiet(d, LinkOpened(d, index).value)
  {
    InlineOpenedGrows(d, AnchorTag, PLAIN, true);
    var e := InlineOpened(d, AnchorTag, PLAIN, true).value;
    StillOnward(e);
    StyledGrows(Spoiling(e), e.dress.style, Some(index));
    OnwardTrans(e, Spoiling(e), Followed(e, index).value);
    OnwardTrans(d, e, LinkOpened(d, index).value);
  }

  // --- controls -------------------------------------------------------------------------------

  lemma OptionEndedGrows(f: Fields)
    ensures FieldsGrew(f, OptionEnded(f)) && OptionEnded(f).select.Some? == f.select.Some?
            && OptionEnded(f).button == f.button
  {
    FieldsGrewMeans(f, OptionEnded(f));
  }

  lemma OptionGroupEndedGrows(f: Fields, disabled: bool)
    ensures FieldsGrew(f, OptionGroupEnded(f, disabled))
    ensures OptionGroupEnded(f, disabled).select.Some? == f.select.Some?
            && OptionGroupEnded(f, disabled).button == f.button
  {
    OptionEndedGrows(f);
    FieldsGrewMeans(f, OptionEnded(f));
    FieldsGrewMeans(f, OptionGroupEnded(f, disabled));
  }

  lemma SelectEndedGrows(f: Fields)
    ensures FieldsGrew(f, SelectEnded(f)) && SelectEnded(f).select.None? && SelectEnded(f).button == f.button
  {
    OptionEndedGrows(f);
    FieldsGrewMeans(OptionEnded(f), SelectEnded(f));
    FieldsGrowOn(f, OptionEnded(f), SelectEnded(f));
  }

  lemma ButtonEndedGrows(f: Fields)
    ensures FieldsGrew(f, ButtonEnded(f)) && ButtonEnded(f).button.None? && ButtonEnded(f).select == f.select
  {
    FieldsGrewMeans(f, ButtonEnded(f));
  }

  lemma TextareaEndedGrows(f: Fields)
    ensures FieldsGrew(f, TextareaEnded(f)) && TextareaEnded(f).button == f.button
            && TextareaEnded(f).select == f.select
  {
    FieldsGrewMeans(f, TextareaEnded(f));
  }

  lemma JoiningGrows(f: Fields, newer: FormControl, wanted: bool)
    ensures FieldsGrew(f, Joining(f, newer, wanted))
  {
    FieldsGrewMeans(f, Joining(f, newer, wanted));
    forall i | 0 <= i < |f.controls|
      ensures ControlGrew(f.controls[i], Joining(f, newer, wanted).controls[i])
    {
      YieldedAt(f.controls, newer, i);
    }
  }

  lemma PartedOnward(d: Draft)
    requires Parted(d).Success?
    ensures Onward(d, Parted(d).value)
  {
    FlushedOnward(d);
    var e := Flushed(d).value;
    StillOnward(e);
    RunEndedOnward(Housed(e));
    OnwardTrans(e, Housed(e), Parted(d).value);
    OnwardTrans(d, e, Parted(d).value);
  }

  lemma PlacedOnward(d: Draft, kind: ControlKind)
    requires Placed(d, kind).Success?
    ensures Onward(d, Placed(d, kind).value)
  {
    if kind != Textarea {
      PartedOnward(d);
    } else if d.grids.table.None? {
      BlockBegunOnward(d, Control(|d.fields.controls|));
    } else {
      StillOnward(d);
    }
  }

  lemma SeatedOnward(d: Draft, newer: FormControl, wanted: bool)
    requires Seated(d, newer, wanted).Success?
    ensures Onward(d, Seated(d, newer, wanted).value)
  {
    var e := d.(fields := Joining(d.fields, newer, wanted));
    JoiningGrows(d.fields, newer, wanted);
    if newer.kind == Textarea && d.grids.table.None? {
      BlockEndedOnward(e);
      OnwardTrans(d, e, BlockEnded(e).value);
    }
  }

  lemma ControlAddedOnward(d: Draft, newer: FormControl, wanted: bool)
    requires ControlAdded(d, newer, wanted).Success?
    ensures Onward(d, ControlAdded(d, newer, wanted).value)
  {
    PlacedOnward(d, newer.kind);
    var e := Placed(d, newer.kind).value;
    SeatedOnward(e, newer.(textOffset := |e.copy.text|), wanted);
    OnwardTrans(d, e, ControlAdded(d, newer, wanted).value);
  }

  /** The document grew, no text was lost, so many runs were misfiled, and these are the mode and the lists now. */
  ghost predicate Tame(b: Draft, a: Draft, mode: Mode, misfiling: nat := 0, lists: seq<ListLevel> := b.rest.lists) {
    && Grew(b, a) && a.copy.lost == b.copy.lost && a.setting.misfiled == b.setting.misfiled + misfiling
    && ModeOf(a) == mode && a.rest.lists == lists
    && (b.grids.table.None? ==> a.grids.table.None?) && (Proper(b) ==> Proper(a))
  }

  lemma FormEndedGrows(d: Draft)
    requires FormEnded(d).Success?
    ensures Tame(d, FormEnded(d).value, ModeOf(d).(button := None))
  {
    var e := d.(fields := ButtonEnded(d.fields).(form := None));
    ButtonEndedGrows(d.fields);
    FieldsGrowOn(d.fields, ButtonEnded(d.fields), e.fields);
    BlockEndedOnward(e);
    BlockEndKeepsFields(e);
  }

  // --- labels and images ------------------------------------------------------------------------

  lemma LabelEndedOnward(d: Draft)
    requires LabelEnded(d).Success?
    ensures Onward(d, LabelEnded(d).value)
  {
    StillOnward(d);
    if d.rest.labelOpen.Some? {
      var e := LabelNoted(d, None);
      RunCutOnward(e);
      OnwardTrans(d, e, RunCut(e).value);
      OnwardTrans(d, RunCut(e).value, LabelEnded(d).value);
    }
  }

  lemma LabelBegunOnward(d: Draft, target: Option<Text>)
    requires LabelBegun(d, target).Success?
    ensures Onward(d, LabelBegun(d, target).value)
  {
    LabelEndedOnward(d);
    var e := LabelEnded(d).value;
    if target.Some? && target.value != [] {
      RunCutOnward(e);
      OnwardTrans(d, e, RunCut(e).value);
      OnwardTrans(d, RunCut(e).value, LabelBegun(d, target).value);
    }
  }

  lemma SeparatedOnward(d: Draft)
    requires Separated(d).Success?
    ensures Onward(d, Separated(d).value)
  {
    if d.grids.table.None? {
      BlockBegunOnward(d, Paragraph);
    } else {
      RunEndedOnward(d);
    }
    var e := Detached(d).value;
    StillOnward(e);
    FlushedOnward(Spaced(e, true));
    OnwardTrans(d, e, Spaced(e, true));
    OnwardTrans(d, Spaced(e, true), Separated(d).value);
  }

  lemma WordBegunOnward(d: Draft, shown: string)
    requires WordBegun(d, shown).Success?
    ensures Onward(d, WordBegun(d, shown).value) && WordBegun(d, shown).value.rest == d.rest
  {
    LetteredOnward(d, '[');
    TextedOnward(Lettered(d, '[').value, shown);
    OnwardTrans(d, Lettered(d, '[').value, WordBegun(d, shown).value);
  }

  lemma WordEndedOnward(d: Draft)
    requires WordEnded(d).Success?
    ensures Onward(d, WordEnded(d).value) && WordEnded(d).value.rest == d.rest
  {
    LetteredOnward(d, ']');
    RunEndedOnward(Lettered(d, ']').value);
    OnwardTrans(d, Lettered(d, ']').value, WordEnded(d).value);
  }

  lemma ImageWrittenOnward(d: Draft, shown: string)
    requires ImageWritten(d, shown).Success?
    ensures Onward(d, ImageWritten(d, shown).value) && ImageWritten(d, shown).value.rest == d.rest
  {
    WordBegunOnward(d, shown);
    WordEndedOnward(WordBegun(d, shown).value);
    OnwardTrans(d, WordBegun(d, shown).value, ImageWritten(d, shown).value);
  }

  lemma ImageLeftOnward(d: Draft)
    requires ImageLeft(d).Success?
    ensures Onward(d, ImageLeft(d).value)
  {
    StillOnward(d);
    if d.grids.table.None? {
      BlockEndedOnward(d);
      OnwardTrans(d, BlockEnded(d).value, ImageLeft(d).value);
    }
  }

  lemma ImageDrawnOnward(d: Draft, shown: string)
    requires ImageDrawn(d, shown).Success?
    ensures Onward(d, ImageDrawn(d, shown).value)
  {
    var index := |d.rest.images|;
    var listed := if index < MAX_IMAGES then ImageListed(d) else d;
    StillOnward(d);
    ImageWrittenOnward(listed, shown);
    OnwardTrans(d, listed, ImageWritten(listed, shown).value);
  }

  lemma ImageAddedOnward(d: Draft, alt: Option<string>)
    requires ImageAdded(d, alt).Success?
    ensures Onward(d, ImageAdded(d, alt).value)
  {
    SeparatedOnward(d);
    var e := Separated(d).value;
    ImageDrawnOnward(e, Shown(alt));
    var drawn := ImageDrawn(e, Shown(alt)).value;
    OnwardTrans(d, e, drawn);
    ImageLeftOnward(drawn);
    OnwardTrans(d, drawn, ImageAdded(d, alt).value);
  }

  // --- tables ---------------------------------------------------------------------------------------

  /** The document grew, so many runs were misfiled, and what follows is written in the same style. */
  ghost predicate Filing(b: Draft, a: Draft, misfiling: nat) {
    && Tame(b, a, ModeOf(b), misfiling) && a.dress.style == b.dress.style && a.dress.link == b.dress.link
    && (b.grids.table.None? ==> a == b)
  }

  lemma FilingTrans(b: Draft, m: Draft, a: Draft, first: nat, then_: nat)
    requires Filing(b, m, first) && Filing(m, a, then_)
    ensures Filing(b, a, first + then_)
  {
    FieldsGrowOn(b.fields, m.fields, a.fields);
    GridsGrowOn(b.grids, m.grids, a.grids);
  }

  predicate CellOpen(g: Grids) {
    g.table.Some? && g.table.value.openCell.Some?
  }

  /** The runs a cell that is filed now files again: those since the last block was opened, if that is closed
      already. */
  ghost function Twice(d: Draft): nat {
    if d.setting.openKind.None? then SaturatingSub(|d.copy.runs|, d.setting.openFirstRun) else 0
  }

  /** The runs a cell that is opened now passes over: those of the block that is open. */
  ghost function Passed(d: Draft): nat {
    if d.setting.openKind.Some? then SaturatingSub(|d.copy.runs|, d.setting.openFirstRun) else 0
  }

  /** What filing the open cell misfiles, if there is one. */
  ghost function FilesAgain(d: Draft): nat {
    if CellOpen(d.grids) then Twice(d) else 0
  }

  lemma CellFiledGrows(d: Draft)
    requires CellFiled(d).Success? && Proper(d)
    ensures var a := CellFiled(d).value;
            && Filing(d, a, FilesAgain(d)) && !CellOpen(a.grids) && (d.grids.table.Some? ==> a.grids.table.Some?)
            && (if CellOpen(d.grids) then a.setting.openKind.None? else a == d)
  {
    StillOnward(d);
    if d.grids.table.Some? && d.grids.table.value.openCell.Some? {
      RunEndedOnward(d);
      var e, cell := RunEnded(d).value, d.grids.table.value.openCell.value;
      assert Grew(e, CellClosed(e, cell));
      OnwardTrans(d, e, CellClosed(e, cell));
    }
  }

  lemma RowListedGrows(d: Draft)
    requires RowListed(d).Success?
    ensures Filing(d, RowListed(d).value, 0) && RowListed(d).value == d.(grids := RowListed(d).value.grids)
    ensures d.grids.table.Some? ==> RowListed(d).value.grids.table.Some?
  {
    StillOnward(d);
  }

  lemma RowBegunGrows(d: Draft)
    requires RowBegun(d).Success? && Proper(d)
    ensures Filing(d, RowBegun(d).value, FilesAgain(d))
  {
    CellFiledGrows(d);
    RowListedGrows(CellFiled(d).value);
    FilingTrans(d, CellFiled(d).value, RowBegun(d).value, FilesAgain(d), 0);
  }

  lemma InRowGrows(d: Draft)
    requires InRow(d).Success? && Proper(d)
    ensures var a := InRow(d).value;
            && Filing(d, a, FilesAgain(d)) && (d.grids.table.Some? ==> a.grids.table.Some?)
            && (if CellOpen(d.grids) then a.setting.openKind.None? else a == d.(grids := a.grids))
  {
    CellFiledGrows(d);
    var e := CellFiled(d).value;
    if e.grids.table.Some? && e.grids.table.value.row.None? {
      RowBegunGrows(e);
      CellFiledGrows(e);
      RowListedGrows(e);
      FilingTrans(d, e, InRow(d).value, FilesAgain(d), 0);
    }
  }

  lemma CellPlacedGrows(d: Draft, header: bool, rowspan: nat, colspan: nat)
    requires CellPlaced(d, header, rowspan, colspan).Success?
    ensures var a := CellPlaced(d, header, rowspan, colspan).value;
            Filing(d, a, 0) && a == d.(grids := a.grids) && (d.grids.table.Some? ==> a.grids.table.Some?)
  {
    StillOnward(d);
  }

  lemma CellHousedGrows(d: Draft)
    requires d.grids.table.Some?
    ensures Filing(d, CellHoused(d), Passed(d))
  {
    StillOnward(d);
  }

  lemma CellBegunGrows(d: Draft, header: bool, rowspan: Option<nat>, colspan: Option<nat>)
    requires CellBegun(d, header, rowspan, colspan).Success? && Proper(d) && d.grids.table.Some?
    ensures Filing(d, CellBegun(d, header, rowspan, colspan).value, if CellOpen(d.grids) then Twice(d) else Passed(d))
  {
    InRowGrows(d);
    var e := InRow(d).value;
    CellPlacedGrows(e, header, ParseSpan(rowspan), ParseSpan(colspan));
    var placed := CellPlaced(e, header, ParseSpan(rowspan), ParseSpan(colspan)).value;
    FilingTrans(d, e, placed, FilesAgain(d), 0);
    CellHousedGrows(placed);
    FilingTrans(d, placed, CellHoused(placed), FilesAgain(d), Passed(placed));
  }

  lemma TableDoneGrows(d: Draft)
    ensures Filing(d, d.(grids := TableDone(d.grids)), 0)
  {
    StillOnward(d);
  }

  lemma TableEndedGrows(d: Draft)
    requires TableEnded(d).Success? && Proper(d)
    ensures Filing(d, TableEnded(d).value, FilesAgain(d))
  {
    CellFiledGrows(d);
    TableDoneGrows(CellFiled(d).value);
    FilingTrans(d, CellFiled(d).value, TableEnded(d).value, FilesAgain(d), 0);
  }

  lemma TableNotedGrows(d: Draft, group: RowGroup, nested: nat, nestedCellInRow: bool)
    ensures var a := TableNoted(d, group, nested, nestedCellInRow); Filing(d, a, 0) && Onward(d, a)
  {
    StillOnward(d);
  }

  lemma TableBegunGrows(d: Draft)
    requires TableBegun(d).Success? && d.grids.table.None?
    ensures var a := TableBegun(d).value;
            Tame(d, a.(grids := a.grids.(table := None)), ModeOf(d)) && Grew(d, a)
  {
    BlockEndedOnward(d);
    var e := BlockEnded(d).value;
    StillOnward(e);
    OnwardTrans(d, e, TableBegun(d).value);
  }

  // --- events -------------------------------------------------------------------------------------------

  /** What a tag makes of the mode. It takes no look at the document. */
  function NextMode(m: Mode, event: Event): Mode {
    match event
    case Characters(_) => m
    case StartTag(tag) =>
      if m.button.Some? then (if IsNestedControl(tag.name) then m.(button := Some(Deeper(m.button.value))) else m)
      else if m.inSelect && !tag.name.InputTag? && !tag.name.TextareaTag? then m.(inSelect := !tag.name.SelectTag?)
      else OpenedMode(m.(inSelect := false), tag.name)
    case EndTag(name) =>
      if m.inSelect && !name.FormTag? then m.(inSelect := !name.SelectTag?)
      else if m.button.Some? then
        var n := m.button.value;
        m.(inSelect := false,
           button := if n == 0 then (if name.ButtonTag? || name.FormTag? then None else m.button)
                     else if IsNestedControl(name) then Some(n - 1) else m.button)
      else ClosedMode(m.(inSelect := false), name)
  }

  function OpenedMode(m: Mode, name: Name): Mode {
    match name
    case TitleTag => m.(inTitle := true)
    case PreTag => m.(preformatted := true)
    case ButtonTag => m.(button := Some(0))
    case SelectTag => m.(inSelect := true)
    case TextareaTag => m.(inTextarea := true)
    case _ => m
  }

  function ClosedMode(m: Mode, name: Name): Mode {
    match name
    case TitleTag => m.(inTitle := false)
    case PreTag => m.(preformatted := false)
    case TextareaTag => m.(inTextarea := false)
    case _ => m
  }

  /** What a tag makes of the open lists. It takes no look at the document either. */
  function NextLists(m: Mode, lists: seq<ListLevel>, event: Event): seq<ListLevel> {
    if m.inSelect || m.button.Some? then lists
    else
      match event
      case Characters(_) => lists
      case StartTag(tag) => OpenedLists(lists, tag.name)
      case EndTag(name) => ClosedLists(lists, name)
  }

  function OpenedLists(lists: seq<ListLevel>, name: Name): seq<ListLevel> {
    match name
    case ListTag(ordered) => Deepened(lists, ordered)
    case ItemTag => Counted(lists)
    case _ => lists
  }

  function ClosedLists(lists: seq<ListLevel>, name: Name): seq<ListLevel> {
    if name.ListTag? then Raised(lists) else lists
  }

  /** A tag that ends the open cell of a table. */
  predicate EndsCell(event: Event) {
    match event
    case Characters(_) => false
    case StartTag(tag) => tag.name.GroupTag? || tag.name.RowTag? || tag.name.CellTag?
    case EndTag(name) => name.TableTag? || name.GroupTag? || name.RowTag? || name.CellTag?
  }

  /** The open table takes its tags: no select, button or table in a cell does. */
  ghost predicate TakesParts(d: Draft) {
    d.grids.table.Some? && d.grids.table.value.nested == 0 && d.fields.select.None? && d.fields.button.None?
  }

  /** The runs an event misfiles: a tag that ends the open cell files again what no open block holds, and one
      that opens a cell where none was open passes over what the open block holds. */
  ghost function Misfiling(d: Draft, event: Event): nat {
    if !TakesParts(d) || !EndsCell(event) then 0
    else if CellOpen(d.grids) then Twice(d)
    else if event.StartTag? && event.tag.name.CellTag? then Passed(d) else 0
  }

  /** An end tag that reaches no title, and the bytes it drops. */
  predicate EndsNoTitle(m: Mode, event: Event) {
    event == EndTag(TitleTag) && !m.inSelect && m.button.None? && !m.inTitle
  }

  ghost function Dropped(d: Draft): nat {
    if d.copy.runOpen then SaturatingSub(|d.copy.text|, d.copy.runStart) else 0
  }

  lemma OptionBegunGrows(d: Draft, value: Option<Text>, selected: bool, disabled: bool)
    requires d.fields.select.Some? && OptionBegun(d, value, selected, disabled).Success?
    ensures var a := OptionBegun(d, value, selected, disabled).value;
            && a == d.(fields := a.fields) && FieldsGrew(d.fields, a.fields)
            && a.fields.select.Some? && a.fields.button == d.fields.button
  {
    var f, joined := OptionEnded(d.fields), OptionBegun(d, value, selected, disabled).value.fields;
    OptionEndedGrows(d.fields);
    OptionJoinedGrows(f, joined.options[|f.options|], value.Some?);
    FieldsGrowOn(d.fields, f, joined);
  }

  lemma OptionJoinedGrows(f: Fields, option: SelectOption, hasValue: bool)
    ensures FieldsGrew(f, OptionJoined(f, option, hasValue))
  {
    FieldsGrewMeans(f, OptionJoined(f, option, hasValue));
  }

  lemma OnlyFieldsGrow(d: Draft, f: Fields)
    requires FieldsGrew(d.fields, f) && f.button == d.fields.button && f.textarea == d.fields.textarea
    ensures Tame(d, d.(fields := f), ModeOf(d).(inSelect := f.select.Some?))
  {
  }

  lemma InSelectStartedGrows(d: Draft, tag: Tag)
    requires d.fields.select.Some? && InSelectStarted(d, tag).Success?
    ensures Tame(d, InSelectStarted(d, tag).value, ModeOf(d).(inSelect := !tag.name.SelectTag?))
  {
    match tag.name
    case OptionTag =>
      OptionBegunGrows(d, tag.value, tag.selected, tag.disabled);
      OnlyFieldsGrow(d, InSelectStarted(d, tag).value.fields);
    case OptionGroupTag =>
      OptionGroupEndedGrows(d.fields, tag.disabled);
      OnlyFieldsGrow(d, OptionGroupEnded(d.fields, tag.disabled));
    case SelectTag =>
      SelectEndedGrows(d.fields);
      OnlyFieldsGrow(d, SelectEnded(d.fields));
    case _ => StillOnward(d);
  }

  lemma InSelectEndedGrows(f: Fields, name: Name)
    requires f.select.Some?
    ensures FieldsGrew(f, InSelectEnded(f, name)) && InSelectEnded(f, name).button == f.button
    ensures InSelectEnded(f, name).select.Some? == !(name.SelectTag? || name.FormTag?)
  {
    OptionEndedGrows(f);
    OptionGroupEndedGrows(f, false);
    SelectEndedGrows(f);
  }

  lemma InButtonEndedGrows(d: Draft, name: Name)
    requires d.fields.button.Some? && d.fields.select.None? && InButtonEnded(d, name).Success?
    ensures Tame(d, InButtonEnded(d, name).value, NextMode(ModeOf(d), EndTag(name)))
  {
    if d.fields.button.value.suppressedControls != 0 {
      SuppressedEndedGrows(d, name);
    } else {
      ButtonOrFormEndedGrows(d, name);
    }
  }

  lemma SuppressedEndedGrows(d: Draft, name: Name)
    requires d.fields.button.Some? && d.fields.button.value.suppressedControls != 0
    ensures var n := d.fields.button.value.suppressedControls;
            && InButtonEnded(d, name).Success?
            && Tame(d, InButtonEnded(d, name).value,
                    ModeOf(d).(button := Some(if IsNestedControl(name) then n - 1 else n)))
  {
    StillOnward(d);
  }

  lemma ButtonOrFormEndedGrows(d: Draft, name: Name)
    requires d.fields.button.Some? && d.fields.button.value.suppressedControls == 0 && InButtonEnded(d, name).Success?
    ensures Tame(d, InButtonEnded(d, name).value,
                 if name.ButtonTag? || name.FormTag? then ModeOf(d).(button := None) else ModeOf(d))
  {
    match name
    case FormTag => FormEndedGrows(d);
    case ButtonTag => ButtonEndedGrows(d.fields);
    case _ => StillOnward(d);
  }

  lemma NestedStartedOnward(d: Draft, name: Name)
    requires d.grids.table.Some? && NestedStarted(d, name).Success?
    ensures Tame(d, NestedStarted(d, name).value, ModeOf(d))
  {
    StillOnward(d);
    var t := d.grids.table.value;
    var noted := match name
      case TableTag => TableNoted(d, t.group, Deeper(t.nested), t.nestedCellInRow)
      case RowTag => TableNoted(d, t.group, t.nested, false)
      case CellTag(_) => TableNoted(d, t.group, t.nested, true)
      case _ => d;
    assert Onward(d, noted);
    if name.TableTag? || name.RowTag? {
      BrokenOnward(noted);
      OnwardTrans(d, noted, Broken(noted).value);
    } else if name.CellTag? && t.nestedCellInRow {
      TextedOnward(noted, " | ");
      OnwardTrans(d, noted, Texted(noted, " | ").value);
    }
  }

  lemma GroupBegunGrows(d: Draft, group: RowGroup)
    requires GroupBegun(d, group).Success? && Proper(d)
    ensures Filing(d, GroupBegun(d, group).value, FilesAgain(d))
  {
    CellFiledGrows(d);
    var e := CellFiled(d).value;
    if e.grids.table.Some? {
      TableNotedGrows(e, group, e.grids.table.value.nested, e.grids.table.value.nestedCellInRow);
      FilingTrans(d, e, GroupBegun(d, group).value, FilesAgain(d), 0);
    }
  }

  lemma ThenBrokenOnward(d: Draft, m: Draft)
    requires Onward(d, m) && Broken(m).Success?
    ensures Onward(d, Broken(m).value)
  {
    BrokenOnward(m);
    OnwardTrans(d, m, Broken(m).value);
  }

  lemma PartStartedGrows(d: Draft, tag: Tag)
    requires d.grids.table.Some? && d.grids.table.value.nested == 0 && InTableStarted(d, tag).Success? && Proper(d)
    requires tag.name.GroupTag? || tag.name.RowTag? || tag.name.CellTag?
    ensures Tame(d, InTableStarted(d, tag).value, ModeOf(d),
                 if tag.name.CellTag? && !CellOpen(d.grids) then Passed(d) else FilesAgain(d))
  {
    match tag.name
    case GroupTag(group) => GroupBegunGrows(d, group);
    case RowTag => RowBegunGrows(d);
    case CellTag(header) => CellBegunGrows(d, header, tag.rowspan, tag.colspan);
  }

  lemma TableInTableOnward(d: Draft, tag: Tag)
    requires d.grids.table.Some? && d.grids.table.value.nested == 0 && InTableStarted(d, tag).Success?
             && tag.name.TableTag?
    ensures Onward(d, InTableStarted(d, tag).value)
  {
    var t := d.grids.table.value;
    var noted := TableNoted(d, t.group, Deeper(t.nested), false);
    TableNotedGrows(d, t.group, Deeper(t.nested), false);
    ThenBrokenOnward(d, noted);
  }

  lemma InTableStartedGrows(d: Draft, tag: Tag)
    requires d.grids.table.Some? && InTableStarted(d, tag).Success?
    requires Proper(d) && d.fields.select.None? && d.fields.button.None?
    ensures Tame(d, InTableStarted(d, tag).value, ModeOf(d), Misfiling(d, StartTag(tag)))
  {
    if d.grids.table.value.nested != 0 && IsTablePart(tag.name) {
      NestedStartedOnward(d, tag.name);
    } else if tag.name.GroupTag? || tag.name.RowTag? || tag.name.CellTag? {
      PartStartedGrows(d, tag);
    } else if tag.name.TableTag? {
      TableInTableOnward(d, tag);
    } else {
      BrokenOnward(d);
    }
  }

  lemma NestedEndedOnward(d: Draft, name: Name)
    requires d.grids.table.Some? && d.grids.table.value.nested != 0 && NestedEnded(d, name).Success?
    ensures Onward(d, NestedEnded(d, name).value)
  {
    if name.TableTag? {
      NestedTableEndedOnward(d);
    } else if name.RowTag? {
      NestedRowEndedOnward(d);
    } else {
      StillOnward(d);
    }
  }

  lemma NestedTableEndedOnward(d: Draft)
    requires d.grids.table.Some? && d.grids.table.value.nested != 0 && NestedEnded(d, TableTag).Success?
    ensures Onward(d, NestedEnded(d, TableTag).value)
  {
    var t := d.grids.table.value;
    var noted := TableNoted(d, t.group, t.nested - 1, false);
    TableNotedGrows(d, t.group, t.nested - 1, false);
    ThenBrokenOnward(d, noted);
  }

  lemma NestedRowEndedOnward(d: Draft)
    requires d.grids.table.Some? && d.grids.table.value.nested != 0 && NestedEnded(d, RowTag).Success?
    ensures Onward(d, NestedEnded(d, RowTag).value)
  {
    BrokenOnward(d);
  }

  lemma InTableEndedGrows(d: Draft, name: Name)
    requires d.grids.table.Some? && InTableEnded(d, name).Success?
    requires Proper(d) && d.fields.select.None? && d.fields.button.None?
    ensures Tame(d, InTableEnded(d, name).value, ModeOf(d), Misfiling(d, EndTag(name)))
  {
    if d.grids.table.value.nested != 0 && IsTablePart(name) {
      NestedEndedOnward(d, name);
    } else if name.TableTag? {
      TableEndedGrows(d);
    } else if name.GroupTag? || name.RowTag? || name.CellTag? {
      CellFiledGrows(d);
    } else {
      StillOnward(d);
    }
  }

  lemma ButtonBegunGrows(d: Draft, tag: Tag)
    requires ButtonBegun(d, tag).Success? && d.fields.button.None?
    ensures Tame(d, ButtonBegun(d, tag).value, ModeOf(d).(button := Some(0)))
  {
    var f := d.fields;
    ControlAddedOnward(d, NewControl(f.form, |f.options|, ButtonKind(tag.typeAttribute), false, tag, tag.value, false),
                       false);
    FieldsGrowOn(f, ButtonAdded(d, tag).value.fields, ButtonBegun(d, tag).value.fields);
  }

  lemma SelectBegunGrows(d: Draft, tag: Tag)
    requires SelectBegun(d, tag).Success? && d.fields.select.None?
    ensures Tame(d, SelectBegun(d, tag).value, ModeOf(d).(inSelect := true))
  {
    var f := d.fields;
    ControlAddedOnward(d, NewControl(f.form, |f.options|, Select, tag.multiple, tag, None, false), false);
    FieldsGrowOn(f, SelectAdded(d, tag).value.fields, SelectBegun(d, tag).value.fields);
  }

  lemma TextareaBegunGrows(d: Draft, tag: Tag)
    requires TextareaBegun(d, tag).Success?
    ensures Tame(d, TextareaBegun(d, tag).value, ModeOf(d).(inTextarea := true))
  {
    StillOnward(d);
    var f := d.fields;
    if f.textarea.None? {
      ControlAddedOnward(d, NewControl(f.form, |f.options|, Textarea, false, tag, None, false), false);
      FieldsGrowOn(f, TextareaAdded(d, tag).value.fields, TextareaBegun(d, tag).value.fields);
    }
  }

  lemma FormBegunGrows(d: Draft, action: Option<Text>)
    requires FormBegun(d, action).Success?
    ensures Tame(d, FormBegun(d, action).value, ModeOf(d))
  {
    FieldsGrewMeans(d.fields, FormBegun(d, action).value.fields);
  }

  lemma ControlStartedGrows(d: Draft, tag: Tag)
    requires IsControl(tag.name) && ControlStarted(d, tag).Success? && d.fields.select.None? && d.fields.button.None?
    ensures Tame(d, ControlStarted(d, tag).value, OpenedMode(ModeOf(d), tag.name))
  {
    StillOnward(d);
    match tag.name
    case InputTag =>
      var f := d.fields;
      ControlAddedOnward(d,
          NewControl(f.form, |f.options|, InputKind(tag.typeAttribute), false, tag, tag.value,
                     tag.checked), tag.checked);
    case FormTag => FormBegunGrows(d, tag.action);
    case ButtonTag => ButtonBegunGrows(d, tag);
    case SelectTag => SelectBegunGrows(d, tag);
    case TextareaTag => TextareaBegunGrows(d, tag);
    case LabelTag => LabelBegunOnward(d, tag.labelFor);
    case _ =>
  }

  lemma ControlEndedGrows(d: Draft, name: Name)
    requires ControlEnded(d, name).Success? && d.fields.button.None? && IsControl(name)
    ensures Tame(d, ControlEnded(d, name).value, ClosedMode(ModeOf(d), name))
  {
    StillOnward(d);
    match name
    case TextareaTag => TextareaEndedGrows(d.fields);
    case LabelTag => LabelEndedOnward(d);
    case FormTag => FormEndedGrows(d);
    case _ =>
  }

  lemma ItemBegunGrows(d: Draft)
    requires ItemBegun(d).Success?
    ensures Tame(d, ItemBegun(d).value, ModeOf(d), 0, Counted(d.rest.lists))
  {
    BlockBegunOnward(Relisted(d, Counted(d.rest.lists)),
                     ListItem(NextMarker(d.rest.lists).0, NextMarker(d.rest.lists).1));
  }

  lemma RuleDrawnOnward(d: Draft)
    requires RuleDrawn(d).Success?
    ensures Onward(d, RuleDrawn(d).value)
  {
    BlockBegunOnward(d, Rule);
    BlockEndedOnward(BlockBegun(d, Rule).value);
    OnwardTrans(d, BlockBegun(d, Rule).value, RuleDrawn(d).value);
  }

  lemma PreBegunGrows(d: Draft)
    requires PreBegun(d).Success?
    ensures Tame(d, PreBegun(d).value, ModeOf(d).(preformatted := true))
  {
    BlockBegunOnward(d, Preformatted);
  }

  lemma PreEndedGrows(d: Draft)
    requires PreEnded(d).Success?
    ensures Tame(d, PreEnded(d).value, ModeOf(d).(preformatted := false))
  {
    BlockEndedOnward(Verbatim(d, false));
  }

  lemma ListBegunGrows(d: Draft, ordered: bool)
    requires ListBegun(d, ordered).Success?
    ensures Tame(d, ListBegun(d, ordered).value, ModeOf(d), 0, Deepened(d.rest.lists, ordered))
  {
    BlockEndedOnward(d);
  }

  lemma ListEndedGrows(d: Draft)
    requires ListEnded(d).Success?
    ensures Tame(d, ListEnded(d).value, ModeOf(d), 0, Raised(d.rest.lists))
  {
    BlockEndedOnward(d);
  }

  lemma BlockyStartedGrows(d: Draft, name: Name)
    requires BlockyStarted(d, name).Success? && IsBlocky(name)
    ensures Tame(d, BlockyStarted(d, name).value, OpenedMode(ModeOf(d), name), 0, OpenedLists(d.rest.lists, name))
  {
    match name
    case ItemTag => ItemBegunGrows(d);
    case ListTag(ordered) => ListBegunGrows(d, ordered);
    case PreTag => PreBegunGrows(d);
    case _ => OtherBlockOnward(d, name);
  }

  lemma OtherBlockOnward(d: Draft, name: Name)
    requires BlockyStarted(d, name).Success? && !name.ItemTag? && !name.ListTag? && !name.PreTag?
    ensures Onward(d, BlockyStarted(d, name).value)
  {
    match name
    case RuleTag => RuleDrawnOnward(d);
    case HeadingTag(level) => BlockBegunOnward(d, Heading(level));
    case _ => PlainBlockOnward(d, name);
  }

  lemma PlainBlockOnward(d: Draft, name: Name)
    requires IsBlock(name) ==> BlockEnded(d).Success?
    ensures Onward(d, if IsBlock(name) then BlockEnded(d).value else d)
  {
    StillOnward(d);
    if IsBlock(name) {
      BlockEndedOnward(d);
    }
  }

  lemma ContentStartedGrows(d: Draft, tag: Tag)
    requires ContentStarted(d, tag).Success? && !IsControl(tag.name)
    ensures Tame(d, ContentStarted(d, tag).value, OpenedMode(ModeOf(d), tag.name), 0,
                 OpenedLists(d.rest.lists, tag.name))
  {
    StillOnward(d);
    if IsBlocky(tag.name) {
      BlockyStartedGrows(d, tag.name);
      return;
    }
    match tag.name
    case TitleTag =>
      BlockEndedOnward(d);
      FieldsGrowOn(d.fields, BlockEnded(d).value.fields, TitleBegun(d).value.fields);
    case BreakTag => BrokenOnward(d);
    case ImageTag => ImageAddedOnward(d, tag.alt);
    case AnchorTag => LinkStartedGrows(d, tag.href);
    case InlineTag(element) => InlineOpenedGrows(d, tag.name, InlineStyle(element), false);
    case _ =>
  }

  lemma BlockyEndedGrows(d: Draft, name: Name)
    requires BlockyEnded(d, name).Success? && IsBlocky(name)
    ensures Tame(d, BlockyEnded(d, name).value, ClosedMode(ModeOf(d), name), 0, ClosedLists(d.rest.lists, name))
  {
    match name
    case PreTag => PreEndedGrows(d);
    case ListTag(_) => ListEndedGrows(d);
    case RuleTag => StillOnward(d);
    case _ => BlockEndedOnward(d);
  }

  lemma ContentEndedGrows(d: Draft, name: Name)
    requires ContentEnded(d, name).Success? && !name.TitleTag? && !name.TextareaTag?
    ensures Tame(d, ContentEnded(d, name).value, ClosedMode(ModeOf(d), name), 0, ClosedLists(d.rest.lists, name))
  {
    if IsBlocky(name) {
      BlockyEndedGrows(d, name);
    } else if name.AnchorTag? || name.InlineTag? {
      InlineClosedGrows(d, name);
    } else {
      StillOnward(d);
    }
  }

  /** What an event may do to the rest. */
  ghost predicate Stepped(d: Draft, a: Draft, event: Event) {
    && Grew(d, a) && ModeOf(a) == NextMode(ModeOf(d), event)
    && a.rest.lists == NextLists(ModeOf(d), d.rest.lists, event)
    && a.copy.lost == d.copy.lost + (if EndsNoTitle(ModeOf(d), event) then Dropped(d) else 0)
    && a.setting.misfiled == d.setting.misfiled + Misfiling(d, event)
    && (d.grids.table.None? && !(event.StartTag? && event.tag.name.TableTag?) ==> a.grids.table.None?) && Proper(a)
  }

  lemma StartedOutsideGrows(d: Draft, tag: Tag)
    requires StartedOutside(d, tag).Success? && d.fields.select.None? && d.fields.button.None? && Proper(d)
    ensures Stepped(d, StartedOutside(d, tag).value, StartTag(tag))
  {
    if Tabular(d.grids.table, tag.name) {
      InTableStartedGrows(d, tag);
    } else if tag.name.TableTag? {
      TableBegunGrows(d);
    } else if IsControl(tag.name) {
      ControlStartedGrows(d, tag);
    } else {
      ContentStartedGrows(d, tag);
    }
  }

  lemma EndedOutsideGrows(d: Draft, name: Name)
    requires EndedOutside(d, name).Success? && d.fields.select.None? && d.fields.button.None? && Proper(d)
    ensures Stepped(d, EndedOutside(d, name).value, EndTag(name))
  {
    if Tabular(d.grids.table, name) {
      InTableEndedGrows(d, name);
    } else if name.TitleTag? {
      TitleEndedSteps(d);
    } else {
      NotInTableEndedGrows(d, name);
      EndsNoCell(d, name);
    }
  }

  lemma NotInTableEndedGrows(d: Draft, name: Name)
    requires EndedOutside(d, name).Success? && d.fields.button.None? && !Tabular(d.grids.table, name) && !name.TitleTag?
    ensures Tame(d, EndedOutside(d, name).value, ClosedMode(ModeOf(d), name), 0, ClosedLists(d.rest.lists, name))
  {
    if IsControl(name) && !name.InputTag? && !name.SelectTag? {
      ControlEndedGrows(d, name);
    } else {
      ContentEndedGrows(d, name);
    }
  }

  /** The tags that end a cell are the table's. */
  lemma EndsNoCell(d: Draft, name: Name)
    requires !Tabular(d.grids.table, name)
    ensures Misfiling(d, EndTag(name)) == 0
  {
  }

  lemma TitleEndedSteps(d: Draft)
    requires d.fields.select.None? && d.fields.button.None? && Proper(d)
    ensures Stepped(d, TitleEnded(d), EndTag(TitleTag))
  {
    StillOnward(d);
  }

  lemma ElementStartedGrows(d: Draft, tag: Tag)
    requires ElementStarted(d, tag).Success? && Proper(d)
    ensures Stepped(d, ElementStarted(d, tag).value, StartTag(tag))
  {
    if d.fields.button.Some? {
      StillOnward(d);
    } else if d.fields.select.Some? && !tag.name.InputTag? && !tag.name.TextareaTag? {
      InSelectStartedGrows(d, tag);
    } else {
      StartedUnselectedGrows(d, tag);
    }
  }

  lemma GrewOn(d: Draft, f: Fields, a: Draft)
    requires FieldsGrew(d.fields, f) && Grew(d.(fields := f), a)
    ensures Grew(d, a)
  {
    FieldsGrowOn(d.fields, f, a.fields);
  }

  lemma StartedUnselectedGrows(d: Draft, tag: Tag)
    requires StartedUnselected(d, tag).Success? && Proper(d) && d.fields.button.None?
    requires d.fields.select.Some? ==> tag.name.InputTag? || tag.name.TextareaTag?
    ensures Stepped(d, StartedUnselected(d, tag).value, StartTag(tag))
  {
    if d.fields.select.Some? {
      SelectEndedGrows(d.fields);
      var e := d.(fields := SelectEnded(d.fields));
      StartedOutsideGrows(e, tag);
      GrewOn(d, e.fields, StartedOutside(e, tag).value);
      SelectLeftFollows(d, e, tag);
    } else {
      StartedOutsideGrows(d, tag);
    }
  }

  lemma SelectLeftFollows(d: Draft, e: Draft, tag: Tag)
    requires tag.name.InputTag? || tag.name.TextareaTag?
    requires ModeOf(e) == ModeOf(d).(inSelect := false) && ModeOf(d).button.None?
    ensures NextMode(ModeOf(e), StartTag(tag)) == NextMode(ModeOf(d), StartTag(tag))
    ensures NextLists(ModeOf(e), e.rest.lists, StartTag(tag)) == e.rest.lists
            && NextLists(ModeOf(d), d.rest.lists, StartTag(tag)) == d.rest.lists
    ensures Misfiling(d, StartTag(tag)) == Misfiling(e, StartTag(tag)) == 0
  {
  }

  lemma ElementEndedGrows(d: Draft, name: Name)
    requires ElementEnded(d, name).Success? && Proper(d)
    ensures Stepped(d, ElementEnded(d, name).value, EndTag(name))
  {
    if d.fields.select.Some? && !name.FormTag? {
      InSelectEndedGrows(d.fields, name);
      OnlyFieldsGrow(d, InSelectEnded(d.fields, name));
    } else {
      ElementClosedGrows(d, name);
    }
  }

  lemma ElementClosedGrows(d: Draft, name: Name)
    requires ElementEnded(d, name).Success? && Proper(d) && (d.fields.select.Some? ==> name.FormTag?)
    ensures Stepped(d, ElementEnded(d, name).value, EndTag(name))
  {
    StillOnward(d);
    SelectEndedGrows(d.fields);
    var e := if d.fields.select.Some? then d.(fields := SelectEnded(d.fields)) else d;
    if e.fields.button.Some? {
      InButtonEndedGrows(e, name);
    } else {
      EndedOutsideGrows(e, name);
    }
    GrewOn(d, e.fields, ElementEnded(d, name).value);
  }

  /** Whatever the event and whatever came before it: nothing that is in the document is taken back, what is
      new in the text bears the style and link in force when it came, the mode and the lists follow the tags
      alone, only an end tag that ends no title loses text, and only a tag that ends or opens a cell misfiles
      runs, just as many as the two cases of `Misfiling` say. */
  lemma HappenedGrows(d: Draft, event: Event)
    requires Happened(d, event).Success? && Proper(d)
    ensures Stepped(d, Happened(d, event).value, event)
  {
    match event
    case Characters(characters) => TextedOnward(d, characters);
    case StartTag(tag) => ElementStartedGrows(d, tag);
    case EndTag(name) => ElementEndedGrows(d, name);
  }

  // --- pages ----------------------------------------------------------------------------------------------

  ghost function Start(site: Site): Draft {
    Blank(site.resolve, site.ownedBytes)
  }

  /** The draft after these events. */
  ghost function After(site: Site, events: seq<Event>): Next {
    Read(Start(site), events)
  }

  /** The mode after these events. */
  ghost function ModeAfter(events: seq<Event>): Mode {
    if events == [] then Mode(false, false, false, None, false)
    else NextMode(ModeAfter(events[..|events| - 1]), events[|events| - 1])
  }

  predicate OpensTable(event: Event) {
    event.StartTag? && event.tag.name.TableTag?
  }

  /** The open lists after these events. */
  ghost function ListsAfter(events: seq<Event>): seq<ListLevel> {
    if events == [] then []
    else
      var init := events[..|events| - 1];
      NextLists(ModeAfter(init), ListsAfter(init), events[|events| - 1])
  }

  /** Any stream of events at all: its drafts are proper, and their modes and open lists are what the tags
      alone say. */
  lemma {:induction false} AfterFollows(site: Site, events: seq<Event>)
    requires After(site, events).Success?
    ensures var d := After(site, events).value;
            Proper(d) && ModeOf(d) == ModeAfter(events) && d.rest.lists == ListsAfter(events)
  {
    if events != [] {
      var init := events[..|events| - 1];
      AfterFollows(site, init);
      HappenedGrows(After(site, init).value, events[|events| - 1]);
    }
  }

  /** A page that can be read to its end can be read up to any event. */
  lemma {:induction false} AfterPrefix(site: Site, events: seq<Event>, i: nat)
    requires After(site, events).Success? && i <= |events|
    ensures After(site, events[..i]).Success?
  {
    if i < |events| {
      var init := events[..|events| - 1];
      AfterPrefix(site, init, i);
      assert init[..i] == events[..i];
    } else {
      assert events[..i] == events;
    }
  }

  /** Where no block is open, ending a label opens none. */
  lemma LabelEndedMisfilesNothing(d: Draft)
    requires LabelEnded(d).Success? && Proper(d)
    ensures FilesAgain(LabelEnded(d).value) == FilesAgain(d)
  {
  }

  lemma PageEndedGrows(d: Draft)
    requires PageEnded(d).Success? && Proper(d)
    ensures var a := PageEnded(d).value;
            && Grew(d, a) && a.copy.lost == d.copy.lost && Proper(a)
            && a.setting.misfiled == d.setting.misfiled + FilesAgain(d)
  {
    var f1, f2 := ButtonEnded(d.fields), TextareaEnded(ButtonEnded(d.fields));
    ButtonEndedGrows(d.fields);
    TextareaEndedGrows(f1);
    SelectEndedGrows(f2);
    FieldsGrowOn(d.fields, f1, f2);
    FieldsGrowOn(d.fields, f2, SelectEnded(f2));
    var e := d.(fields := FieldsEnded(d.fields));
    LabelEndedOnward(e);
    LabelEndedMisfilesNothing(e);
    BodyEndedGrows(LabelEnded(e).value);
    OnwardTrans(e, LabelEnded(e).value, PageEnded(d).value);
    FieldsGrowOn(d.fields, e.fields, PageEnded(d).value.fields);
  }

  lemma BodyEndedGrows(d: Draft)
    requires BodyEnded(d).Success? && Proper(d)
    ensures var a := BodyEnded(d).value;
            && Grew(d, a) && a.copy.lost == d.copy.lost && Proper(a)
            && a.setting.misfiled == d.setting.misfiled + FilesAgain(d)
  {
    TableEndedGrows(d);
    var e := TableEnded(d).value;
    BlockEndedOnward(e);
    var a := BlockEnded(e).value;
    FieldsGrowOn(d.fields, e.fields, a.fields);
    GridsGrowOn(d.grids, e.grids, a.grids);
  }

  // --- nothing is taken back ------------------------------------------------------------------------------

  /** Whatever was in the document still is. */
  ghost predicate Kept(b: Draft, a: Draft) {
    && b.copy.title <= a.copy.title && b.copy.text <= a.copy.text && b.copy.marks <= a.copy.marks
    && b.copy.runs <= a.copy.runs && b.setting.blocks <= a.setting.blocks && b.dress.links <= a.dress.links
    && FieldsGrew(b.fields, a.fields) && GridsGrew(b.grids, a.grids) && b.rest.images <= a.rest.images
    && b.rest.labels <= a.rest.labels
  }

  lemma KeptOn(b: Draft, m: Draft, a: Draft)
    requires Kept(b, m) && Grew(m, a)
    ensures Kept(b, a)
  {
    FieldsGrowOn(b.fields, m.fields, a.fields);
    GridsGrowOn(b.grids, m.grids, a.grids);
  }

  /** Whatever a page held after any of its events it holds at the end: text, runs, blocks, links, images and
      labels unchanged, forms, controls, options and tables with no more than their totals, values and
      choices filled in. */
  lemma NothingIsTakenBack(site: Site, events: seq<Event>, i: nat)
    requires Page(site, events).Success? && i <= |events|
    ensures After(site, events[..i]).Success? && Kept(After(site, events[..i]).value, Page(site, events).value)
  {
    AfterPrefix(site, events, i);
    AfterKeeps(site, events, i);
    AfterFollows(site, events);
    PageEndedGrows(After(site, events).value);
    KeptOn(After(site, events[..i]).value, After(site, events).value, Page(site, events).value);
  }

  lemma {:induction false} AfterKeeps(site: Site, events: seq<Event>, i: nat)
    requires After(site, events).Success? && i <= |events|
    ensures After(site, events[..i]).Success? && Kept(After(site, events[..i]).value, After(site, events).value)
  {
    AfterPrefix(site, events, i);
    if i == |events| {
      assert events[..i] == events;
      StillOnward(After(site, events).value);
    } else {
      var init := events[..|events| - 1];
      assert init[..i] == events[..i];
      AfterKeeps(site, init, i);
      AfterFollows(site, init);
      HappenedGrows(After(site, init).value, events[|events| - 1]);
      KeptOn(After(site, events[..i]).value, After(site, init).value, After(site, events).value);
    }
  }

  // --- what the text looks like -----------------------------------------------------------------------------

  /** Event `i` (or, past the last one, the end of the page) wrote byte `k` of the text, with this style and link
      in force. */
  ghost predicate WrittenIn(site: Site, events: seq<Event>, i: nat, k: nat, mark: Mark) {
    && i <= |events| && After(site, events[..i]).Success?
    && var d := After(site, events[..i]).value;
       && |d.copy.text| <= k && mark == Mark(d.dress.style, d.dress.link)
       && (i < |events| ==> After(site, events[..i + 1]).Success? && k < |After(site, events[..i + 1]).value.copy.text|)
  }

  /** The last event marks what it adds. */
  lemma LastEventMarks(site: Site, events: seq<Event>)
    requires events != [] && After(site, events).Success?
    ensures var init := events[..|events| - 1];
            && After(site, init).Success?
            && var d, a := After(site, init).value, After(site, events).value;
               && |d.copy.marks| == |d.copy.text| <= |a.copy.text| == |a.copy.marks|
               && forall k :: 0 <= k < |a.copy.marks| ==>
                    a.copy.marks[k] == if k < |d.copy.marks| then d.copy.marks[k] else Mark(d.dress.style, d.dress.link)
  {
    var init := events[..|events| - 1];
    AfterFollows(site, init);
    AfterFollows(site, events);
    HappenedGrows(After(site, init).value, events[|events| - 1]);
  }

  lemma {:induction false} MarkedAsWritten(site: Site, events: seq<Event>, k: nat) returns (i: nat)
    requires After(site, events).Success? && k < |After(site, events).value.copy.text|
    ensures |After(site, events).value.copy.marks| == |After(site, events).value.copy.text|
    ensures i < |events| && WrittenIn(site, events, i, k, After(site, events).value.copy.marks[k])
  {
    if events != [] {
      var init, last := events[..|events| - 1], |events| - 1;
      LastEventMarks(site, events);
      if k < |After(site, init).value.copy.text| {
        i := MarkedAsWritten(site, init, k);
        assert init[..i] == events[..i] && init[..i + 1] == events[..i + 1];
      } else {
        i := last;
        assert events[..last + 1] == events;
      }
    }
  }

  /** The end of the page marks what it adds. */
  lemma PageEndMarks(site: Site, events: seq<Event>)
    requires Page(site, events).Success?
    ensures After(site, events).Success?
    ensures var d, a := After(site, events).value, Page(site, events).value;
            && |d.copy.marks| == |d.copy.text| <= |a.copy.text| == |a.copy.marks|
            && forall k :: 0 <= k < |a.copy.marks| ==>
                 a.copy.marks[k] == if k < |d.copy.marks| then d.copy.marks[k] else Mark(d.dress.style, d.dress.link)
  {
    AfterFollows(site, events);
    PageEndedGrows(After(site, events).value);
  }

  /** Every byte of a page's text is marked with the style and link that were in force when the event came that
      wrote it. */
  lemma TextIsMarkedAsWritten(site: Site, events: seq<Event>, k: nat)
    requires Page(site, events).Success? && k < |Page(site, events).value.copy.text|
    ensures |Page(site, events).value.copy.marks| == |Page(site, events).value.copy.text|
    ensures exists i: nat :: i <= |events| && WrittenIn(site, events, i, k, Page(site, events).value.copy.marks[k])
  {
    PageEndMarks(site, events);
    var i: nat := |events|;
    if k < |After(site, events).value.copy.text| {
      i := MarkedAsWritten(site, events, k);
    }
    assert events[..|events|] == events;
    assert WrittenIn(site, events, i, k, Page(site, events).value.copy.marks[k]);
  }

  // --- lost text ----------------------------------------------------------------------------------------------

  /** Event `i` is a `</title>` that ends no title. */
  ghost predicate Stray(events: seq<Event>, i: nat) {
    i < |events| && EndsNoTitle(ModeAfter(events[..i]), events[i])
  }

  /** What a page loses is what its stray end tags drop; it loses text if and only if one of them comes while
      a run is open with text in it. */
  lemma LosesTextExactlyToStrays(site: Site, events: seq<Event>)
    requires Page(site, events).Success?
    ensures Page(site, events).value.copy.lost == AllDropped(site, events)
    ensures AllDropped(site, events) == 0 <==> forall i :: 0 <= i < |events| ==> DroppedAt(site, events, i) == 0
  {
    AfterFollows(site, events);
    PageEndedGrows(After(site, events).value);
    AfterLosesToStrays(site, events);
    NothingDroppedNowhere(site, events);
  }

  /** What event `i` drops, if it is such an end tag. */
  ghost function DroppedAt(site: Site, events: seq<Event>, i: nat): nat
    requires i <= |events|
  {
    var d := After(site, events[..i]);
    if Stray(events, i) && d.Success? then Dropped(d.value) else 0
  }

  /** What all such end tags drop. */
  ghost function AllDropped(site: Site, events: seq<Event>): nat {
    if events == [] then 0 else AllDropped(site, events[..|events| - 1]) + DroppedAt(site, events, |events| - 1)
  }

  lemma LastEventLoses(site: Site, events: seq<Event>)
    requires events != [] && After(site, events).Success?
    ensures var init, last := events[..|events| - 1], |events| - 1;
            && After(site, init).Success?
            && After(site, events).value.copy.lost == After(site, init).value.copy.lost + DroppedAt(site, events, last)
  {
    var init := events[..|events| - 1];
    AfterFollows(site, init);
    HappenedGrows(After(site, init).value, events[|events| - 1]);
  }

  lemma {:induction false} AfterLosesToStrays(site: Site, events: seq<Event>)
    requires After(site, events).Success?
    ensures After(site, events).value.copy.lost == AllDropped(site, events)
  {
    if events != [] {
      LastEventLoses(site, events);
      AfterLosesToStrays(site, events[..|events| - 1]);
    }
  }

  lemma DroppedEarlier(site: Site, events: seq<Event>, i: nat)
    requires i + 1 < |events|
    ensures DroppedAt(site, events[..|events| - 1], i) == DroppedAt(site, events, i)
  {
    assert events[..|events| - 1][..i] == events[..i];
  }

  lemma {:induction false} DroppedCounts(site: Site, events: seq<Event>, i: nat)
    requires i < |events|
    ensures DroppedAt(site, events, i) <= AllDropped(site, events)
  {
    if i + 1 < |events| {
      DroppedEarlier(site, events, i);
      DroppedCounts(site, events[..|events| - 1], i);
    }
  }

  lemma {:induction false} DroppedSomewhere(site: Site, events: seq<Event>) returns (i: nat)
    requires AllDropped(site, events) != 0
    ensures i < |events| && DroppedAt(site, events, i) != 0
  {
    i := |events| - 1;
    if DroppedAt(site, events, i) == 0 {
      i := DroppedSomewhere(site, events[..|events| - 1]);
      DroppedEarlier(site, events, i);
    }
  }

  lemma NothingDroppedNowhere(site: Site, events: seq<Event>)
    ensures AllDropped(site, events) == 0 <==> forall i :: 0 <= i < |events| ==> DroppedAt(site, events, i) == 0
  {
    if AllDropped(site, events) != 0 {
      var i := DroppedSomewhere(site, events);
    }
    forall i | 0 <= i < |events|
      ensures DroppedAt(site, events, i) <= AllDropped(site, events)
    {
      DroppedCounts(site, events, i);
    }
  }

  /** If every `</title>` outside selects and buttons ends a title, nothing is lost. */
  lemma NoStrayNothingLost(site: Site, events: seq<Event>)
    requires Page(site, events).Success? && forall i :: 0 <= i < |events| ==> !Stray(events, i)
    ensures Page(site, events).value.copy.lost == 0
  {
    LosesTextExactlyToStrays(site, events);
  }

  // --- misfiled runs ------------------------------------------------------------------------------------------

  /** What event `i` (or, past the last one, the end of the page) misfiles. */
  ghost function MisfiledAt(site: Site, events: seq<Event>, i: nat): nat
    requires i <= |events|
  {
    var d := After(site, events[..i]);
    if d.Failure? then 0 else if i < |events| then Misfiling(d.value, events[i]) else FilesAgain(d.value)
  }

  /** What all events misfile. */
  ghost function AllMisfiled(site: Site, events: seq<Event>): nat {
    if events == [] then 0 else AllMisfiled(site, events[..|events| - 1]) + MisfiledAt(site, events, |events| - 1)
  }

  /** The runs a page's blocks hold twice or not at all are those its tags misfile, each as the draft before it
      says. The blocks partition the runs if and only if no tag, nor the end of the page, ends a cell whose
      block is closed or opens a cell in an open block, with runs in that block. */
  lemma MisfilesExactlyAtCells(site: Site, events: seq<Event>)
    requires Page(site, events).Success?
    ensures Page(site, events).value.setting.misfiled == AllMisfiled(site, events) + MisfiledAt(site, events, |events|)
    ensures Page(site, events).value.setting.misfiled == 0
       <==> forall i :: 0 <= i <= |events| ==> MisfiledAt(site, events, i) == 0
  {
    AfterFollows(site, events);
    PageEndedGrows(After(site, events).value);
    assert events[..|events|] == events;
    AfterMisfiles(site, events);
    NothingMisfiledNowhere(site, events);
  }

  lemma LastEventMisfiles(site: Site, events: seq<Event>)
    requires events != [] && After(site, events).Success?
    ensures var init, last := events[..|events| - 1], |events| - 1;
            && After(site, init).Success?
            && After(site, events).value.setting.misfiled
               == After(site, init).value.setting.misfiled + MisfiledAt(site, events, last)
  {
    var init := events[..|events| - 1];
    AfterFollows(site, init);
    HappenedGrows(After(site, init).value, events[|events| - 1]);
  }

  lemma {:induction false} AfterMisfiles(site: Site, events: seq<Event>)
    requires After(site, events).Success?
    ensures After(site, events).value.setting.misfiled == AllMisfiled(site, events)
  {
    if events != [] {
      LastEventMisfiles(site, events);
      AfterMisfiles(site, events[..|events| - 1]);
    }
  }

  lemma MisfiledEarlier(site: Site, events: seq<Event>, i: nat)
    requires i + 1 < |events|
    ensures MisfiledAt(site, events[..|events| - 1], i) == MisfiledAt(site, events, i)
  {
    assert events[..|events| - 1][..i] == events[..i];
  }

  lemma {:induction false} MisfiledCounts(site: Site, events: seq<Event>, i: nat)
    requires i < |events|
    ensures MisfiledAt(site, events, i) <= AllMisfiled(site, events)
  {
    if i + 1 < |events| {
      MisfiledEarlier(site, events, i);
      MisfiledCounts(site, events[..|events| - 1], i);
    }
  }

  lemma {:induction false} MisfiledSomewhere(site: Site, events: seq<Event>) returns (i: nat)
    requires AllMisfiled(site, events) != 0
    ensures i < |events| && MisfiledAt(site, events, i) != 0
  {
    i := |events| - 1;
    if MisfiledAt(site, events, i) == 0 {
      i := MisfiledSomewhere(site, events[..|events| - 1]);
      MisfiledEarlier(site, events, i);
    }
  }

  lemma NothingMisfiledNowhere(site: Site, events: seq<Event>)
    ensures AllMisfiled(site, events) == 0 <==> forall i :: 0 <= i < |events| ==> MisfiledAt(site, events, i) == 0
  {
    if AllMisfiled(site, events) != 0 {
      var i := MisfiledSomewhere(site, events);
    }
    forall i | 0 <= i < |events|
      ensures MisfiledAt(site, events, i) <= AllMisfiled(site, events)
    {
      MisfiledCounts(site, events, i);
    }
  }

  /** A page without tables misfiles no run. */
  lemma NoTableNothingMisfiled(site: Site, events: seq<Event>)
    requires Page(site, events).Success? && forall i :: 0 <= i < |events| ==> !OpensTable(events[i])
    ensures Page(site, events).value.setting.misfiled == 0
  {
    MisfilesExactlyAtCells(site, events);
    forall i | 0 <= i <= |events|
      ensures MisfiledAt(site, events, i) == 0
    {
      AfterPrefix(site, events, i);
      NoTableAfter(site, events[..i]);
    }
  }

  lemma {:induction false} NoTableAfter(site: Site, events: seq<Event>)
    requires After(site, events).Success? && forall i :: 0 <= i < |events| ==> !OpensTable(events[i])
    ensures After(site, events).value.grids.table.None?
  {
    if events != [] {
      var init := events[..|events| - 1];
      assert forall i :: 0 <= i < |init| ==> init[i] == events[i];
      NoTableAfter(site, init);
      AfterFollows(site, init);
      HappenedGrows(After(site, init).value, events[|events| - 1]);
    }
  }

  // --- numbered lists -------------------------------------------------------------------------------------------

  /** How many lists are open after these events. */
  ghost function Nesting(events: seq<Event>): nat {
    if events == [] then 0
    else
      var init, last := events[..|events| - 1], events[|events| - 1];
      var n, m := Nesting(init), ModeAfter(init);
      if m.inSelect || m.button.Some? then n
      else if last.StartTag? && last.tag.name.ListTag? then (if n < MAX_NESTING_DEPTH then n + 1 else n)
      else if last.EndTag? && last.name.ListTag? then (if n > 0 then n - 1 else n)
      else n
  }

  lemma {:induction false} NestingIsTold(events: seq<Event>)
    ensures |ListsAfter(events)| == Nesting(events)
  {
    if events != [] {
      NestingIsTold(events[..|events| - 1]);
    }
  }

  /** Event `k` is an item of the list open at this depth. */
  ghost predicate ItemAt(events: seq<Event>, depth: nat, k: nat) {
    && k < |events| && events[k].StartTag? && events[k].tag.name.ItemTag?
    && !ModeAfter(events[..k]).inSelect && ModeAfter(events[..k]).button.None? && Nesting(events[..k]) == depth + 1
  }

  /** How many items the list open at this depth got from event `from` on. */
  ghost function Items(events: seq<Event>, depth: nat, from: nat): nat {
    if |events| <= from then 0
    else Items(events[..|events| - 1], depth, from) + if ItemAt(events, depth, |events| - 1) then 1 else 0
  }

  /** Event `i` opens a list inside `depth` others, and nothing since has closed it. */
  ghost predicate InList(events: seq<Event>, depth: nat, i: nat, ordered: bool) {
    && i < |events| && events[i].StartTag? && events[i].tag.name == ListTag(ordered)
    && !ModeAfter(events[..i]).inSelect && ModeAfter(events[..i]).button.None?
    && Nesting(events[..i]) == depth < MAX_NESTING_DEPTH
    && forall k :: i < k <= |events| ==> Nesting(events[..k]) > depth
  }

  lemma StillInList(events: seq<Event>, depth: nat, i: nat, ordered: bool)
    requires InList(events, depth, i, ordered) && i + 1 < |events|
    ensures InList(events[..|events| - 1], depth, i, ordered) && Nesting(events) > depth
  {
    var init := events[..|events| - 1];
    assert init[..i] == events[..i];
    forall k | i < k <= |init|
      ensures Nesting(init[..k]) > depth
    {
      assert init[..k] == events[..k];
    }
    assert events[..|events|] == events;
  }

  /** Only an item of an ordered list changes the list. */
  lemma LevelAfter(events: seq<Event>, depth: nat)
    requires events != [] && depth < Nesting(events[..|events| - 1]) && depth < Nesting(events)
    ensures depth < |ListsAfter(events[..|events| - 1])| && depth < |ListsAfter(events)|
    ensures var was := ListsAfter(events[..|events| - 1])[depth];
            ListsAfter(events)[depth]
            == if was.ordered && ItemAt(events, depth, |events| - 1)
                then ListLevel(true, SaturatingAdd32(was.nextNumber)) else was
  {
    NestingIsTold(events);
    NestingIsTold(events[..|events| - 1]);
  }

  lemma ListIsOpened(events: seq<Event>, depth: nat, i: nat, ordered: bool)
    requires InList(events, depth, i, ordered) && i + 1 == |events|
    ensures ListsAfter(events) == ListsAfter(events[..i]) + [ListLevel(ordered, 1)]
            && |ListsAfter(events[..i])| == depth
  {
    NestingIsTold(events[..i]);
  }

  /** An ordered list counts its items, and nothing else, whatever lists are nested in it; other lists do not
      count. */
  lemma {:induction false} ListCountsItems(events: seq<Event>, depth: nat, i: nat, ordered: bool)
    requires InList(events, depth, i, ordered)
    ensures depth < |ListsAfter(events)|
    ensures ListsAfter(events)[depth]
         == ListLevel(ordered, if ordered then Min(1 + Items(events, depth, i + 1), 0xFFFF_FFFF) else 1)
  {
    if i + 1 < |events| {
      StillInList(events, depth, i, ordered);
      ListCountsItems(events[..|events| - 1], depth, i, ordered);
      NestingIsTold(events[..|events| - 1]);
      LevelAfter(events, depth);
    } else {
      ListIsOpened(events, depth, i, ordered);
    }
  }

  /** The items of an ordered list are numbered 1, 2, 3 and so on as far as 32 bits go, and those of another list
      are bulleted. */
  lemma ItemsAreMarked(site: Site, events: seq<Event>, item: Event, depth: nat, i: nat, ordered: bool)
    requires After(site, events + [item]).Success?
    requires InList(events, depth, i, ordered) && ItemAt(events + [item], depth, |events|)
    ensures After(site, events + [item]).value.setting.openKind
         == Some(ListItem(depth, if ordered then Number(Min(1 + Items(events, depth, i + 1), 0xFFFF_FFFF)) else Bullet))
  {
    ReadsOn(Start(site), events, item);
    assert (events + [item])[..|events|] == events;
    AfterFollows(site, events);
    NestingIsTold(events);
    ListCountsItems(events, depth, i, ordered);
    ItemOfLevel(After(site, events).value, item.tag, depth, ListsAfter(events)[depth]);
  }

  lemma ItemOfLevel(d: Draft, tag: Tag, depth: nat, level: ListLevel)
    requires tag.name.ItemTag? && d.fields.select.None? && d.fields.button.None? && Happened(d, StartTag(tag)).Success?
    requires |d.rest.lists| == depth + 1 <= 256 && d.rest.lists[depth] == level
    ensures Happened(d, StartTag(tag)).value.setting.openKind
         == Some(ListItem(depth, if level.ordered then Number(level.nextNumber) else Bullet))
  {
    ItemOpensItem(d, tag);
  }

  /** An item outside all lists is bulleted too. */
  lemma ItemOpensItem(d: Draft, tag: Tag)
    requires tag.name.ItemTag? && d.fields.select.None? && d.fields.button.None? && Happened(d, StartTag(tag)).Success?
    requires |d.rest.lists| <= 256
    ensures var lists := d.rest.lists;
            Happened(d, StartTag(tag)).value.setting.openKind
            == Some(if lists == [] then ListItem(0, Bullet)
                    else ListItem(|lists| - 1,
                        if lists[|lists| - 1].ordered then Number(lists[|lists| - 1].nextNumber) else Bullet))
  {
  }

  // --- images -----------------------------------------------------------------------------------------------------

  /** What an image shows is in square brackets: its words, or in preformatted text all that is kept. */
  function Bracketed(shown: string, pre: bool): Text {
    [0x5B] + (if pre then Pour(Flow([], false, false), true, shown).out else Join(Words(shown))) + [0x5D]
  }

  lemma BracketedIsPoured(alt: Option<string>, pre: bool)
    ensures Bracketed(Shown(alt), pre) == [0x5B] + Pour(Flow([], false, false), pre, Shown(alt)).out + [0x5D]
  {
    if !pre {
      WordsAnywhere(Shown(alt));
    }
  }

  /** No control takes the text, nor does a title. */
  ghost predicate InBody(d: Draft) {
    d.fields.select.None? && d.fields.textarea.None? && d.fields.button.None? && !d.setting.inTitle
  }

  /** Nothing but the text was written, and the body still takes more. */
  ghost predicate Took(d: Draft, a: Draft, f: Flow) {
    && Flowing(a) == f && InBody(a) && a.setting.preformatted == d.setting.preformatted
    && a.dress == d.dress && a.grids == d.grids && a.rest == d.rest
  }

  lemma WroteSays(d: Draft, f: Flow)
    requires Wrote(d, f).Success? && InBody(d) && d.copy.text <= f.out
    ensures Took(d, Wrote(d, f).value, f)
  {
    WroteFlows(d, f);
  }

  lemma RunEndedSays(d: Draft)
    requires RunEnded(d).Success? && InBody(d)
    ensures Took(d, RunEnded(d).value, Flowing(d))
  {
  }

  lemma DetachedSays(d: Draft)
    requires Detached(d).Success? && InBody(d)
    ensures var a := Detached(d).value; Took(d, a, Flowing(a)) && a.copy.text == d.copy.text
    ensures Detached(d).value.setting.atBlockStart == (d.grids.table.None? || d.setting.atBlockStart)
  {
    if d.grids.table.Some? {
      RunEndedSays(d);
    }
  }

  /** What parts an image from the text before it. */
  ghost function Gap(d: Draft): Text {
    if d.grids.table.Some? && !d.setting.atBlockStart then [SPACE] else []
  }

  lemma SeparatedSays(d: Draft)
    requires Separated(d).Success? && InBody(d)
    ensures var a := Separated(d).value;
            Took(d, a, Flowing(a)) && a.copy.text == d.copy.text + Gap(d) && !a.setting.pendingSpace
  {
    DetachedSays(d);
    var e := Spaced(Detached(d).value, true);
    WroteSays(e, Flush(Flowing(e)));
  }

  lemma WordSays(d: Draft, shown: string)
    requires ImageWritten(d, shown).Success? && InBody(d) && !d.setting.pendingSpace
    ensures var a := ImageWritten(d, shown).value;
            && Took(d, a, Flowing(a))
            && a.copy.text
                == d.copy.text + ([0x5B] + Pour(Flow([], false, false), d.setting.preformatted, shown).out + [0x5D])
  {
    WordBegunSays(d, shown);
    WordEndedSays(WordBegun(d, shown).value);
  }

  lemma WordBegunSays(d: Draft, shown: string)
    requires WordBegun(d, shown).Success? && InBody(d) && !d.setting.pendingSpace
    ensures var a := WordBegun(d, shown).value;
            && Took(d, a, Flowing(a))
            && a.copy.text == d.copy.text + ([0x5B] + Pour(Flow([], false, false), d.setting.preformatted, shown).out)
  {
    WroteSays(d, Flow(d.copy.text + [0x5B], false, false));
    var open := Lettered(d, '[').value;
    PourShift(open.copy.text, false, d.setting.preformatted, shown);
    WroteSays(open, Pour(Flowing(open), d.setting.preformatted, shown));
  }

  lemma WordEndedSays(d: Draft)
    requires WordEnded(d).Success? && InBody(d)
    ensures var a := WordEnded(d).value; Took(d, a, Flowing(a)) && a.copy.text == d.copy.text + [0x5D]
  {
    WroteSays(d, Flow(d.copy.text + [0x5D], d.setting.pendingSpace, false));
    RunEndedSays(Lettered(d, ']').value);
  }

  lemma ImageLeftSays(d: Draft)
    requires ImageLeft(d).Success?
    ensures ImageLeft(d).value.copy.text == d.copy.text && ImageLeft(d).value.rest == d.rest
  {
  }

  /** An image that is kept stands for exactly its text in square brackets; before that nothing but the space
      that parts it from what it follows is new. */
  lemma ImageSaysItsText(d: Draft, tag: Tag)
    requires tag.name.ImageTag? && Happened(d, StartTag(tag)).Success? && InBody(d) && |d.rest.images| < MAX_IMAGES
    ensures var a, before := Happened(d, StartTag(tag)).value, d.copy.text + Gap(d);
            && a.copy.text == before + Bracketed(Shown(tag.alt), d.setting.preformatted)
            && a.rest.images == d.rest.images + [Image(|before|, |a.copy.text|, d.dress.link)]
  {
    ImageIsAdded(d, tag);
    ImageAddedSays(d, tag.alt);
    BracketedIsPoured(tag.alt, d.setting.preformatted);
  }

  lemma ImageIsAdded(d: Draft, tag: Tag)
    requires tag.name.ImageTag? && InBody(d)
    ensures Happened(d, StartTag(tag)) == ImageAdded(d, tag.alt)
  {
    ImageStarts(d, tag);
    ImageIsContent(d, tag);
  }

  lemma ImageStarts(d: Draft, tag: Tag)
    requires tag.name.ImageTag? && InBody(d)
    ensures Happened(d, StartTag(tag)) == ContentStarted(d, tag)
  {
    var was := ContentStarted(d, tag);
    assert !Tabular(d.grids.table, tag.name) && StartedOutside(d, tag) == was;
  }

  lemma ImageIsContent(d: Draft, tag: Tag)
    requires tag.name.ImageTag?
    ensures ContentStarted(d, tag) == ImageAdded(d, tag.alt)
  {
    var added := ImageAdded(d, tag.alt);
    assert !IsBlocky(tag.name);
    assert ContentStarted(d, tag) == added;
  }

  lemma ImageDrawnSays(d: Draft, shown: string)
    requires ImageDrawn(d, shown).Success? && InBody(d) && !d.setting.pendingSpace && |d.rest.images| < MAX_IMAGES
    ensures var a := ImageDrawn(d, shown).value;
            && a.copy.text
                == d.copy.text + ([0x5B] + Pour(Flow([], false, false), d.setting.preformatted, shown).out + [0x5D])
            && a.rest.images == d.rest.images + [Image(|d.copy.text|, |a.copy.text|, d.dress.link)]
  {
    WordSays(ImageListed(d), shown);
  }

  lemma ImageAddedSays(d: Draft, alt: Option<string>)
    requires ImageAdded(d, alt).Success? && InBody(d) && |d.rest.images| < MAX_IMAGES
    ensures var a, before, shown := ImageAdded(d, alt).value, d.copy.text + Gap(d), Shown(alt);
            && a.copy.text
                == before + ([0x5B] + Pour(Flow([], false, false), d.setting.preformatted, shown).out + [0x5D])
            && a.rest.images == d.rest.images + [Image(|before|, |a.copy.text|, d.dress.link)]
  {
    SeparatedSays(d);
    var e, shown := Separated(d).value, Shown(alt);
    ImageDrawnSays(e, shown);
    ImageLeftSays(ImageDrawn(e, shown).value);
  }

  // --- text in pieces -------------------------------------------------------------------------------------------

  /** Text handed over in two pieces does what it does in one, and fails as it does in one: in the body, in a
      title, preformatted, in a textarea, an option or a button. */
  lemma TextedInPieces(d: Draft, a: string, b: string)
    ensures Texted(d, a + b) == (var m :- Texted(d, a); Texted(m, b))
  {
    if d.fields.select.Some? {
      OptionTextedInPieces(d, a, b);
    } else if d.fields.textarea.Some? {
      CutsDoNotMatter(AddToTextarea, d.fields.textarea.value, a, b);
    } else if d.fields.button.Some? {
      ButtonTextedInPieces(d, a, b);
    } else {
      BodyTextedInPieces(d, a, b);
    }
  }

  lemma {:induction false} CaptionNotAtStart(f: Flow, text: string)
    ensures Fold(AddCaption, f, text).atStart == f.atStart
  {
    if text != "" {
      CaptionNotAtStart(f, text[..|text| - 1]);
    }
  }

  lemma OptionTextedInPieces(d: Draft, a: string, b: string)
    requires d.fields.select.Some?
    ensures Texted(d, a + b) == (var m :- Texted(d, a); Texted(m, b))
  {
    if d.fields.select.value.option.Some? {
      var option := d.fields.select.value.option.value;
      var f := Flow(option.text, option.pendingSpace, false);
      CutsDoNotMatter(AddCaption, f, a, b);
      CaptionAppends(f, a, b);
      CaptionNotAtStart(f, a);
    }
  }

  lemma ButtonTextedInPieces(d: Draft, a: string, b: string)
    requires d.fields.select.None? && d.fields.textarea.None? && d.fields.button.Some?
    ensures Texted(d, a + b) == (var m :- Texted(d, a); Texted(m, b))
  {
    var button := d.fields.button.value;
    var f := Flow(button.text, button.pendingSpace, false);
    CutsDoNotMatter(AddCaption, f, a, b);
    CaptionAppends(f, a, b);
    CaptionNotAtStart(f, a);
  }

  lemma BodyTextedInPieces(d: Draft, a: string, b: string)
    requires d.fields.select.None? && d.fields.textarea.None? && d.fields.button.None?
    ensures Texted(d, a + b) == (var m :- Texted(d, a); Texted(m, b))
  {
    var f, pre := Flowing(d), d.setting.preformatted;
    PourAppends(f, pre, "", a);
    PourAppends(f, pre, a, b);
    assert "" + a == a;
    CutsDoNotMatter(if pre then AddVerbatim else Add, f, a, b);
    WroteTwice(d, Pour(f, pre, a), Pour(f, pre, a + b));
    if Texted(d, a).Success? {
      WroteFlows(d, Pour(f, pre, a));
      PourKeepsStart(f, pre, a);
      WroteOnward(d, Pour(f, pre, a));
    }
  }

  /** A page that stops stays stopped. */
  lemma {:induction false} FailuresStay(site: Site, events: seq<Event>, i: nat)
    requires i <= |events| && After(site, events[..i]).Failure?
    ensures Page(site, events) == After(site, events[..i]) == After(site, events)
  {
    if i < |events| {
      assert events[..|events| - 1][..i] == events[..i];
      FailuresStay(site, events[..|events| - 1], i);
    } else {
      assert events[..i] == events;
    }
  }

  lemma {:induction false} ReadAppends(d: Draft, first: seq<Event>, then_: seq<Event>)
    ensures Read(d, first + then_) == (var m :- Read(d, first); Read(m, then_))
  {
    if then_ == [] {
      assert first + then_ == first;
    } else {
      var init := then_[..|then_| - 1];
      assert (first + then_)[..|first + then_| - 1] == first + init;
      ReadAppends(d, first, init);
    }
  }

  /** A page is the same, errors included, wherever its text was cut into pieces. */
  lemma CutsMakeNoDifference(site: Site, before: seq<Event>, a: string, b: string, after: seq<Event>)
    ensures Page(site, before + [Characters(a + b)] + after)
              == Page(site, before + [Characters(a), Characters(b)] + after)
  {
    var whole, pieces := [Characters(a + b)], [Characters(a), Characters(b)];
    ReadAppends(Start(site), before + whole, after);
    ReadAppends(Start(site), before + pieces, after);
    ReadAppends(Start(site), before, whole);
    ReadAppends(Start(site), before, pieces);
    if After(site, before).Success? {
      var d := After(site, before).value;
      TextedInPieces(d, a, b);
      assert whole[..0] == [] && pieces[..1] == [Characters(a)] && pieces[..1][..0] == [];
      assert Read(d, pieces) == (var m :- Read(d, [Characters(a)]); Happened(m, Characters(b)));
      assert Read(d, [Characters(a)]) == Happened(d, Characters(a));
    }
  }

  // --- where the promises end -------------------------------------------------------------------------------------

  /** A start tag without attributes. */
  function Bare(name: Name): Event {
    StartTag(Tag(name, None, None, None, None, None, None, None, None, None, None, false, false, false, false))
  }

  /** One event more. */
  lemma ReadsOn(d: Draft, events: seq<Event>, event: Event)
    ensures Read(d, events + [event]) == (var m :- Read(d, events); Happened(m, event))
  {
    assert (events + [event])[..|events|] == events;
  }

  lemma OneCharacter(f: Flow, pre: bool, c: char)
    ensures Pour(f, pre, [c]) == Step(f, pre, c)
  {
    PourOneMore(f, pre, [c], 0);
    assert [c][..1] == [c] && [c][..0] == "";
  }

  /** These events lead from one draft to another. */
  ghost predicate Leads(start: Draft, events: seq<Event>, end: Draft) {
    var ok := Read(start, events) == Success(end);
    ok
  }

  lemma LeadsOn(start: Draft, events: seq<Event>, middle: Draft, event: Event, end: Draft)
    requires Leads(start, events, middle) && Happened(middle, event) == Success(end)
    ensures Leads(start, events + [event], end)
  {
    ReadsOn(start, events, event);
  }

  /** `x`, where nothing is yet but perhaps a table. */
  lemma LetterOnEmptyPage(d: Draft, site: Site)
    requires d == Start(site).(grids := d.grids)
    ensures var a := Happened(d, Characters("x"));
            && a.Success? && a.value.copy.text == Utf8('x') && a.value.copy.runOpen && a.value.copy.runStart == 0
            && a.value.copy.runs == []
            && a.value.copy.lost == 0 && a.value.setting.blocks == [] && a.value.setting.openKind == Some(Paragraph)
            && a.value.setting.openFirstRun == 0 && a.value.setting.openFirstControl == 0
            && !a.value.setting.pendingSpace
            && a.value.setting.misfiled == 0 && a.value.dress == d.dress
            && a.value.fields == d.fields && a.value.grids == d.grids && a.value.rest == d.rest
  {
    OneCharacter(Flowing(d), false, 'x');
  }

  /** `x</title>`: the letter is in the text and in no run. */
  lemma StrayTitleLosesText(site: Site)
    ensures var page := Page(site, [Characters("x"), EndTag(TitleTag)]);
            page.Success? && page.value.copy.text == Utf8('x') && page.value.copy.runs == []
                && page.value.copy.lost == 1
  {
    LetterOnEmptyPage(Start(site), site);
    var e := Happened(Start(site), Characters("x")).value;
    LeadsOn(Start(site), [], Start(site), Characters("x"), e);
    StrayTitleEnds(site, [] + [Characters("x")], e);
    assert [] + [Characters("x")] + [EndTag(TitleTag)] == [Characters("x"), EndTag(TitleTag)];
  }

  lemma StrayTitleEnds(site: Site, events: seq<Event>, e: Draft)
    requires Leads(Start(site), events, e) && e.fields == Start(site).fields && e.grids == Start(site).grids
             && e.rest == Start(site).rest
    requires e.copy.runOpen && e.copy.runStart == 0 && |e.copy.text| == 1 && e.copy.runs == [] && e.copy.lost == 0
    requires e.setting.blocks == [] && e.setting.openKind == Some(Paragraph) && e.setting.openFirstRun == 0
             && e.setting.openFirstControl == 0
    ensures var page := Page(site, events + [EndTag(TitleTag)]);
            page.Success? && page.value.copy.text == e.copy.text && page.value.copy.runs == []
                && page.value.copy.lost == 1
  {
    LeadsOn(Start(site), events, e, EndTag(TitleTag), TitleEnded(e));
  }

  /** `<table><td><h1>x</h1></td>` */
  const CELL_WITH_HEADING: seq<Event> :=
    [Bare(TableTag), Bare(CellTag(false)), Bare(HeadingTag(1)), Characters("x"), EndTag(HeadingTag(1)),
     EndTag(CellTag(false))]

  /** `<table>`, where nothing is yet. */
  lemma TableOnEmptyPage(site: Site)
    ensures var a := Happened(Start(site), Bare(TableTag));
            && a.Success? && a.value.grids == Grids([Table(0, 0, 0, 0, 0)], [], [], Some(NewTable(0, 0, 0)))
            && a.value == Start(site).(grids := a.value.grids)
  {
  }

  /** `<td>` in an empty table. */
  lemma CellInEmptyTable(d: Draft)
    requires d.grids == Grids([Table(0, 0, 0, 0, 0)], [], [], Some(NewTable(0, 0, 0))) && Count(d) < MAX_ITEMS
    requires d.fields.select.None? && d.fields.button.None?
    ensures var a := Happened(d, Bare(CellTag(false)));
            && a.Success? && Count(a.value) == Count(d) + 1
            && a.value.grids.table.Some? && a.value.grids.table.value.openCell.Some?
            && a.value.grids.table.value.nested == 0
            && a.value == CellHoused(d).(grids := a.value.grids)
  {
    var row := RowBegun(d).value;
    assert row.grids.table.value.occupied == NextRow(Clear());
    assert Fits(NextRow(Clear()), 0, 1);
  }

  /** `<h1>x</h1>` in an empty cell. */
  lemma HeadingInEmptyCell(d: Draft, site: Site)
    requires d == CellHoused(Start(site)).(grids := d.grids) && Count(d) == 2
    requires d.grids.table.Some? && d.grids.table.value.openCell.Some? && d.grids.table.value.nested == 0
    ensures var a := Happened(d, Bare(HeadingTag(1)));
            && a.Success? && var b := Happened(a.value, Characters("x"));
            && b.Success? && var c := Happened(b.value, EndTag(HeadingTag(1)));
            && c.Success? && Count(c.value) == 4 && c.value.grids == d.grids && c.value.setting.openKind.None?
            && !c.value.copy.runOpen
            && c.value.copy.runs == [Run(0, 1, PLAIN, None)]
            && c.value.setting.blocks == [Block(Heading(1), 0, 1, 0, 0)]
            && c.value.setting.openFirstRun == 0 && c.value.setting.misfiled == 0
            && c.value.fields == d.fields && c.value.rest == d.rest
  {
    HeadingOpens(d, site);
    var a := Happened(d, Bare(HeadingTag(1))).value;
    OneCharacter(Flowing(a), false, 'x');
    var b := Happened(a, Characters("x")).value;
    assert b.copy.text == Utf8('x') && b.copy.runOpen && b.copy.runStart == 0;
  }

  lemma HeadingOpens(d: Draft, site: Site)
    requires d == CellHoused(Start(site)).(grids := d.grids) && CellOpen(d.grids) && d.grids.table.value.nested == 0
    ensures Happened(d, Bare(HeadingTag(1))) == Success(d.(setting := d.setting.(openKind := Some(Heading(1)))))
  {
  }

  /** No control and no label is left to end. */
  ghost predicate OnlyBodyOpen(d: Draft) {
    d.fields.button.None? && d.fields.textarea.None? && d.fields.select.None? && d.rest.labelOpen.None?
  }

  lemma OnlyBodyEnds(d: Draft)
    requires OnlyBodyOpen(d)
    ensures PageEnded(d) == BodyEnded(d)
  {
    assert FieldsEnded(d.fields) == d.fields;
    assert d.(fields := d.fields) == d && LabelEnded(d) == Success(d);
  }

  /** With no block and no cell open only the table ends. */
  lemma NothingInBodyEnds(d: Draft)
    requires d.setting.openKind.None? && !d.copy.runOpen && !CellOpen(d.grids)
    ensures BodyEnded(d) == Success(d.(grids := TableDone(d.grids)))
  {
    assert TableEnded(d) == Success(d.(grids := TableDone(d.grids)));
    assert d.copy.(runOpen := false) == d.copy;
  }

  /** The open cell is filed with its block. */
  lemma OpenCellIsFiled(d: Draft)
    requires CellOpen(d.grids) && !d.copy.runOpen && Count(d) + 2 <= MAX_ITEMS
    ensures CellFiled(d) == Success(CellClosed(d, d.grids.table.value.openCell.value))
  {
    assert d.copy.(runOpen := false) == d.copy;
    assert RunEnded(d) == Success(d);
  }

  lemma CellClosedIs(d: Draft, cell: OpenCell)
    requires d.grids.table.Some?
    ensures var a, block := CellClosed(d, cell), CellBlockOf(d, cell);
            && a.copy == d.copy && a.setting.blocks == d.setting.blocks + [block] && a.setting.openKind.None?
            && a.setting.misfiled == d.setting.misfiled + (if d.setting.openKind.None? then block.runCount else 0)
            && !CellOpen(a.grids) && a.fields == d.fields && a.rest == d.rest
  {
  }

  /** `</td>` once the heading is closed. */
  lemma CellEndsAfterHeading(d: Draft)
    requires Count(d) <= 4 && OnlyBodyOpen(d) && CellOpen(d.grids) && d.grids.table.value.nested == 0
    requires d.setting.openKind.None? && !d.copy.runOpen && d.setting.openFirstRun == 0 && d.setting.misfiled == 0
    requires |d.copy.runs| == 1 && d.setting.blocks == [Block(Heading(1), 0, 1, 0, 0)]
    ensures var a := Happened(d, EndTag(CellTag(false)));
            && a.Success? && PageEnded(a.value).Success?
            && var page := PageEnded(a.value).value;
               && page.copy.runs == d.copy.runs && page.setting.misfiled == 1
               && |page.setting.blocks| == 2 && page.setting.blocks[0] == d.setting.blocks[0]
               && page.setting.blocks[1].firstRun == 0 && page.setting.blocks[1].runCount == 1
  {
    CellEndFiles(d);
    OpenCellIsFiled(d);
    CellClosedIs(d, d.grids.table.value.openCell.value);
    var a := CellClosed(d, d.grids.table.value.openCell.value);
    OnlyBodyEnds(a);
    NothingInBodyEnds(a);
  }

  lemma CellEndFiles(d: Draft)
    requires OnlyBodyOpen(d) && CellOpen(d.grids) && d.grids.table.value.nested == 0
    ensures Happened(d, EndTag(CellTag(false))) == CellFiled(d)
  {
    var filed := CellFiled(d);
    assert ElementClosed(d, CellTag(false)) == filed;
  }

  lemma CellLeads(site: Site) returns (d: Draft)
    ensures Leads(Start(site), [] + [Bare(TableTag)] + [Bare(CellTag(false))], d)
    ensures d == CellHoused(Start(site)).(grids := d.grids) && Count(d) == 2
    ensures d.grids.table.Some? && d.grids.table.value.openCell.Some? && d.grids.table.value.nested == 0
  {
    TableOnEmptyPage(site);
    var table := Happened(Start(site), Bare(TableTag)).value;
    CellInEmptyTable(table);
    d := Happened(table, Bare(CellTag(false))).value;
    LeadsOn(Start(site), [], Start(site), Bare(TableTag), table);
    LeadsOn(Start(site), [] + [Bare(TableTag)], table, Bare(CellTag(false)), d);
  }

  lemma HeadingLeads(start: Draft, events: seq<Event>, d: Draft, site: Site) returns (c: Draft)
    requires Leads(start, events, d) && d == CellHoused(Start(site)).(grids := d.grids) && Count(d) == 2
    requires d.grids.table.Some? && d.grids.table.value.openCell.Some? && d.grids.table.value.nested == 0
    ensures Leads(start, events + [Bare(HeadingTag(1))] + [Characters("x")] + [EndTag(HeadingTag(1))], c)
    ensures Count(c) == 4 && c.grids == d.grids && c.setting.openKind.None? && !c.copy.runOpen
    ensures c.copy.runs == [Run(0, 1, PLAIN, None)] && c.setting.blocks == [Block(Heading(1), 0, 1, 0, 0)]
    ensures c.setting.openFirstRun == 0 && c.setting.misfiled == 0 && c.fields == d.fields && c.rest == d.rest
  {
    HeadingInEmptyCell(d, site);
    var a := Happened(d, Bare(HeadingTag(1))).value;
    var b := Happened(a, Characters("x")).value;
    c := Happened(b, EndTag(HeadingTag(1))).value;
    ThreeMore(start, events, d, Bare(HeadingTag(1)), a, Characters("x"), b, EndTag(HeadingTag(1)), c);
  }

  lemma ThreeMore(start: Draft, events: seq<Event>, d: Draft, e1: Event, d1: Draft, e2: Event, d2: Draft, e3: Event,
                  d3: Draft)
    requires Leads(start, events, d) && Happened(d, e1) == Success(d1) && Happened(d1, e2) == Success(d2)
             && Happened(d2, e3) == Success(d3)
    ensures Leads(start, events + [e1] + [e2] + [e3], d3)
  {
    LeadsOn(start, events, d, e1, d1);
    LeadsOn(start, events + [e1], d1, e2, d2);
    LeadsOn(start, events + [e1] + [e2], d2, e3, d3);
  }

  /** A heading closes the cell's block; its run is then filed a second time, as the cell's. */
  lemma HeadingInACell(site: Site)
    ensures var page := Page(site, CELL_WITH_HEADING);
            && page.Success? && page.value.setting.misfiled == 1
            && var run := Run(0, 1, PLAIN, None);
               page.value.copy.runs == [run] && SliceRuns(page.value.setting.blocks, page.value.copy.runs) == [run, run]
  {
    var events, d := CellAndHeadingLead(site);
    CellEndsAfterHeading(d);
    CellEndLeads(site, events, d);
  }

  lemma CellAndHeadingLead(site: Site) returns (events: seq<Event>, d: Draft)
    ensures Leads(Start(site), events, d) && events + [EndTag(CellTag(false))] == CELL_WITH_HEADING
    ensures Count(d) == 4 && OnlyBodyOpen(d) && CellOpen(d.grids) && d.grids.table.value.nested == 0
    ensures d.copy.runs == [Run(0, 1, PLAIN, None)] && d.setting.blocks == [Block(Heading(1), 0, 1, 0, 0)]
    ensures d.setting.openKind.None? && !d.copy.runOpen && d.setting.openFirstRun == 0 && d.setting.misfiled == 0
  {
    var cell := CellLeads(site);
    events := [] + [Bare(TableTag)] + [Bare(CellTag(false))];
    d := HeadingLeads(Start(site), events, cell, site);
    events := events + [Bare(HeadingTag(1))] + [Characters("x")] + [EndTag(HeadingTag(1))];
  }

  lemma CellEndLeads(site: Site, events: seq<Event>, d: Draft)
    requires Leads(Start(site), events, d) && |d.copy.runs| == 1
    requires var a := Happened(d, EndTag(CellTag(false)));
             && a.Success? && PageEnded(a.value).Success?
             && var page := PageEnded(a.value).value;
                && page.copy.runs == d.copy.runs && |page.setting.blocks| == 2
                && page.setting.blocks[0].firstRun == 0 && page.setting.blocks[0].runCount == 1
                && page.setting.blocks[1].firstRun == 0 && page.setting.blocks[1].runCount == 1
    ensures var page := Page(site, events + [EndTag(CellTag(false))]);
            && page == PageEnded(Happened(d, EndTag(CellTag(false))).value)
            && SliceRuns(page.value.setting.blocks, page.value.copy.runs) == [d.copy.runs[0], d.copy.runs[0]]
  {
    var a := Happened(d, EndTag(CellTag(false))).value;
    LeadsOn(Start(site), events, d, EndTag(CellTag(false)), a);
    TwoSlices(PageEnded(a).value.setting.blocks, PageEnded(a).value.copy.runs);
  }

  lemma TwoSlices(blocks: seq<Block>, runs: seq<Run>)
    requires |blocks| == 2 && |runs| == 1
    requires blocks[0].firstRun == 0 && blocks[0].runCount == 1 && blocks[1].firstRun == 0 && blocks[1].runCount == 1
    ensures SliceRuns(blocks, runs) == [runs[0], runs[0]]
  {
    assert runs[0..1] == [runs[0]];
    assert SliceRuns(blocks[..1][..0], runs) == [] && SliceRuns(blocks[..1], runs) == [runs[0]];
  }

  /** `<table>x<b><td>` */
  const CELL_OVER_TEXT: seq<Event> := [Bare(TableTag), Characters("x"), Bare(BOLD), Bare(CellTag(false))]

  /** `<b>` after the letter. */
  lemma BoldEndsRun(d: Draft)
    requires d.copy.text == Utf8('x') && d.copy.runOpen && d.copy.runStart == 0 && d.copy.runs == []
             && !d.setting.inTitle
    requires !d.setting.pendingSpace && d.dress.inline == [] && d.dress.style == PLAIN && d.dress.link.None?
             && Count(d) == 1
    requires d.fields.select.None? && d.fields.button.None? && !Tabular(d.grids.table, BOLD)
    ensures var a := Happened(d, Bare(BOLD));
            && a.Success? && a.value.copy.runs == [Run(0, 1, PLAIN, None)] && !a.value.copy.runOpen
            && Count(a.value) == 2
            && a.value.setting == d.setting && a.value.fields == d.fields && a.value.grids == d.grids
            && a.value.rest == d.rest
  {
    assert Flushed(d) == Success(d);
  }

  /** The end of a page whose one cell is empty. */
  lemma EmptyCellEnds(d: Draft)
    requires OnlyBodyOpen(d) && Count(d) <= 3 && CellOpen(d.grids) && !d.copy.runOpen && |d.copy.runs| == 1
    requires d.setting.blocks == [] && d.setting.openKind.Some? && d.setting.openFirstRun == 1
    ensures var page := PageEnded(d);
            && page.Success? && page.value.copy == d.copy && page.value.setting.misfiled == d.setting.misfiled
            && SliceRuns(page.value.setting.blocks, page.value.copy.runs) == []
  {
    OnlyBodyEnds(d);
    OpenCellIsFiled(d);
    CellClosedIs(d, d.grids.table.value.openCell.value);
    var e := CellClosed(d, d.grids.table.value.openCell.value);
    BodyEndsWithCell(d, e);
    assert e.setting.blocks[..0] == [] && |e.setting.blocks| == 1 && e.setting.blocks[0].runCount == 0;
  }

  lemma BodyEndsWithCell(d: Draft, e: Draft)
    requires CellFiled(d) == Success(e) && e.setting.openKind.None? && !e.copy.runOpen && !CellOpen(e.grids)
    ensures BodyEnded(d) == Success(e.(grids := TableDone(e.grids)))
  {
    NothingInBodyEnds(e);
    assert CellFiled(e) == Success(e);
    assert TableEnded(d) == TableEnded(e);
  }

  lemma TextBeforeCell(site: Site) returns (d: Draft)
    ensures Leads(Start(site), [] + [Bare(TableTag)] + [Characters("x")] + [Bare(BOLD)], d)
    ensures d.grids == Grids([Table(0, 0, 0, 0, 0)], [], [], Some(NewTable(0, 0, 0))) && d.fields == Start(site).fields
    ensures d.rest == Start(site).rest && Count(d) == 2 && d.copy.runs == [Run(0, 1, PLAIN, None)] && !d.copy.runOpen
    ensures d.setting.blocks == [] && d.setting.openKind == Some(Paragraph) && d.setting.openFirstRun == 0
            && d.setting.misfiled == 0
  {
    TableOnEmptyPage(site);
    var table := Happened(Start(site), Bare(TableTag)).value;
    LetterOnEmptyPage(table, site);
    var letter := Happened(table, Characters("x")).value;
    BoldEndsRun(letter);
    d := Happened(letter, Bare(BOLD)).value;
    ThreeMore(Start(site), [], Start(site), Bare(TableTag), table, Characters("x"), letter, Bare(BOLD), d);
  }

  /** A cell opened after text that stands in the table but in no cell: the run of that text is filed nowhere. */
  lemma CellOverText(site: Site)
    ensures var page := Page(site, CELL_OVER_TEXT);
            && page.Success? && page.value.setting.misfiled == 1 && page.value.copy.runs == [Run(0, 1, PLAIN, None)]
            && SliceRuns(page.value.setting.blocks, page.value.copy.runs) == []
  {
    var d := TextBeforeCell(site);
    CellInEmptyTable(d);
    var a := Happened(d, Bare(CellTag(false))).value;
    EmptyCellEnds(a);
    var events := [] + [Bare(TableTag)] + [Characters("x")] + [Bare(BOLD)];
    LeadsOn(Start(site), events, d, Bare(CellTag(false)), a);
    assert events + [Bare(CellTag(false))] == CELL_OVER_TEXT;
  }

  // --- a link no frame remembers ------------------------------------------------------------------------------------

  const BOLD := InlineTag(B)

  /** `<b>` as deep as elements nest. */
  function BoldTags(count: nat): seq<Event> {
    if count == 0 then [] else BoldTags(count - 1) + [Bare(BOLD)]
  }

  /** Nothing but bold elements open. */
  ghost predicate AllBold(d: Draft, count: nat) {
    && |d.dress.inline| == |d.dress.saved| == count && d.dress.link.None? && d.dress.links == []
    && d.dress.linkUrlBytes == 0
    && (forall i :: 0 <= i < count ==>
          d.dress.inline[i].name == BOLD && !d.dress.inline[i].setsLink && d.dress.saved[i].link.None?)
    && d.grids.table.None? && d.fields.select.None? && d.fields.button.None? && !d.setting.inTitle
    && !d.copy.runOpen && !d.setting.pendingSpace && |d.copy.text| == 0
  }

  lemma {:induction false} BoldTagsNest(site: Site, count: nat)
    requires count <= MAX_NESTING_DEPTH
    ensures BoldRead(Start(site), BoldTags(count), count)
  {
    if count == 0 {
      NothingBold(site);
    } else {
      BoldTagsNest(site, count - 1);
      BoldTagRead(Start(site), BoldTags(count - 1), count - 1);
    }
  }

  lemma NothingBold(site: Site)
    ensures BoldRead(Start(site), [], 0)
  {
  }

  /** These events leave nothing but bold elements open. */
  ghost predicate BoldRead(start: Draft, events: seq<Event>, count: nat) {
    var a := Read(start, events);
    var ok := a.Success? && AllBold(a.value, count) && a.value.rest == start.rest;
    ok
  }

  lemma BoldTagRead(start: Draft, events: seq<Event>, count: nat)
    requires BoldRead(start, events, count) && count < MAX_NESTING_DEPTH
    ensures BoldRead(start, events + [Bare(BOLD)], count + 1)
  {
    ReadsOn(start, events, Bare(BOLD));
    OneMoreBold(Read(start, events).value, count);
  }

  lemma OneMoreBold(d: Draft, count: nat)
    requires AllBold(d, count) && count < MAX_NESTING_DEPTH
    ensures var a := Happened(d, Bare(BOLD)); a.Success? && AllBold(a.value, count + 1) && a.value.rest == d.rest
  {
  }

  function Anchor(href: Text): Event {
    StartTag(Bare(AnchorTag).tag.(href := Some(href)))
  }

  /** `<a href>` where elements nest as deep as they may. */
  lemma LinkAtFullDepth(d: Draft, href: Text)
    requires AllBold(d, MAX_NESTING_DEPTH)
    requires d.rest.resolve(href).Some? && d.rest.ownedBytes(d.rest.resolve(href).value) <= MAX_LINK_URL_BYTES
    ensures var a := Happened(d, Anchor(href));
            && a.Success? && a.value.dress.inline == d.dress.inline && a.value.dress.saved == d.dress.saved
            && a.value.dress.link == Some(0) && (forall i :: 0 <= i < MAX_NESTING_DEPTH ==> i in a.value.dress.spoiled)
            && a.value == d.(dress := a.value.dress)
  {
    NoLinkOnTop(d.dress.inline);
  }

  /** `</b>` once the link is set. */
  lemma BoldClosesOverLink(d: Draft)
    requires AllBold(d.(dress := d.dress.(link := None, links := [], linkUrlBytes := 0)), MAX_NESTING_DEPTH)
             && d.dress.link == Some(0)
    ensures var a := Happened(d, EndTag(BOLD));
            a.Success? && a.value.dress.link == Some(0) && |a.value.dress.inline| == MAX_NESTING_DEPTH - 1
  {
    NoLinkOnTop(d.dress.inline);
    var index := Innermost(d.dress.inline, BOLD);
    assert index == MAX_NESTING_DEPTH - 1;
    LinkShowsAbove(d.dress.inline, Some(0), None, index);
  }

  /** Where elements nest as deep as they may, a link outlives the element it was set in, and that element's
      closing brings nothing back: its frame is spoiled. */
  lemma LinkOutlivesItsElement(site: Site, href: Text)
    requires site.resolve(href).Some? && site.ownedBytes(site.resolve(href).value) <= MAX_LINK_URL_BYTES
    ensures var deep := After(site, BoldTags(MAX_NESTING_DEPTH));
            && deep.Success? && deep.value.dress.link.None?
            && var linked := Happened(deep.value, Anchor(href));
            && linked.Success? && (forall i :: 0 <= i < MAX_NESTING_DEPTH ==> i in linked.value.dress.spoiled)
            && var closed := Happened(linked.value, EndTag(BOLD));
            && closed.Success? && closed.value.dress.link == Some(0)
            && |closed.value.dress.inline| == MAX_NESTING_DEPTH - 1
  {
    BoldTagsNest(site, MAX_NESTING_DEPTH);
    var deep := After(site, BoldTags(MAX_NESTING_DEPTH)).value;
    LinkAtFullDepth(deep, href);
    BoldClosesOverLink(Happened(deep, Anchor(href)).value);
  }

  lemma {:induction false} NoLinkOnTop(frames: seq<InlineFrame>)
    requires forall i :: 0 <= i < |frames| ==> !frames[i].setsLink
    ensures TopLink(frames) == 0
  {
    if frames != [] {
      NoLinkOnTop(frames[..|frames| - 1]);
    }
  }
}
