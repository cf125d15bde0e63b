/**
The document builder of browser/src/document.rs. Text, start tags and end tags
arrive in any order and any state of brokenness; what they build is what
DocumentSteps says they should, and stays well formed. Ghost fields hold what
the document is meant to say.

Most methods only hand the invariants and the snapshot on. So that they need not
look inside, each invariant `XSound` is handed on as `XOk`, which says it some
unknown number of times over, and a lemma `XMeans` opens it where it is at
stake; the parts of the snapshot, `CopyNow` and so on, are handed on the same
way. A predicate written `var ok := ...; ok` is proved as a whole rather than
clause by clause.
*/
module Document {
  import opened Wrappers
  import opened Basics
  import opened DocumentTypes
  import opened TextFlow
  import opened RunList
  import opened InlineStack
  import opened TableGrid
  import opened FormList
  import opened TableList
  import opened DocumentSteps
  import opened DocumentStory

  class Builder {
    /** How a reference resolves against the page's own address, if it does, and what keeping the
        result costs. */
    const resolve: Text -> Option<Url>
    const ownedBytes: Url -> nat

    /** How many times over the invariants are said. */
    ghost const layers: nat

    // the document
    var title: Text
    var text: Text
    var runs: seq<Run>
    var blocks: seq<Block>
    var links: seq<Url>
    var images: seq<Image>
    var tables: seq<Table>
    var tableRows: seq<TableRow>
    var tableCells: seq<TableCell>
    var forms: seq<Form>
    var controls: seq<FormControl>
    var options: seq<SelectOption>
    var labels: seq<Label>

    // the builder's own state
    var openKind: Option<BlockKind>
    var openFirstRun: nat
    var openFirstControl: nat
    var runOpen: bool
    var runStart: nat
    var style: Style
    var link: Option<nat>
    var inline: seq<InlineFrame>
    var lists: seq<ListLevel>
    var preformatted: bool
    var inTitle: bool
    var pendingSpace: bool
    var atBlockStart: bool
    var linkUrlBytes: nat
    var table: Option<TableBuild>
    var form: Option<nat>
    var button: Option<ButtonBuild>
    var textarea: Option<TextareaBuild>
    var select: Option<SelectBuild>
    var labelOpen: Option<LabelBuild>

    /** The style and link in force when each byte of `text` was appended. */
    ghost var marks: seq<Mark>
    /** Bytes of text left out of every run. */
    ghost var lost: nat
    /** Which runs, and whether the open one, were cut from preformatted text. */
    ghost var runPre: seq<bool>
    ghost var openPre: bool
    /** The style and link from before each open inline frame was pushed. */
    ghost var saved: seq<Before>
    /** The frames whose closing will not bring back the link from before them, because one was set without
        a frame above them; and whether even closing them all will leave a link. */
    ghost var spoiled: set<nat>
    ghost var adrift: bool
    /** Runs that blocks hold twice, or not at all. */
    ghost var misfiled: nat
    /** Which controls asked to be checked, and which options to be selected. */
    ghost var asked: seq<bool>
    ghost var wished: seq<bool>
    /** The grid squares under the cells of the table being built. */
    ghost var placed: set<Square>

    constructor (resolve: Text -> Option<Url>, ownedBytes: Url -> nat)
      ensures Valid() && Complete() && Now() == Blank(resolve, ownedBytes)
    {
      this.resolve := resolve;
      this.ownedBytes := ownedBytes;
      layers := 0;
      title, text, runs, blocks, links, images := [], [], [], [], [], [];
      tables, tableRows, tableCells, forms, controls, options, labels := [], [], [], [], [], [], [];
      openKind, openFirstRun, openFirstControl, runOpen, runStart := None, 0, 0, false, 0;
      style, link, inline, lists := PLAIN, None, [], [];
      preformatted, inTitle, pendingSpace, atBlockStart, linkUrlBytes := false, false, false, true, 0;
      table, form, button, textarea, select, labelOpen := None, None, None, None, None, None;
      marks, lost, misfiled, runPre, openPre, saved, spoiled, adrift := [], 0, 0, [], false, [], {}, false;
      asked, wished, placed := [], [], {};
      new;
      assert FlowOk() by { FlowMeans(); }
      assert InlineOk() by { InlineMeans(style, link); }
      assert ControlsOk() by { ControlsMean(); }
      assert TablesOk() by { TablesMean(); }
      assert Now() == Blank(resolve, ownedBytes) by {
        CopyMeans();
        SettingMeans();
        DressMeans();
        FieldsMeans();
        GridsMeans();
        RestMeans();
      }
    }

    // --- what holds between events ------------------------------------------

    /** The runs and the open run cover the text, but for what was lost, and say what was in force. */
    ghost predicate RunsOk()
      reads this`text, this`title, this`marks, this`runs, this`runPre, this`runOpen, this`runStart, this`openPre,
            this`style, this`link, this`links, this`lost, this`inTitle, this`atBlockStart
    {
      && |marks| == |text| <= MAX_TEXT_BYTES && |title| <= MAX_TEXT_BYTES
      && (inTitle ==> !runOpen) && Known(link, |links|)
      && (runOpen ==> Growing(runStart, openPre, text, marks, style, link, atBlockStart))
      && var due := if runOpen then runStart else |text|;
         RunsEnd(runs) <= due && Tiled(runs, runPre, text, marks, |links|, lost - (due - RunsEnd(runs)))
    }

    /** The open run is kept as the text to come will be. */
    ghost predicate Matched()
      reads this`runOpen, this`openPre, this`preformatted
    {
      runOpen ==> openPre == preformatted
    }

    /** Besides, it does not end in a space: the next character may be anything. */
    ghost predicate Rested()
      reads this`text, this`runOpen, this`runStart, this`openPre, this`preformatted
    {
      Matched() && (runOpen && !openPre && runStart < |text| ==> text[|text| - 1] != SPACE)
    }

    /** Text goes to an open block; the blocks share out the runs, but for what was misfiled. With no block
        open, the runs the last one took are still the last ones. */
    ghost predicate BlocksOk()
      reads this`blocks, this`runs, this`openKind, this`openFirstRun, this`runOpen, this`misfiled, this`inTitle,
            this`atBlockStart
    {
      && (runOpen ==> openKind.Some?)
      && (openKind.None? && !inTitle ==> atBlockStart)
      && openFirstRun <= |runs|
      && Filed(blocks, |runs|, if openKind.Some? then openFirstRun else |runs|, misfiled)
      && (openKind.None? && openFirstRun < |runs| ==>
            Filings(blocks) != [] && Filings(blocks)[|Filings(blocks)| - 1] == |runs| - 1)
    }

    /** All that concerns the text. */
    ghost predicate FlowSound()
      reads this`text, this`title, this`marks, this`runs, this`runPre, this`runOpen, this`runStart, this`openPre,
            this`style, this`link, this`links, this`lost, this`inTitle, this`atBlockStart, this`blocks,
            this`openKind, this`openFirstRun, this`misfiled
    {
      RunsOk() && BlocksOk()
    }

    ghost predicate FlowOver(times: nat)
      reads this`text, this`title, this`marks, this`runs, this`runPre, this`runOpen, this`runStart, this`openPre,
            this`style, this`link, this`links, this`lost, this`inTitle, this`atBlockStart, this`blocks,
            this`openKind, this`openFirstRun, this`misfiled
    {
      if times == 0 then FlowSound() else FlowOver(times - 1)
    }

    ghost predicate FlowOk()
      reads this`text, this`title, this`marks, this`runs, this`runPre, this`runOpen, this`runStart, this`openPre,
            this`style, this`link, this`links, this`lost, this`inTitle, this`atBlockStart, this`blocks,
            this`openKind, this`openFirstRun, this`misfiled
    {
      FlowOver(layers + 2)
    }

    lemma {:induction false} FlowOverMeans(times: nat)
      ensures FlowOver(times) <==> FlowSound()
    {
      if times > 0 {
        FlowOverMeans(times - 1);
      }
    }

    lemma FlowMeans()
      ensures FlowOk() <==> FlowSound()
    {
      FlowOverMeans(layers + 2);
    }

    lemma FlowBounds()
      requires FlowOk()
      ensures |text| <= MAX_TEXT_BYTES && |title| <= MAX_TEXT_BYTES && openFirstRun <= |runs| && Known(link, |links|)
      ensures (inTitle ==> !runOpen) && (runOpen ==> openKind.Some?) && (openKind.None? && !inTitle ==> atBlockStart)
    {
      FlowMeans();
    }

    /** The open elements account for a style and link in force. */
    ghost predicate InlineSound(current: Style, target: Option<nat>)
      reads this`inline, this`saved, this`spoiled, this`adrift, this`links, this`linkUrlBytes
    {
      && |inline| <= MAX_NESTING_DEPTH && current == AddedBits(inline) && Stacked(inline, saved, |links|)
      && Accounted(inline, saved, spoiled, adrift, target)
      && |links| <= MAX_LINKS && linkUrlBytes == Owned(links) <= MAX_LINK_URL_BYTES
    }

    ghost predicate InlineOver(times: nat, current: Style, target: Option<nat>)
      reads this`inline, this`saved, this`spoiled, this`adrift, this`links, this`linkUrlBytes
    {
      if times == 0 then InlineSound(current, target) else InlineOver(times - 1, current, target)
    }

    ghost predicate InlineFits(current: Style, target: Option<nat>)
      reads this`inline, this`saved, this`spoiled, this`adrift, this`links, this`linkUrlBytes
    {
      InlineOver(layers + 2, current, target)
    }

    ghost predicate InlineOk()
      reads this`inline, this`style, this`link, this`saved, this`spoiled, this`adrift, this`links, this`linkUrlBytes
    {
      InlineFits(style, link)
    }

    lemma {:induction false} InlineOverMeans(times: nat, current: Style, target: Option<nat>)
      ensures InlineOver(times, current, target) <==> InlineSound(current, target)
    {
      if times > 0 {
        InlineOverMeans(times - 1, current, target);
      }
    }

    lemma InlineMeans(current: Style, target: Option<nat>)
      ensures InlineFits(current, target) <==> InlineSound(current, target)
    {
      InlineOverMeans(layers + 2, current, target);
    }

    lemma InlineBounds()
      requires InlineOk()
      ensures |saved| == |inline|
    {
      InlineMeans(style, link);
    }

    /** Forms own their controls and selects their options; what is checked and selected is settled. */
    ghost predicate ControlsSound()
      reads this`controls, this`forms, this`form, this`asked, this`options, this`wished, this`select
    {
      var ok :=
        && FormsExact(controls, forms) && FormOpen(controls, forms, form) && ChecksSettled(controls, asked)
        && OptionsExact(controls, options) && ChoicesSettled(controls, options, wished, OpenSelect());
      ok
    }

    /** What is being filled: the open select is the last control and its options are the last ones. */
    ghost predicate FillingSound()
      reads this`controls, this`options, this`select, this`textarea, this`button
    {
      var ok :=
        && (select.Some? ==>
              && select.value.control + 1 == |controls|
              && controls[select.value.control].firstOption + controls[select.value.control].optionCount == |options|)
        && (select.Some? && select.value.option.Some? ==>
              select.value.option.value.index + 1 == |options|
                  && |select.value.option.value.text| <= MAX_INPUT_VALUE_BYTES)
        && (textarea.Some? ==> textarea.value.control < |controls| && |textarea.value.text| <= MAX_INPUT_VALUE_BYTES)
        && (button.Some? ==> button.value.control < |controls| && |button.value.text| <= MAX_INPUT_VALUE_BYTES);
      ok
    }

    ghost predicate TableSound()
      reads this`table, this`tables, this`tableRows, this`tableCells, this`placed
    {
      var ok := TablesSound(tables, tableRows, tableCells, table, placed);
      ok
    }

    ghost predicate ControlsOver(times: nat)
      reads this`controls, this`forms, this`form, this`asked, this`options, this`wished, this`select, this`textarea,
            this`button
    {
      if times == 0 then ControlsSound() && FillingSound() else ControlsOver(times - 1)
    }

    /** All that concerns forms and controls. */
    ghost predicate ControlsOk()
      reads this`controls, this`forms, this`form, this`asked, this`options, this`wished, this`select, this`textarea,
            this`button
    {
      ControlsOver(layers + 2)
    }

    lemma {:induction false} ControlsOverMeans(times: nat)
      ensures ControlsOver(times) <==> ControlsSound() && FillingSound()
    {
      if times > 0 {
        ControlsOverMeans(times - 1);
      }
    }

    lemma ControlsMean()
      ensures ControlsOk() <==> ControlsSound() && FillingSound()
    {
      ControlsOverMeans(layers + 2);
    }

    ghost predicate TablesOver(times: nat)
      reads this`table, this`tables, this`tableRows, this`tableCells, this`placed
    {
      if times == 0 then TableSound() else TablesOver(times - 1)
    }

    /** All that concerns tables. */
    ghost predicate TablesOk()
      reads this`table, this`tables, this`tableRows, this`tableCells, this`placed
    {
      TablesOver(layers + 2)
    }

    lemma {:induction false} TablesOverMeans(times: nat)
      ensures TablesOver(times) <==> TableSound()
    {
      if times > 0 {
        TablesOverMeans(times - 1);
      }
    }

    lemma TablesMean()
      ensures TablesOk() <==> TableSound()
    {
      TablesOverMeans(layers + 2);
    }

    /** What holds between events. */
    ghost predicate Valid()
      reads this`text, this`title, this`marks, this`runs, this`runPre, this`runOpen, this`runStart, this`openPre,
            this`style, this`link, this`links, this`lost, this`inTitle, this`atBlockStart, this`blocks,
            this`openKind, this`openFirstRun, this`misfiled, this`preformatted, this`inline, this`saved,
            this`spoiled, this`adrift, this`linkUrlBytes, this`controls, this`forms, this`form, this`asked,
            this`options, this`wished, this`select, this`textarea, this`button, this`table, this`tables,
            this`tableRows, this`tableCells, this`placed, this`lists
    {
      var ok := FlowOk() && Rested() && InlineOk() && ControlsOk() && TablesOk() && |lists| <= MAX_NESTING_DEPTH;
      ok
    }

    function Owned(urls: seq<Url>): nat {
      if urls == [] then 0 else Owned(urls[..|urls| - 1]) + ownedBytes(urls[|urls| - 1])
    }

    function OpenSelect(): Option<nat>
      reads this`select
    {
      if select.Some? then Some(select.value.control) else None
    }

    ghost function CopySeen(times: nat): Copy
      reads this`title, this`text, this`marks, this`lost, this`runs,
            this`runPre, this`runOpen, this`runStart, this`openPre
    {
      if times == 0 then Copy(title, text, marks, lost, runs, runPre, runOpen, runStart, openPre)
      else CopySeen(times - 1)
    }

    ghost function CopyNow(): Copy
      reads this`title, this`text, this`marks, this`lost, this`runs,
            this`runPre, this`runOpen, this`runStart, this`openPre
    {
      CopySeen(layers + 2)
    }

    lemma {:induction false} CopySeenMeans(times: nat)
      ensures CopySeen(times) == Copy(title, text, marks, lost, runs, runPre, runOpen, runStart, openPre)
    {
      if times > 0 {
        CopySeenMeans(times - 1);
      }
    }

    lemma CopyMeans()
      ensures CopyNow() == Copy(title, text, marks, lost, runs, runPre, runOpen, runStart, openPre)
    {
      CopySeenMeans(layers + 2);
    }

    ghost function SettingSeen(times: nat): Setting
      reads this`blocks, this`misfiled, this`openKind, this`openFirstRun, this`openFirstControl,
            this`preformatted, this`inTitle, this`pendingSpace, this`atBlockStart
    {
      if times == 0 then
        Setting(blocks, misfiled, openKind, openFirstRun, openFirstControl, preformatted, inTitle, pendingSpace,
                atBlockStart)
      else SettingSeen(times - 1)
    }

    ghost function SettingNow(): Setting
      reads this`blocks, this`misfiled, this`openKind, this`openFirstRun, this`openFirstControl,
            this`preformatted, this`inTitle, this`pendingSpace, this`atBlockStart
    {
      SettingSeen(layers + 2)
    }

    lemma {:induction false} SettingSeenMeans(times: nat)
      ensures SettingSeen(times)
           == Setting(blocks, misfiled, openKind, openFirstRun, openFirstControl, preformatted, inTitle, pendingSpace,
                      atBlockStart)
    {
      if times > 0 {
        SettingSeenMeans(times - 1);
      }
    }

    lemma SettingMeans()
      ensures SettingNow()
           == Setting(blocks, misfiled, openKind, openFirstRun, openFirstControl, preformatted, inTitle, pendingSpace,
                      atBlockStart)
    {
      SettingSeenMeans(layers + 2);
    }

    ghost function DressSeen(times: nat): Dress
      reads this`style, this`link, this`inline, this`saved, this`spoiled,
            this`adrift, this`links, this`linkUrlBytes
    {
      if times == 0 then Dress(style, link, inline, saved, spoiled, adrift, links, linkUrlBytes)
      else DressSeen(times - 1)
    }

    ghost function DressNow(): Dress
      reads this`style, this`link, this`inline, this`saved, this`spoiled,
            this`adrift, this`links, this`linkUrlBytes
    {
      DressSeen(layers + 2)
    }

    lemma {:induction false} DressSeenMeans(times: nat)
      ensures DressSeen(times) == Dress(style, link, inline, saved, spoiled, adrift, links, linkUrlBytes)
    {
      if times > 0 {
        DressSeenMeans(times - 1);
      }
    }

    lemma DressMeans()
      ensures DressNow() == Dress(style, link, inline, saved, spoiled, adrift, links, linkUrlBytes)
    {
      DressSeenMeans(layers + 2);
    }

    ghost function FieldsSeen(times: nat): Fields
      reads this`forms, this`form, this`controls, this`asked, this`options,
            this`wished, this`select, this`textarea, this`button
    {
      if times == 0 then Fields(forms, form, controls, asked, options, wished, select, textarea, button)
      else FieldsSeen(times - 1)
    }

    ghost function FieldsNow(): Fields
      reads this`forms, this`form, this`controls, this`asked, this`options,
            this`wished, this`select, this`textarea, this`button
    {
      FieldsSeen(layers + 2)
    }

    lemma {:induction false} FieldsSeenMeans(times: nat)
      ensures FieldsSeen(times) == Fields(forms, form, controls, asked, options, wished, select, textarea, button)
    {
      if times > 0 {
        FieldsSeenMeans(times - 1);
      }
    }

    lemma FieldsMeans()
      ensures FieldsNow() == Fields(forms, form, controls, asked, options, wished, select, textarea, button)
    {
      FieldsSeenMeans(layers + 2);
    }

    ghost function GridsSeen(times: nat): Grids
      reads this`tables, this`tableRows, this`tableCells, this`table
    {
      if times == 0 then Grids(tables, tableRows, tableCells, table) else GridsSeen(times - 1)
    }

    ghost function GridsNow(): Grids
      reads this`tables, this`tableRows, this`tableCells, this`table
    {
      GridsSeen(layers + 2)
    }

    lemma {:induction false} GridsSeenMeans(times: nat)
      ensures GridsSeen(times) == Grids(tables, tableRows, tableCells, table)
    {
      if times > 0 {
        GridsSeenMeans(times - 1);
      }
    }

    lemma GridsMeans()
      ensures GridsNow() == Grids(tables, tableRows, tableCells, table)
    {
      GridsSeenMeans(layers + 2);
    }

    ghost function RestSeen(times: nat): Rest
      reads this`images, this`labels, this`labelOpen, this`lists
    {
      if times == 0 then Rest(images, labels, labelOpen, lists, resolve, ownedBytes) else RestSeen(times - 1)
    }

    ghost function RestNow(): Rest
      reads this`images, this`labels, this`labelOpen, this`lists
    {
      RestSeen(layers + 2)
    }

    lemma {:induction false} RestSeenMeans(times: nat)
      ensures RestSeen(times) == Rest(images, labels, labelOpen, lists, resolve, ownedBytes)
    {
      if times > 0 {
        RestSeenMeans(times - 1);
      }
    }

    lemma RestMeans()
      ensures RestNow() == Rest(images, labels, labelOpen, lists, resolve, ownedBytes)
    {
      RestSeenMeans(layers + 2);
    }

    /** All of it. */
    ghost function Now(): Draft
      reads this
    {
      Draft(CopyNow(), SettingNow(), DressNow(), FieldsNow(), GridsNow(), RestNow())
    }

    /** The builder is where it should be, or stopped with the error it should. */
    ghost predicate Came(r: Outcome<Error>, expected: Next)
      reads this
    {
      match expected
      case Success(d) => r.Pass? && Now() == d
      case Failure(error) => r == Fail(error)
    }

    function Items(): nat
      reads this`blocks, this`runs, this`tables, this`tableRows, this`tableCells, this`images, this`forms,
            this`controls, this`options, this`labels
    {
      |blocks| + |runs| + |tables| + |tableRows| + |tableCells| + |images| + |forms| + |controls| + |options| + |labels|
    }

    method CheckItems(adding: nat) returns (r: Outcome<Error>)
      ensures Came(r, Need(Now(), adding))
    {
      CopyMeans();
      SettingMeans();
      FieldsMeans();
      GridsMeans();
      RestMeans();
      if Items() + adding > MAX_ITEMS {
        return Fail(TooManyItems);
      }
      return Pass;
    }

    // --- text -----------------------------------------------------------------

    method OpenBlock(kind: BlockKind)
      requires FlowOk() && openKind.None?
      modifies this`openKind, this`openFirstRun, this`openFirstControl, this`atBlockStart
      ensures FlowOk() && Now() == Opened(old(Now()), kind)
    {
      CopyMeans();
      SettingMeans();
      FlowMeans();
      NameBlock(kind);
      SettingMeans();
      FlowMeans();
    }

    method NameBlock(kind: BlockKind)
      modifies this`openKind, this`openFirstRun, this`openFirstControl, this`atBlockStart
      ensures SettingNow() == Opened(old(Now()), kind).setting
    {
      CopyMeans();
      FieldsMeans();
      SettingMeans();
      openKind := Some(kind);
      openFirstRun := |runs|;
      openFirstControl := |controls|;
      atBlockStart := true;
      SettingMeans();
    }

    method OpenBlockIfNeeded()
      requires FlowOk()
      modifies this`openKind, this`openFirstRun, this`openFirstControl, this`atBlockStart
      ensures FlowOk() && Now() == Housed(old(Now()))
    {
      SettingMeans();
      if openKind.Some? || inTitle {
        return;
      }
      FlowBounds();
      OpenBlock(Paragraph);
    }

    /** Opens a block and a run for text to go to, unless they are open. */
    method OpenRunIfNeeded()
      requires FlowOk() && Matched() && !inTitle
      modifies this`runOpen, this`runStart, this`openPre, this`openKind, this`openFirstRun, this`openFirstControl,
               this`atBlockStart
      ensures FlowOk() && Matched() && runOpen && Now() == WithRunOpen(Housed(old(Now())))
    {
      OpenBlockIfNeeded();
      SettingMeans();
      CopyMeans();
      if !runOpen {
        StartRun();
        CopyMeans();
      }
    }

    method StartRun()
      requires FlowOk() && !runOpen && !inTitle && openKind.Some?
      modifies this`runOpen, this`runStart, this`openPre
      ensures FlowOk() && Matched() && CopyNow() == WithRunOpen(old(Now())).copy
    {
      FlowMeans();
      MarkRun();
      FlowMeans();
    }

    method MarkRun()
      requires !runOpen
      modifies this`runOpen, this`runStart, this`openPre
      ensures runOpen && runStart == |text| && openPre == preformatted && CopyNow() == WithRunOpen(old(Now())).copy
    {
      CopyMeans();
      SettingMeans();
      runStart := |text|;
      runOpen := true;
      openPre := preformatted;
      CopyMeans();
    }

    /** Extends the open run by one character. */
    method AppendToRun(c: char, breaks: bool) returns (r: Outcome<Error>)
      requires FlowOk() && Matched() && runOpen && (!openPre ==> Welcome(runStart, text, c) && (c == '\n' ==> breaks))
      modifies this`text, this`marks, this`atBlockStart
      ensures r == if |old(text)| + |Utf8(c)| > MAX_TEXT_BYTES then Fail(TextTooLong) else Pass
      ensures r.Pass? ==> FlowOk() && Matched() && Now() == Extended(old(Now()), Utf8(c), breaks)
      ensures r.Pass? && c != ' ' ==> Rested()
    {
      CopyMeans();
      SettingMeans();
      DressMeans();
      r := GrowRun(c, breaks);
      CopyMeans();
      SettingMeans();
    }

    method GrowRun(c: char, breaks: bool) returns (r: Outcome<Error>)
      requires FlowOk() && Matched() && runOpen && (!openPre ==> Welcome(runStart, text, c) && (c == '\n' ==> breaks))
      modifies this`text, this`marks, this`atBlockStart
      ensures r == if |old(text)| + |Utf8(c)| > MAX_TEXT_BYTES then Fail(TextTooLong) else Pass
      ensures r.Pass? ==> FlowOk() && Matched() && text == old(text) + Utf8(c) && atBlockStart == breaks
      ensures r.Pass? ==> marks == old(marks) + Marks(|Utf8(c)|, style, link)
      ensures r.Pass? && c != ' ' ==> Rested()
    {
      if |text| + |Utf8(c)| > MAX_TEXT_BYTES {
        return Fail(TextTooLong);
      }
      FlowMeans();
      RunMayGrow(c, breaks);
      AddBytes(Utf8(c), breaks);
      FlowMeans();
      r := Pass;
    }

    lemma RunMayGrow(c: char, breaks: bool)
      requires FlowSound() && Matched() && runOpen
               && (!openPre ==> Welcome(runStart, text, c) && (c == '\n' ==> breaks))
      ensures var more, moreMarks := text + Utf8(c), marks + Marks(|Utf8(c)|, style, link);
              && Growing(runStart, openPre, more, moreMarks, style, link, breaks)
              && (c != ' ' ==> more[|more| - 1] != SPACE)
              && RunsEnd(runs) <= runStart <= |text|
              && Tiled(runs, runPre, more, moreMarks, |links|, lost - (runStart - RunsEnd(runs)))
    {
      OpenRunGrows(runStart, openPre, text, marks, style, link, atBlockStart, c, breaks);
      TiledStill(runs, runPre, text, marks, |links|, lost - (runStart - RunsEnd(runs)),
                 text + Utf8(c), marks + Marks(|Utf8(c)|, style, link), |links|);
    }

    method AddBytes(bytes: Text, breaks: bool)
      modifies this`text, this`marks, this`atBlockStart
      ensures text == old(text) + bytes && marks == old(marks) + Marks(|bytes|, style, link) && atBlockStart == breaks
    {
      text := text + bytes;
      marks := marks + Marks(|bytes|, style, link);
      atBlockStart := breaks;
    }

    /** One kept character, to the title or to the body. */
    method PushCharacter(c: char) returns (r: Outcome<Error>)
      requires FlowOk() && Matched()
      requires runOpen && !openPre ==> Welcome(runStart, text, c)
      requires inTitle || preformatted || c != '\n'
      modifies this`title, this`text, this`marks, this`runOpen, this`runStart, this`openPre, this`atBlockStart,
               this`openKind, this`openFirstRun, this`openFirstControl
      ensures Came(r, Lettered(old(Now()), c))
      ensures r.Pass? ==> FlowOk() && Matched()
      ensures r.Pass? && c != ' ' ==> Rested()
    {
      FlowBounds();
      CopyMeans();
      SettingMeans();
      if inTitle {
        r := PushTitle(c);
        CopyMeans();
        SettingMeans();
      } else {
        r := PushToBody(c);
      }
    }

    method PushToBody(c: char) returns (r: Outcome<Error>)
      requires FlowOk() && Matched() && !inTitle
      requires runOpen && !openPre ==> Welcome(runStart, text, c)
      requires preformatted || c != '\n'
      modifies this`title, this`text, this`marks, this`runOpen, this`runStart, this`openPre, this`atBlockStart,
               this`openKind, this`openFirstRun, this`openFirstControl
      ensures Came(r, Lettered(old(Now()), c))
      ensures r.Pass? ==> FlowOk() && Matched()
      ensures r.Pass? && c != ' ' ==> Rested()
    {
      CopyMeans();
      SettingMeans();
      if |text| + |Utf8(c)| <= MAX_TEXT_BYTES {
        WroteExtends(Now(), Utf8(c), pendingSpace, false);
      }
      OpenRunIfNeeded();
      CopyMeans();
      r := AppendToRun(c, false);
    }

    method PushTitle(c: char) returns (r: Outcome<Error>)
      requires FlowOk() && inTitle
      modifies this`title, this`atBlockStart
      ensures r == if |old(title)| + |Utf8(c)| > MAX_TEXT_BYTES then Fail(TextTooLong) else Pass
      ensures r.Pass? ==> FlowOk() && title == old(title) + Utf8(c) && !atBlockStart
    {
      if |title| + |Utf8(c)| > MAX_TEXT_BYTES {
        return Fail(TextTooLong);
      }
      FlowMeans();
      title := title + Utf8(c);
      atBlockStart := false;
      FlowMeans();
      r := Pass;
    }

    /** Writes the single space a stretch of whitespace collapsed to, if one is owed and there is
        something for it to follow. */
    method FlushPendingSpace() returns (r: Outcome<Error>)
      requires FlowOk() && Rested()
      modifies this`title, this`text, this`marks, this`runOpen, this`runStart, this`openPre, this`atBlockStart,
               this`openKind, this`openFirstRun, this`openFirstControl, this`pendingSpace
      ensures Came(r, Flushed(old(Now())))
      ensures r.Pass? ==> FlowOk() && Matched()
      ensures r.Pass? && !old(pendingSpace) ==> Rested()
    {
      FlushedIs(Now());
      FlowFlows();
      if !pendingSpace {
        return Pass;
      }
      Space(false);
      if atBlockStart {
        FlowFlows();
        return Pass;
      }
      SpaceIsWelcome();
      r := PushCharacter(' ');
    }

    /** Where characters go, seen from the builder. */
    lemma FlowFlows()
      requires FlowOk()
      ensures Now().setting.pendingSpace == pendingSpace && Now().setting.atBlockStart == atBlockStart
      ensures Wrote(Now(), Flowing(Now())) == Success(Now())
    {
      FlowBounds();
      CopyMeans();
      SettingMeans();
      WroteItself(Now());
    }

    lemma SpaceIsWelcome()
      requires FlowOk() && Rested() && !atBlockStart
      ensures runOpen && !openPre ==> Welcome(runStart, text, ' ')
    {
      FlowMeans();
    }

    /** Running text, collapsed; or preformatted text, kept. However it arrives, what it adds is what
        its characters call for, in the style and link in force. */
    method PushBodyText(characters: string) returns (r: Outcome<Error>)
      requires FlowOk() && Rested()
      modifies this`title, this`text, this`marks, this`runOpen, this`runStart, this`openPre, this`atBlockStart,
               this`openKind, this`openFirstRun, this`openFirstControl, this`pendingSpace
      ensures Came(r, BodyTexted(old(Now()), characters))
      ensures r.Pass? ==> FlowOk() && Rested()
    {
      ghost var before := Now();
      FlowBounds();
      CopyMeans();
      SettingMeans();
      for i := 0 to |characters|
        invariant FlowOk() && Rested()
        invariant Came(Pass, Wrote(before, Pour(Flowing(before), preformatted, characters[..i])))
      {
        PouredOneMore(before, characters, i);
        SettingMeans();
        r := PushBodyCharacter(characters[i]);
        if r.Fail? {
          return;
        }
      }
      assert characters[..|characters|] == characters;
      r := Pass;
    }

    method PushBodyCharacter(c: char) returns (r: Outcome<Error>)
      requires FlowOk() && Rested()
      modifies this`title, this`text, this`marks, this`runOpen, this`runStart, this`openPre, this`atBlockStart,
               this`openKind, this`openFirstRun, this`openFirstControl, this`pendingSpace
      ensures Came(r, Wrote(old(Now()), Step(Flowing(old(Now())), preformatted, c)))
      ensures r.Pass? ==> FlowOk() && Rested()
    {
      FlowBounds();
      CopyMeans();
      SettingMeans();
      if preformatted {
        r := PushPreformatted(c);
        return;
      }
      if IsAsciiWhitespace(c) {
        Space(true);
        return Pass;
      }
      r := PushWordCharacter(c);
    }

    method PushWordCharacter(c: char) returns (r: Outcome<Error>)
      requires FlowOk() && Rested() && !IsAsciiWhitespace(c)
      modifies this`title, this`text, this`marks, this`runOpen, this`runStart, this`openPre, this`atBlockStart,
               this`openKind, this`openFirstRun, this`openFirstControl, this`pendingSpace
      ensures Came(r, Wrote(old(Now()), Add(Flowing(old(Now())), c)))
      ensures r.Pass? ==> FlowOk() && Rested()
    {
      ghost var before := Now();
      WroteTwice(before, Flush(Flowing(before)), Add(Flowing(before), c));
      r := FlushPendingSpace();
      if r.Fail? {
        return;
      }
      WroteFlows(before, Flush(Flowing(before)));
      r := PushCharacter(c);
    }

    method PushPreformatted(c: char) returns (r: Outcome<Error>)
      requires FlowOk() && Rested() && preformatted
      modifies this`title, this`text, this`marks, this`runOpen, this`runStart, this`openPre, this`atBlockStart,
               this`openKind, this`openFirstRun, this`openFirstControl
      ensures Came(r, Wrote(old(Now()), AddVerbatim(Flowing(old(Now())), c)))
      ensures r.Pass? ==> FlowOk() && Rested()
    {
      FlowBounds();
      CopyMeans();
      SettingMeans();
      if c == '\r' {
        return Pass;
      }
      if c == '\t' {
        r := PushCharacter(' ');
        return;
      }
      r := PushCharacter(c);
    }

    // --- runs and blocks --------------------------------------------------------

    /** Ends the open run, if it covers any text. */
    method CloseRun() returns (r: Outcome<Error>)
      requires FlowOk()
      modifies this`runs, this`runPre, this`runOpen
      ensures Came(r, RunEnded(old(Now())))
      ensures r.Pass? ==> FlowOk() && !runOpen
    {
      CopyMeans();
      if !runOpen || |text| <= runStart {
        DropRun();
        CopyMeans();
        return Pass;
      }
      r := CheckItems(1);
      if r.Pass? {
        DressMeans();
        CommitRun();
        CopyMeans();
        AppendedIs(old(runs), runs, Run(runStart, |text|, style, link));
        AppendedIs(old(runPre), runPre, openPre);
      }
    }

    method DropRun()
      requires FlowOk() && (runOpen ==> |text| <= runStart)
      modifies this`runOpen
      ensures FlowOk() && !runOpen
    {
      FlowMeans();
      runOpen := false;
      FlowMeans();
    }

    method CommitRun()
      requires FlowOk() && runOpen && runStart < |text|
      modifies this`runs, this`runPre, this`runOpen
      ensures FlowOk() && !runOpen
      ensures Appended(old(runs), runs, Run(runStart, |text|, style, link)) && Appended(old(runPre), runPre, openPre)
    {
      FlowMeans();
      ghost var before, beforePre, gaps := runs, runPre, lost - (runStart - RunsEnd(runs));
      var run := Run(runStart, |text|, style, link);
      AddRun(run);
      RunAdded(before, beforePre, text, marks, |links|, gaps, run, openPre, runs, runPre);
      MoreRunsToFile(blocks, |before|, openFirstRun, misfiled, |runs|);
      FlowMeans();
    }

    method AddRun(run: Run)
      modifies this`runs, this`runPre, this`runOpen
      ensures Appended(old(runs), runs, run) && Appended(old(runPre), runPre, openPre) && !runOpen
    {
      runOpen := false;
      runs := runs + [run];
      runPre := runPre + [openPre];
    }

    /** Commits the open block, unless there is nothing in it. */
    method CloseBlock() returns (r: Outcome<Error>)
      requires FlowOk()
      modifies this`runs, this`runPre, this`runOpen, this`blocks, this`openKind, this`atBlockStart, this`pendingSpace
      ensures Came(r, BlockEnded(old(Now())))
      ensures r.Pass? ==> FlowOk() && !runOpen && openKind == None
    {
      r := CloseRun();
      SettingMeans();
      if r.Fail? || openKind.None? {
        return;
      }
      r := CommitBlock();
    }

    method CommitBlock() returns (r: Outcome<Error>)
      requires FlowOk() && !runOpen && openKind.Some?
      modifies this`blocks, this`openKind, this`atBlockStart, this`pendingSpace
      ensures Came(r, Committed(old(Now()), OpenBlockOf(old(Now()), old(openKind).value)))
      ensures r.Pass? ==> FlowOk() && openKind == None
    {
      FlowBounds();
      CopyMeans();
      SettingMeans();
      FieldsMeans();
      var block := Block(openKind.value, openFirstRun, |runs| - openFirstRun, openFirstControl,
                         SaturatingSub(|controls|, openFirstControl));
      if Hollow(block) {
        SkipBlock();
        return Pass;
      }
      r := CheckItems(1);
      if r.Pass? {
        ListBlock(block);
      }
    }

    method SkipBlock()
      requires FlowOk() && !runOpen && openKind.Some? && openFirstRun == |runs|
      modifies this`openKind, this`atBlockStart, this`pendingSpace
      ensures FlowOk() && openKind.None? && Now() == Unhoused(old(Now()))
    {
      SettingMeans();
      FlowMeans();
      Unhouse();
      FlowMeans();
      SettingMeans();
    }

    method Unhouse()
      modifies this`openKind, this`atBlockStart, this`pendingSpace
      ensures openKind.None? && atBlockStart && !pendingSpace
    {
      openKind := None;
      atBlockStart := true;
      pendingSpace := false;
    }

    method ListBlock(block: Block)
      requires FlowOk() && !runOpen && block.firstRun == openFirstRun && openFirstRun + block.runCount == |runs|
      requires openKind.Some? || block.runCount == 0
      modifies this`blocks, this`openKind, this`atBlockStart, this`pendingSpace
      ensures FlowOk() && openKind.None? && Now() == BlockListed(old(Now()), block)
    {
      SettingMeans();
      FileBlock(block);
      AppendedIs(old(blocks), blocks, block);
      SettingMeans();
    }

    /** Files the runs since the open block began. */
    method FileBlock(block: Block)
      requires FlowOk() && !runOpen && block.firstRun == openFirstRun && openFirstRun + block.runCount == |runs|
      requires openKind.Some? || block.runCount == 0
      modifies this`blocks, this`openKind, this`atBlockStart, this`pendingSpace
      ensures FlowOk() && openKind.None? && atBlockStart && !pendingSpace && Appended(old(blocks), blocks, block)
    {
      FlowMeans();
      AddBlock(block);
      FilingsGrow(old(blocks), block, blocks);
      NextSliceFiled(old(blocks), |runs|, openFirstRun, misfiled, block, blocks);
      FlowMeans();
    }

    /** With no block open, those are the last block's: they are filed again. */
    method FileAgain(block: Block)
      requires FlowOk() && !runOpen && block.firstRun == openFirstRun && openFirstRun + block.runCount == |runs|
      requires openKind.None? && block.runCount > 0
      modifies this`blocks, this`misfiled, this`openKind, this`atBlockStart, this`pendingSpace
      ensures FlowOk() && openKind.None? && atBlockStart && !pendingSpace && Appended(old(blocks), blocks, block)
      ensures misfiled == old(misfiled) + block.runCount
    {
      FlowMeans();
      AddBlock(block);
      FilingsGrow(old(blocks), block, blocks);
      SliceFiledTwice(old(blocks), |runs|, misfiled, block, blocks);
      misfiled := misfiled + block.runCount;
      FlowMeans();
    }

    method AddBlock(block: Block)
      modifies this`blocks, this`openKind, this`atBlockStart, this`pendingSpace
      ensures Appended(old(blocks), blocks, block) && openKind.None? && atBlockStart && !pendingSpace
    {
      blocks := blocks + [block];
      Unhouse();
    }

    /** Closes whatever is open and opens a block. */
    method StartBlock(kind: BlockKind) returns (r: Outcome<Error>)
      requires FlowOk()
      modifies this`runs, this`runPre, this`runOpen, this`blocks, this`openKind, this`atBlockStart, this`pendingSpace,
               this`openFirstRun, this`openFirstControl
      ensures Came(r, BlockBegun(old(Now()), kind))
      ensures r.Pass? ==> FlowOk() && Rested() && !runOpen && openKind == Some(kind)
    {
      r := CloseBlock();
      if r.Pass? {
        OpenHere(kind);
      }
    }

    method OpenHere(kind: BlockKind)
      requires FlowOk() && !runOpen && openKind.None?
      modifies this`openKind, this`openFirstRun, this`openFirstControl, this`atBlockStart, this`pendingSpace
      ensures FlowOk() && openKind == Some(kind) && Now() == Spaced(Opened(old(Now()), kind), false)
    {
      OpenBlock(kind);
      SettingMeans();
      Space(false);
    }

    method Space(pending: bool)
      modifies this`pendingSpace
      ensures pendingSpace == pending && Now() == Spaced(old(Now()), pending)
    {
      SettingMeans();
      pendingSpace := pending;
      SettingMeans();
    }

    /** Pays the owed space and ends the run: what comes next in the text starts a new one. */
    method EndRunHere() returns (r: Outcome<Error>)
      requires FlowOk() && Rested()
      modifies this`title, this`text, this`marks, this`runOpen, this`runStart, this`openPre, this`atBlockStart,
               this`openKind, this`openFirstRun, this`openFirstControl, this`runs, this`runPre, this`pendingSpace
      ensures Came(r, RunCut(old(Now())))
      ensures r.Pass? ==> FlowOk() && !runOpen
    {
      r := FlushPendingSpace();
      if r.Pass? {
        r := CloseRun();
      }
    }

    /** Changes the style or link from this point in the text on: a space that is owed still gets the
        old ones, and nothing already written changes. */
    method SetStyle(newStyle: Style, newLink: Option<nat>) returns (r: Outcome<Error>)
      requires FlowOk() && Rested() && Known(newLink, |links|)
      modifies this`title, this`text, this`marks, this`runOpen, this`runStart, this`openPre, this`atBlockStart,
               this`openKind, this`openFirstRun, this`openFirstControl, this`runs, this`runPre, this`pendingSpace,
               this`style, this`link
      ensures Came(r, Styled(old(Now()), newStyle, newLink))
      ensures r.Pass? ==> FlowOk() && Rested() && style == newStyle && link == newLink
    {
      DressMeans();
      if style == newStyle && link == newLink {
        return Pass;
      }
      r := EndRunHere();
      if r.Pass? {
        ChangeStyle(newStyle, newLink);
      }
    }

    method ChangeStyle(newStyle: Style, newLink: Option<nat>)
      requires FlowOk() && !runOpen && Known(newLink, |links|)
      modifies this`style, this`link
      ensures FlowOk() && style == newStyle && link == newLink && Now() == Dressed(old(Now()), newStyle, newLink)
    {
      FlowMeans();
      Wear(newStyle, newLink);
      FlowMeans();
    }

    method Wear(newStyle: Style, newLink: Option<nat>)
      modifies this`style, this`link
      ensures style == newStyle && link == newLink && DressNow() == Dressed(old(Now()), newStyle, newLink).dress
    {
      DressMeans();
      style := newStyle;
      link := newLink;
      DressMeans();
    }

    // --- inline elements --------------------------------------------------------

    /** Opens an inline element: its style is in force from here on. Past the nesting limit nothing
        happens at all. */
    method PushInline(name: Name, bit: Style, setsLink: bool) returns (r: Outcome<Error>)
      requires FlowOk() && Rested() && InlineOk()
      modifies this`title, this`text, this`marks, this`runOpen, this`runStart, this`openPre, this`atBlockStart,
               this`openKind, this`openFirstRun, this`openFirstControl, this`runs, this`runPre, this`pendingSpace,
               this`style, this`link, this`inline, this`saved
      ensures Came(r, InlineOpened(old(Now()), name, bit, setsLink))
      ensures r.Pass? ==> FlowOk() && Rested() && InlineOk() && link == old(link)
      ensures r.Pass? ==> saved == old(saved) || Appended(old(saved), saved, Before(old(style), link))
    {
      InlineMeans(style, link);
      DressMeans();
      if |inline| >= MAX_NESTING_DEPTH {
        return Pass;
      }
      r := OpenInline(name, bit, setsLink);
    }

    method OpenInline(name: Name, bit: Style, setsLink: bool) returns (r: Outcome<Error>)
      requires FlowOk() && Rested() && InlineOk() && |inline| < MAX_NESTING_DEPTH
      modifies this`title, this`text, this`marks, this`runOpen, this`runStart, this`openPre, this`atBlockStart,
               this`openKind, this`openFirstRun, this`openFirstControl, this`runs, this`runPre, this`pendingSpace,
               this`style, this`link, this`inline, this`saved
      ensures Came(r, InlineOpened(old(Now()), name, bit, setsLink))
      ensures r.Pass? ==> FlowOk() && Rested() && InlineOk() && link == old(link)
      ensures r.Pass? ==> Appended(old(saved), saved, Before(old(style), link))
    {
      FlowBounds();
      DressMeans();
      var added := bit.Without(style);
      var frame := InlineFrame(name, added, link, setsLink);
      StackFrame(frame, bit);
      AppendedIs(old(inline), inline, frame);
      AppendedIs(old(saved), saved, Before(style, link));
      DressMeans();
      r := Pass;
      if added != PLAIN {
        r := SetStyle(style.With(added), link);
      }
    }

    method StackFrame(frame: InlineFrame, ghost bit: Style)
      requires InlineOk() && |inline| < MAX_NESTING_DEPTH && Known(link, |links|)
      requires frame.added == bit.Without(style) && frame.previousLink == link
      modifies this`inline, this`saved
      ensures Appended(old(inline), inline, frame) && Appended(old(saved), saved, Before(style, link))
      ensures InlineFits(style.With(frame.added), link)
      ensures style.With(bit) == style.With(frame.added) && (style.With(frame.added) == style <==> frame.added == PLAIN)
    {
      InlineMeans(style, link);
      AddFrame(frame);
      PushFrame(old(inline), old(saved), |links|, frame, inline, saved);
      PushKeepsAccounts(old(inline), old(saved), spoiled, adrift, frame, inline, saved);
      InlineMeans(style.With(frame.added), link);
    }

    method AddFrame(frame: InlineFrame)
      modifies this`inline, this`saved
      ensures Appended(old(inline), inline, frame) && Appended(old(saved), saved, Before(style, link))
    {
      inline := inline + [frame];
      saved := saved + [Before(style, link)];
    }

    /** Closes the innermost open element with this name and everything inside it: the style is the one from
        before it was opened, and so is the link, if and only if no link spoiled its frame. */
    method PopInline(name: Name) returns (r: Outcome<Error>)
      requires Valid()
      modifies this`title, this`text, this`marks, this`runOpen, this`runStart, this`openPre, this`atBlockStart,
               this`openKind, this`openFirstRun, this`openFirstControl, this`runs, this`runPre, this`pendingSpace,
               this`style, this`link, this`inline, this`saved, this`spoiled
      ensures Came(r, InlineClosed(old(Now()), name))
      ensures r.Pass? ==> Valid() && |old(saved)| == |old(inline)|
      ensures var index := Innermost(old(inline), name);
              r.Pass? && index < |old(inline)| == |old(saved)| ==>
                && inline == old(inline)[..index] && style == old(saved)[index].style
                && (link == old(saved)[index].link <==> index !in old(spoiled))
    {
      InlineBounds();
      DressMeans();
      var index := Innermost(inline, name);
      if index == |inline| {
        return Pass;
      }
      r := CloseFrames(index);
    }

    method CloseFrames(index: nat) returns (r: Outcome<Error>)
      requires FlowOk() && Rested() && InlineOk() && index < |inline|
      modifies this`title, this`text, this`marks, this`runOpen, this`runStart, this`openPre, this`atBlockStart,
               this`openKind, this`openFirstRun, this`openFirstControl, this`runs, this`runPre, this`pendingSpace,
               this`style, this`link, this`inline, this`saved, this`spoiled
      ensures Came(r, FramesClosed(old(Now()), index))
      ensures r.Pass? ==> FlowOk() && Rested() && InlineOk() && |old(saved)| == |old(inline)|
      ensures r.Pass? ==>
                && inline == old(inline)[..index] && style == old(saved)[index].style
                && (link == old(saved)[index].link <==> index !in old(spoiled))
    {
      FlowBounds();
      DressMeans();
      var newStyle, newLink := TakeOff(index);
      r := SetStyle(newStyle, newLink);
    }

    method TakeOff(index: nat) returns (newStyle: Style, newLink: Option<nat>)
      requires InlineOk() && index < |inline| && Known(link, |links|)
      modifies this`inline, this`saved, this`spoiled
      ensures |old(saved)| == |old(inline)| && inline == old(inline)[..index]
      ensures InlineFits(newStyle, newLink) && Known(newLink, |links|) && Now() == Unwound(old(Now()), index)
      ensures newStyle == AddedBits(inline) == old(saved)[index].style && newLink == LinkBelow(old(inline), link, index)
      ensures newLink == old(saved)[index].link <==> index !in old(spoiled)
    {
      DressMeans();
      newStyle, newLink := PopFrames(index);
      DressMeans();
    }

    /** Takes the frames off, and finds the style and link that are left. */
    method PopFrames(index: nat) returns (newStyle: Style, newLink: Option<nat>)
      requires InlineOk() && index < |inline| && Known(link, |links|)
      modifies this`inline, this`saved, this`spoiled
      ensures |old(saved)| == |old(inline)|
      ensures inline == old(inline)[..index] && saved == old(saved)[..index] && spoiled == Under(old(spoiled), index)
      ensures InlineFits(newStyle, newLink) && Known(newLink, |links|)
      ensures newStyle == AddedBits(inline) == old(saved)[index].style && newLink == LinkBelow(old(inline), link, index)
      ensures newLink == old(saved)[index].link <==> index !in old(spoiled)
    {
      InlineMeans(style, link);
      ghost var frames, before := inline, saved;
      PopKeepsAccounts(frames, before, spoiled, adrift, link, index);
      newStyle, newLink := UnwindTo(index, saved);
      StackedBelow(frames, before, |links|, index);
      CutSaved(index);
      InlineMeans(newStyle, newLink);
    }

    ghost method CutSaved(index: nat)
      requires index <= |saved|
      modifies this`saved, this`spoiled
      ensures saved == old(saved)[..index] && spoiled == Under(old(spoiled), index)
    {
      saved := saved[..index];
      spoiled := Under(spoiled, index);
    }

    method UnwindTo(index: nat, ghost before: seq<Before>) returns (newStyle: Style, newLink: Option<nat>)
      requires index < |inline| && Stacked(inline, before, |links|) && style == AddedBits(inline)
               && Known(link, |links|)
      modifies this`inline
      ensures inline == old(inline)[..index] && newStyle == AddedBits(inline)
      ensures newLink == LinkBelow(old(inline), link, index) && Known(newLink, |links|)
    {
      newStyle := style;
      newLink := link;
      ghost var frames := inline;
      assert frames[..|frames|] == frames;
      while |inline| > index
        invariant index <= |inline| <= |frames| && inline == frames[..|inline|]
        invariant newStyle == AddedBits(inline) && Known(newLink, |links|)
        invariant LinkBelow(inline, newLink, index) == LinkBelow(frames, link, index)
      {
        StackedBelow(frames, before, |links|, |inline| - 1);
        var frame := inline[|inline| - 1];
        inline := inline[..|inline| - 1];
        newStyle := newStyle.Without(frame.added);
        if frame.setsLink {
          newLink := frame.previousLink;
        }
      }
    }

    method KeepLink(url: Url)
      requires FlowOk() && Rested() && InlineOk()
      requires |links| < MAX_LINKS && linkUrlBytes + ownedBytes(url) <= MAX_LINK_URL_BYTES
      modifies this`links, this`linkUrlBytes
      ensures FlowOk() && Rested() && InlineOk() && Now() == LinkAdded(old(Now()), url)
      ensures |links| == |old(links)| + 1 && SavedFirst(saved, |old(links)|) && Known(link, |old(links)|)
    {
      DressMeans();
      RestMeans();
      AddLink(url);
      AppendedIs(old(links), links, url);
      DressMeans();
    }

    method AddLink(url: Url)
      requires FlowOk() && Rested() && InlineOk()
      requires |links| < MAX_LINKS && linkUrlBytes + ownedBytes(url) <= MAX_LINK_URL_BYTES
      modifies this`links, this`linkUrlBytes
      ensures FlowOk() && Rested() && InlineOk() && Appended(old(links), links, url)
              && linkUrlBytes == old(linkUrlBytes) + ownedBytes(url)
      ensures SavedFirst(saved, |old(links)|) && Known(link, |old(links)|)
    {
      FlowMeans();
      InlineMeans(style, link);
      LinksMayGrow();
      CountLink(url);
      FlowMeans();
      InlineMeans(style, link);
    }

    lemma LinksMayGrow()
      requires FlowSound() && InlineSound(style, link)
      ensures SavedFirst(saved, |links|) && Stacked(inline, saved, |links| + 1)
      ensures var due := if runOpen then runStart else |text|;
              RunsEnd(runs) <= due && Tiled(runs, runPre, text, marks, |links| + 1, lost - (due - RunsEnd(runs)))
    {
      StackedSaves(inline, saved, |links|);
      StackedStill(inline, saved, |links|, |links| + 1);
      TiledStill(runs, runPre, text, marks, |links|, lost - ((if runOpen then runStart else |text|) - RunsEnd(runs)),
                 text, marks, |links| + 1);
    }

    method CountLink(url: Url)
      modifies this`links, this`linkUrlBytes
      ensures Appended(old(links), links, url) && linkUrlBytes == old(linkUrlBytes) + ownedBytes(url)
    {
      links := links + [url];
      linkUrlBytes := linkUrlBytes + ownedBytes(url);
    }

    /** `<a>`: text from here on links to the target, if it is usable and there is room for it. At full
        depth no frame remembers the link that was in force. */
    method StartLink(href: Option<Text>) returns (r: Outcome<Error>)
      requires FlowOk() && Rested() && InlineOk()
      modifies this`title, this`text, this`marks, this`runOpen, this`runStart, this`openPre, this`atBlockStart,
               this`openKind, this`openFirstRun, this`openFirstControl, this`runs, this`runPre, this`pendingSpace,
               this`style, this`link, this`inline, this`saved, this`spoiled, this`adrift, this`links, this`linkUrlBytes
      ensures Came(r, LinkStarted(old(Now()), href))
      ensures r.Pass? ==> FlowOk() && Rested() && InlineOk()
    {
      DressMeans();
      RestMeans();
      var target := Target(resolve, ownedBytes, |links|, linkUrlBytes, href);
      if target.None? {
        r := PushInline(AnchorTag, PLAIN, false);
        return;
      }
      var index := |links|;
      KeepLink(target.value);
      r := OpenLink(index);
    }

    method OpenLink(index: nat) returns (r: Outcome<Error>)
      requires FlowOk() && Rested() && InlineOk() && index < |links| && SavedFirst(saved, index) && Known(link, index)
      modifies this`title, this`text, this`marks, this`runOpen, this`runStart, this`openPre, this`atBlockStart,
               this`openKind, this`openFirstRun, this`openFirstControl, this`runs, this`runPre, this`pendingSpace,
               this`style, this`link, this`inline, this`saved, this`spoiled, this`adrift
      ensures r.Pass? ==> FlowOk() && Rested() && InlineOk()
      ensures Came(r, LinkOpened(old(Now()), index))
    {
      r := PushInline(AnchorTag, PLAIN, true);
      if r.Fail? {
        return;
      }
      assert SavedFirst(saved, index);
      r := FollowLink(index);
    }

    method FollowLink(index: nat) returns (r: Outcome<Error>)
      requires FlowOk() && Rested() && InlineOk() && index < |links| && SavedFirst(saved, index)
      modifies this`title, this`text, this`marks, this`runOpen, this`runStart, this`openPre, this`atBlockStart,
               this`openKind, this`openFirstRun, this`openFirstControl, this`runs, this`runPre, this`pendingSpace,
               this`style, this`link, this`spoiled, this`adrift
      ensures r.Pass? ==> FlowOk() && Rested() && InlineOk()
      ensures Came(r, Followed(old(Now()), index))
    {
      DressMeans();
      NoteLink(index);
      r := SetStyle(style, Some(index));
    }

    ghost method NoteLink(index: nat)
      requires InlineOk() && SavedFirst(saved, index)
      modifies this`spoiled, this`adrift
      ensures InlineFits(style, Some(index)) && Now() == Spoiling(old(Now()))
    {
      InlineMeans(style, link);
      NewLinkSpoils(inline, saved, spoiled, adrift, link, index);
      Spoil();
      InlineMeans(style, Some(index));
    }

    ghost method Spoil()
      modifies this`spoiled, this`adrift
      ensures spoiled == old(spoiled) + Exposed(inline) && adrift == (old(adrift) || TopLink(inline) == 0)
      ensures DressNow() == Spoiling(old(Now())).dress
    {
      DressMeans();
      spoiled, adrift := spoiled + Exposed(inline), adrift || TopLink(inline) == 0;
      DressMeans();
    }

    // --- forms and controls -------------------------------------------------------

    method BeginForm(action: Option<Text>) returns (r: Outcome<Error>)
      requires Valid()
      modifies this`forms, this`form
      ensures Came(r, FormBegun(old(Now()), action))
      ensures r.Pass? ==> Valid()
    {
      FieldsMeans();
      RestMeans();
      if form.Some? {
        return Pass;
      }
      r := CheckItems(1);
      if r.Fail? {
        return;
      }
      var url := resolve(if action.Some? then action.value else []);
      if url.None? {
        return Fail(BadUrl);
      }
      OpenForm(url.value);
    }

    method OpenForm(url: Url)
      requires ControlsOk() && form.None?
      modifies this`forms, this`form
      ensures ControlsOk() && FieldsNow() == FormListed(old(FieldsNow()), url)
    {
      ControlsMean();
      FieldsMeans();
      FormOpens(controls, forms, url);
      forms := forms + [Form(url, |controls|, 0)];
      form := Some(|forms| - 1);
      FieldsMeans();
      ControlsMean();
    }

    /** Checking a radio button unchecks its group. */
    method UncheckRivals(newer: FormControl)
      modifies this`controls
      ensures controls == Yielded(old(controls), newer)
    {
      ghost var before := controls;
      for i := 0 to |controls|
        invariant |controls| == |before| && controls[..i] == Yielded(before[..i], newer) && controls[i..] == before[i..]
      {
        assert before[..i + 1][..i] == before[..i] && before[i..][0] == before[i] == controls[i];
        assert controls[i + 1..] == controls[i..][1..] && before[i + 1..] == before[i..][1..];
        if newer.checked && newer.kind == Radio && newer.name != []
           && controls[i].kind == Radio && controls[i].form == newer.form && controls[i].name == newer.name {
          controls := controls[i := controls[i].(checked := false)];
        }
        assert controls[..i + 1] == controls[..i] + [controls[i]];
      }
      assert before[..|before|] == before && controls[..|controls|] == controls;
    }

    /** Adds a control to the list and to the open form. Of several radio buttons of one group the last
        to ask for it is checked. */
    method AppendControl(newer: FormControl, ghost wanted: bool)
      requires ControlsOk() && select.None?
      requires newer.form == form && newer.checked == (wanted && IsCheckable(newer.kind))
      requires newer.firstOption == |options| && newer.optionCount == 0
      modifies this`controls, this`forms, this`asked
      ensures ControlsOk() && FieldsNow() == Joining(old(FieldsNow()), newer, wanted)
      ensures Appended(Yielded(old(controls), newer), controls, newer)
    {
      FieldsMeans();
      JoinControl(newer, wanted);
      AppendedIs(Yielded(old(controls), newer), controls, newer);
      AppendedIs(old(asked), asked, wanted);
      FieldsMeans();
    }

    method JoinControl(newer: FormControl, ghost wanted: bool)
      requires ControlsOk() && select.None?
      requires newer.form == form && newer.checked == (wanted && IsCheckable(newer.kind))
      requires newer.firstOption == |options| && newer.optionCount == 0
      modifies this`controls, this`forms, this`asked
      ensures ControlsOk() && forms == Joined(old(forms), form)
      ensures Appended(Yielded(old(controls), newer), controls, newer) && Appended(old(asked), asked, wanted)
    {
      ControlsMean();
      AddControl(newer, wanted);
      NewcomerSettles(old(controls), old(asked), forms, form, options, wished, newer, wanted, controls, asked);
      if form.Some? {
        forms := forms[form.value := forms[form.value].(controlCount := forms[form.value].controlCount + 1)];
      }
      ControlsMean();
    }

    method AddControl(newer: FormControl, ghost wanted: bool)
      modifies this`controls, this`asked
      ensures Appended(Yielded(old(controls), newer), controls, newer) && Appended(old(asked), asked, wanted)
    {
      UncheckRivals(newer);
      controls := controls + [newer];
      asked := asked + [wanted];
    }

    /** Where a control stands in the text: a textarea outside tables has a block of its own, any other
        control is a place between runs. */
    method PlaceControl(kind: ControlKind) returns (r: Outcome<Error>)
      requires FlowOk() && Rested()
      modifies this`title, this`text, this`marks, this`runOpen, this`runStart, this`openPre, this`atBlockStart,
               this`openKind, this`openFirstRun, this`openFirstControl, this`runs, this`runPre,
               this`blocks, this`pendingSpace
      ensures Came(r, Placed(old(Now()), kind))
      ensures r.Pass? ==> FlowOk() && Rested()
    {
      if kind != Textarea {
        r := PlaceBetweenRuns();
        return;
      }
      GridsMeans();
      FieldsMeans();
      if table.None? {
        r := StartBlock(Control(|controls|));
      } else {
        r := Pass;
      }
    }

    /** The last control is new, and has no options yet. */
    predicate JustAdded()
      reads this`controls, this`options, this`select
    {
      var ok := select.None? && controls != []
        && controls[|controls| - 1].firstOption == |options| && controls[|controls| - 1].optionCount == 0;
      ok
    }

    method PlaceBetweenRuns() returns (r: Outcome<Error>)
      requires FlowOk() && Rested()
      modifies this`title, this`text, this`marks, this`runOpen, this`runStart, this`openPre, this`atBlockStart,
               this`openKind, this`openFirstRun, this`openFirstControl, this`runs, this`runPre, this`pendingSpace
      ensures Came(r, Parted(old(Now())))
      ensures r.Pass? ==> FlowOk() && !runOpen
    {
      r := FlushPendingSpace();
      if r.Pass? {
        OpenBlockIfNeeded();
        r := CloseRun();
      }
    }

    method PushControl(newer: FormControl, ghost wanted: bool) returns (r: Outcome<Error>)
      requires FlowOk() && Rested() && ControlsOk() && select.None?
      requires newer.form == form && newer.checked == (wanted && IsCheckable(newer.kind))
      requires newer.firstOption == |options| && newer.optionCount == 0
      modifies this`title, this`text, this`marks, this`runOpen, this`runStart, this`openPre, this`atBlockStart,
               this`openKind, this`openFirstRun, this`openFirstControl, this`runs, this`runPre,
               this`blocks, this`pendingSpace, this`controls, this`forms, this`asked
      ensures Came(r, ControlAdded(old(Now()), newer, wanted))
      ensures r.Pass? ==> FlowOk() && Rested() && ControlsOk() && JustAdded()
    {
      r := CheckItems(1);
      if r.Pass? {
        r := EnterControl(newer, wanted);
      }
    }

    /** A control that is described by a tag. */
    method AddNew(newer: FormControl, ghost wanted: bool) returns (r: Outcome<Error>)
      requires Valid() && select.None?
      requires newer.form == form && newer.checked == (wanted && IsCheckable(newer.kind))
      requires newer.firstOption == |options| && newer.optionCount == 0
      modifies this
      ensures Came(r, ControlAdded(old(Now()), newer, wanted))
      ensures r.Pass? ==> Valid() && JustAdded()
    {
      r := PushControl(newer, wanted);
    }

    method EnterControl(newer: FormControl, ghost wanted: bool) returns (r: Outcome<Error>)
      requires FlowOk() && Rested() && ControlsOk() && select.None?
      requires newer.form == form && newer.checked == (wanted && IsCheckable(newer.kind))
      requires newer.firstOption == |options| && newer.optionCount == 0
      modifies this`title, this`text, this`marks, this`runOpen, this`runStart, this`openPre, this`atBlockStart,
               this`openKind, this`openFirstRun, this`openFirstControl, this`runs, this`runPre,
               this`blocks, this`pendingSpace, this`controls, this`forms, this`asked
      ensures Came(r, ControlEntered(old(Now()), newer, wanted))
      ensures r.Pass? ==> FlowOk() && Rested() && ControlsOk() && JustAdded()
    {
      r := PlaceControl(newer.kind);
      if r.Pass? {
        CopyMeans();
        r := SeatControl(newer.(textOffset := |text|), wanted);
      }
    }

    method SeatControl(newer: FormControl, ghost wanted: bool) returns (r: Outcome<Error>)
      requires FlowOk() && Rested() && ControlsOk() && select.None?
      requires newer.form == form && newer.checked == (wanted && IsCheckable(newer.kind))
      requires newer.firstOption == |options| && newer.optionCount == 0
      modifies this`runs, this`runPre, this`runOpen, this`blocks, this`openKind, this`atBlockStart, this`pendingSpace,
               this`controls, this`forms, this`asked
      ensures Came(r, Seated(old(Now()), newer, wanted))
      ensures r.Pass? ==> FlowOk() && Rested() && ControlsOk() && JustAdded()
    {
      GridsMeans();
      AppendControl(newer, wanted);
      r := Pass;
      if newer.kind == Textarea && table.None? {
        r := CloseBlock();
      }
    }

    // --- text that belongs to a control --------------------------------------------

    /** The text of an option or a button: collapsed, and refused when it grows too long. */
    static method Caption(text: Text, pending: bool, characters: string)
        returns (r: Outcome<Error>, grown: Text, owed: bool)
      requires |text| <= MAX_INPUT_VALUE_BYTES
      ensures var all := Fold(AddCaption, Flow(text, pending, false), characters);
              && r == (if |all.out| > MAX_INPUT_VALUE_BYTES then Fail(TextTooLong) else Pass)
              && (r.Pass? ==> grown == all.out && owed == all.pending)
    {
      grown, owed := text, pending;
      for i := 0 to |characters|
        invariant Fold(AddCaption, Flow(text, pending, false), characters[..i]) == Flow(grown, owed, false)
        invariant |grown| <= MAX_INPUT_VALUE_BYTES
      {
        CaptionOneMore(Flow(text, pending, false), characters, i);
        r, grown, owed := CaptionCharacter(grown, owed, characters[i]);
        if r.Fail? {
          return;
        }
      }
      assert characters[..|characters|] == characters;
      r := Pass;
    }

    static method CaptionCharacter(text: Text, pending: bool, c: char)
        returns (r: Outcome<Error>, grown: Text, owed: bool)
      requires |text| <= MAX_INPUT_VALUE_BYTES
      ensures var next := AddCaption(Flow(text, pending, false), c);
              && r == (if |next.out| > MAX_INPUT_VALUE_BYTES then Fail(TextTooLong) else Pass)
              && (r.Pass? ==> next == Flow(grown, owed, false))
    {
      grown, owed := text, pending;
      if IsWhitespace(c) {
        owed := owed || grown != [];
        return Pass, grown, owed;
      }
      if |grown| + |Utf8(c)| + (if owed then 1 else 0) > MAX_INPUT_VALUE_BYTES {
        return Fail(TextTooLong), grown, owed;
      }
      if owed {
        grown := grown + [SPACE];
        owed := false;
      }
      grown := grown + Utf8(c);
      r := Pass;
    }

    method PushOptionText(characters: string) returns (r: Outcome<Error>)
      requires ControlsOk()
      modifies this`select
      ensures Came(r, OptionTexted(old(Now()), characters))
      ensures r.Pass? ==> ControlsOk()
    {
      FieldsMeans();
      if select.None? || select.value.option.None? {
        return Pass;
      }
      FillingBounds();
      var option := select.value.option.value;
      var text, owed;
      r, text, owed := Caption(option.text, option.pendingSpace, characters);
      if r.Pass? {
        KeepOptionText(text, owed);
        FieldsMeans();
      }
    }

    lemma FillingBounds()
      requires ControlsOk()
      ensures button.Some? ==> |button.value.text| <= MAX_INPUT_VALUE_BYTES
      ensures select.Some? && select.value.option.Some? ==> |select.value.option.value.text| <= MAX_INPUT_VALUE_BYTES
    {
      ControlsMean();
    }

    method KeepOptionText(text: Text, owed: bool)
      requires ControlsOk() && select.Some? && select.value.option.Some? && |text| <= MAX_INPUT_VALUE_BYTES
      modifies this`select
      ensures ControlsOk()
      ensures var option := old(select).value.option.value.(text := text, pendingSpace := owed);
              select == Some(old(select).value.(option := Some(option)))
    {
      ControlsMean();
      select := Some(select.value.(option := Some(select.value.option.value.(text := text, pendingSpace := owed))));
      ControlsMean();
    }

    method PushButtonText(characters: string) returns (r: Outcome<Error>)
      requires ControlsOk() && button.Some?
      modifies this`button
      ensures Came(r, ButtonTexted(old(Now()), characters))
      ensures r.Pass? ==> ControlsOk()
    {
      FieldsMeans();
      if button.value.suppressedControls != 0 {
        return Pass;
      }
      FillingBounds();
      var text, owed;
      r, text, owed := Caption(button.value.text, button.value.pendingSpace, characters);
      if r.Pass? {
        KeepButtonText(text, owed);
        FieldsMeans();
      }
    }

    method KeepButtonText(text: Text, owed: bool)
      requires ControlsOk() && button.Some? && |text| <= MAX_INPUT_VALUE_BYTES
      modifies this`button
      ensures ControlsOk() && button == Some(old(button).value.(text := text, pendingSpace := owed))
    {
      ControlsMean();
      button := Some(button.value.(text := text, pendingSpace := owed));
      ControlsMean();
    }

    method PushTextareaText(characters: string)
      requires ControlsOk() && textarea.Some?
      modifies this`textarea
      ensures ControlsOk() && FieldsNow() == TextareaTexted(old(FieldsNow()), characters)
    {
      ControlsMean();
      FieldsMeans();
      var t := textarea.value;
      for i := 0 to |characters|
        invariant t == Fold(AddToTextarea, textarea.value, characters[..i])
        invariant |t.text| <= MAX_INPUT_VALUE_BYTES && t.control == textarea.value.control
      {
        assert characters[..i + 1][..i] == characters[..i];
        var c := characters[i];
        var afterCr := t.afterCr;
        t := t.(afterCr := c == '\r');
        if c != '\n' || !afterCr {
          var kept := if c == '\r' then '\n' else c;
          var atStart := t.atStart;
          t := t.(atStart := false);
          if !(atStart && kept == '\n') && !t.overflow {
            if |t.text| + |Utf8(kept)| > MAX_INPUT_VALUE_BYTES {
              t := t.(overflow := true);
            } else {
              t := t.(text := t.text + Utf8(kept));
            }
          }
        }
      }
      assert characters[..|characters|] == characters;
      textarea := Some(t);
      FieldsMeans();
      ControlsMean();
    }

    method FillControl(c: nat, value: Text, overflow: bool, shown: Text)
      requires ControlsOk() && c < |controls|
      modifies this`controls
      ensures ControlsOk() && controls == Refill(old(controls), c, value, overflow, shown)
    {
      ControlsMean();
      Refilled(controls, asked, forms, form, options, wished, OpenSelect(), c, value, overflow, shown);
      controls := controls[c := controls[c].(initialValue := value, valueOverflow := overflow, displayLabel := shown)];
      ControlsMean();
    }

    method EndTextarea()
      requires ControlsOk()
      modifies this`textarea, this`controls
      ensures ControlsOk() && textarea.None? && FieldsNow() == TextareaEnded(old(FieldsNow()))
    {
      FieldsMeans();
      if textarea.None? {
        return;
      }
      var t := textarea.value;
      DropTextarea();
      FillControl(t.control, t.text, t.overflow, controls[t.control].displayLabel);
      FieldsMeans();
    }

    method DropTextarea()
      requires ControlsOk() && textarea.Some?
      modifies this`textarea
      ensures ControlsOk() && textarea.None? && old(textarea).value.control < |controls|
    {
      ControlsMean();
      textarea := None;
      ControlsMean();
    }

    method EndButton()
      requires ControlsOk()
      modifies this`button, this`controls
      ensures ControlsOk() && button.None? && FieldsNow() == ButtonEnded(old(FieldsNow()))
    {
      FieldsMeans();
      if button.None? {
        return;
      }
      var b := button.value;
      DropButton();
      FillControl(b.control, controls[b.control].initialValue, controls[b.control].valueOverflow, b.text);
      FieldsMeans();
    }

    method DropButton()
      requires ControlsOk() && button.Some?
      modifies this`button
      ensures ControlsOk() && button.None? && old(button).value.control < |controls|
    {
      ControlsMean();
      button := None;
      ControlsMean();
    }

    // --- options --------------------------------------------------------------------

    method EndOption()
      requires ControlsOk()
      modifies this`select, this`options
      ensures ControlsOk() && |options| == |old(options)| && FieldsNow() == OptionEnded(old(FieldsNow()))
      ensures select.Some? == old(select).Some? && (select.Some? ==> select.value.option.None?)
    {
      FieldsMeans();
      if select.None? || select.value.option.None? {
        return;
      }
      CaptionOption();
      FieldsMeans();
    }

    method CaptionOption()
      requires ControlsOk() && select.Some? && select.value.option.Some?
      modifies this`select, this`options
      ensures ControlsOk() && select == Some(old(select).value.(option := None))
      ensures var o := old(select).value.option.value;
              o.index < |old(options)| && options == old(options)[o.index := Captioned(old(options)[o.index], o)]
    {
      ControlsMean();
      var o := select.value.option.value;
      select := Some(select.value.(option := None));
      var item := options[o.index];
      if !o.hasValue {
        item := item.(value := o.text);
      }
      AlikeChoices(controls, controls, options, options[o.index := item.(caption := o.text)], wished, OpenSelect());
      options := options[o.index := item.(caption := o.text)];
      ControlsMean();
    }

    method BeginOption(value: Option<Text>, selected: bool, disabled: bool) returns (r: Outcome<Error>)
      requires ControlsOk()
      modifies this`select, this`options, this`controls, this`wished
      ensures Came(r, OptionBegun(old(Now()), value, selected, disabled))
      ensures r.Pass? ==> ControlsOk()
    {
      EndOption();
      r := NextOption(value, selected, disabled);
    }

    method NextOption(value: Option<Text>, selected: bool, disabled: bool) returns (r: Outcome<Error>)
      requires ControlsOk()
      modifies this`select, this`options, this`controls, this`wished
      ensures Came(r, OptionAdded(old(Now()), value, selected, disabled))
      ensures r.Pass? ==> ControlsOk()
    {
      FieldsMeans();
      if select.None? {
        return Pass;
      }
      if |options| >= MAX_SELECT_OPTIONS {
        return Fail(TooManyItems);
      }
      r := CheckItems(1);
      if r.Fail? {
        return;
      }
      AddOption(SelectOption(select.value.control, [], if value.Some? then value.value else [], selected,
                             disabled || select.value.groupDisabled), value.Some?);
    }

    method AddOption(option: SelectOption, hasValue: bool)
      requires ControlsOk() && select.Some? && option.control == select.value.control
      modifies this`select, this`options, this`controls, this`wished
      ensures ControlsOk() && FieldsNow() == OptionJoined(old(FieldsNow()), option, hasValue)
    {
      FieldsMeans();
      SeatOption(option, hasValue);
      AppendedIs(old(options), options, option);
      AppendedIs(old(wished), wished, option.selected);
      FieldsMeans();
    }

    method SeatOption(option: SelectOption, hasValue: bool)
      requires ControlsOk() && select.Some? && option.control == select.value.control
      modifies this`select, this`options, this`controls, this`wished
      ensures ControlsOk() && Appended(old(options), options, option) && Appended(old(wished), wished, option.selected)
      ensures option.control < |old(controls)|
              && controls == old(controls)[option.control := OneOptionMore(old(controls)[option.control])]
      ensures select == Some(old(select).value.(option := Some(OptionBuild(|old(options)|, [], false, hasValue))))
    {
      ControlsMean();
      JoinOption(option, hasValue);
      OptionJoinsAll(old(controls), asked, forms, form, old(options), old(wished), option.control, option, controls,
                     options, wished);
      ControlsMean();
    }

    method JoinOption(option: SelectOption, hasValue: bool)
      requires select.Some? && option.control < |controls|
      modifies this`select, this`options, this`controls, this`wished
      ensures Appended(old(options), options, option) && Appended(old(wished), wished, option.selected)
      ensures controls == old(controls)[option.control := OneOptionMore(old(controls)[option.control])]
      ensures select == Some(old(select).value.(option := Some(OptionBuild(|old(options)|, [], false, hasValue))))
    {
      var c := option.control;
      select := Some(select.value.(option := Some(OptionBuild(|options|, [], false, hasValue))));
      options := options + [option];
      wished := wished + [option.selected];
      controls := controls[c := controls[c].(optionCount := controls[c].optionCount + 1)];
    }

    /** Closes a select. A single one then shows the last option marked, or with none marked the first
        one that is enabled. */
    method EndSelect()
      requires ControlsOk()
      modifies this`select, this`options
      ensures ControlsOk() && select.None? && FieldsNow() == SelectEnded(old(FieldsNow()))
    {
      EndOption();
      FieldsMeans();
      if select.Some? {
        CloseSelect();
        FieldsMeans();
      }
    }

    method CloseSelect()
      requires ControlsOk() && select.Some? && select.value.option.None?
      modifies this`select, this`options
      ensures ControlsOk() && select.None?
      ensures var c := old(select).value.control; c < |controls| && options == Closing(controls[c], old(options))
    {
      ControlsMean();
      ghost var before := options;
      var c := select.value.control;
      select := None;
      SettleSelect(c);
      SelectSettles(controls, before, wished, c, options);
      ControlsMean();
    }

    method SettleSelect(c: nat)
      requires c < |controls| && controls[c].firstOption + controls[c].optionCount <= |options|
      modifies this`options
      ensures options == Closing(controls[c], old(options))
    {
      if !controls[c].multiple {
        SettleOptions(controls[c].firstOption, controls[c].firstOption + controls[c].optionCount);
      }
    }

    method SettleOptions(start: nat, end: nat)
      requires start <= end <= |options|
      modifies this`options
      ensures options == Settled(old(options), start, end)
    {
      ghost var before := options;
      ghost var chosen := Chosen(before, Selected(before), start, end);
      ChosenIsRight(before, Selected(before), start, end);
      var last := end;
      while last > start && !options[last - 1].selected
        invariant start <= last <= end
        invariant forall i :: last <= i < end ==> !Selected(before)[i]
      {
        last := last - 1;
      }
      for i := start to end
        invariant |options| == |before|
        invariant forall k :: 0 <= k < |before| ==>
                    options[k] == if start <= k < i then before[k].(selected := last > start && k == last - 1)
                        else before[k]
      {
        options := options[i := options[i].(selected := last > start && i == last - 1)];
      }
      if last > start {
        assert Selected(before)[last - 1];
        assert chosen == Some(last - 1);
      } else {
        var first := start;
        while first < end && options[first].disabled
          invariant start <= first <= end
          invariant forall i :: start <= i < first ==> before[i].disabled
        {
          first := first + 1;
        }
        if first < end {
          options := options[first := options[first].(selected := true)];
          assert chosen == Some(first);
        } else {
          assert chosen.None?;
        }
      }
    }

    // --- labels -----------------------------------------------------------------------

    method BeginLabel(target: Option<Text>) returns (r: Outcome<Error>)
      requires FlowOk() && Rested()
      modifies this`title, this`text, this`marks, this`runOpen, this`runStart, this`openPre, this`atBlockStart,
               this`openKind, this`openFirstRun, this`openFirstControl, this`runs, this`runPre, this`pendingSpace,
               this`labels, this`labelOpen
      ensures Came(r, LabelBegun(old(Now()), target))
      ensures r.Pass? ==> FlowOk() && Rested()
    {
      r := EndLabel();
      if r.Fail? || target.None? || target.value == [] {
        return;
      }
      r := EndRunHere();
      if r.Pass? {
        CopyMeans();
        NoteLabel(Some(LabelBuild(target.value, |text|)));
      }
    }

    method NoteLabel(open: Option<LabelBuild>)
      modifies this`labelOpen
      ensures Now() == LabelNoted(old(Now()), open)
    {
      RestMeans();
      labelOpen := open;
      RestMeans();
    }

    method EndLabel() returns (r: Outcome<Error>)
      requires FlowOk() && Rested()
      modifies this`title, this`text, this`marks, this`runOpen, this`runStart, this`openPre, this`atBlockStart,
               this`openKind, this`openFirstRun, this`openFirstControl, this`runs, this`runPre, this`pendingSpace,
               this`labels, this`labelOpen
      ensures Came(r, LabelEnded(old(Now())))
      ensures r.Pass? ==> FlowOk() && Rested()
    {
      RestMeans();
      if labelOpen.None? {
        return Pass;
      }
      var build := labelOpen.value;
      NoteLabel(None);
      r := EndRunHere();
      if r.Pass? {
        r := FileLabel(build);
      }
    }

    method FileLabel(build: LabelBuild) returns (r: Outcome<Error>)
      modifies this`labels
      ensures Came(r, LabelFiled(old(Now()), build))
    {
      r := CheckItems(1);
      if r.Pass? {
        ListLabel(build);
      }
    }

    method ListLabel(build: LabelBuild)
      modifies this`labels
      ensures Now() == LabelListed(old(Now()), build)
    {
      CopyMeans();
      RestMeans();
      labels := labels + [Label(build.textStart, |text|, build.targetId)];
      RestMeans();
    }

    // --- tables -----------------------------------------------------------------------

    method BeginTable() returns (r: Outcome<Error>)
      requires FlowOk() && TablesOk() && table.None?
      modifies this`runs, this`runPre, this`runOpen, this`blocks, this`openKind, this`atBlockStart,
               this`pendingSpace, this`table, this`tables, this`placed
      ensures Came(r, TableBegun(old(Now())))
      ensures r.Pass? ==> FlowOk() && Rested() && TablesOk()
    {
      r := CloseBlock();
      if r.Pass? {
        r := TableHere();
      }
    }

    method TableHere() returns (r: Outcome<Error>)
      requires TablesOk() && table.None?
      modifies this`table, this`tables, this`placed
      ensures Came(r, TableOpened(old(Now()))) && (r.Pass? ==> TablesOk())
    {
      r := CheckItems(1);
      if r.Pass? {
        AddTable();
      }
    }

    method AddTable()
      requires TablesOk() && table.None?
      modifies this`table, this`tables, this`placed
      ensures TablesOk() && GridsNow() == TableListed(old(GridsNow()))
    {
      TablesMean();
      GridsMeans();
      TableOpens(tables, tableRows, tableCells, placed, NewTable(|tables|, |tableCells|, |tableRows|));
      ListTable();
      GridsMeans();
      TablesMean();
    }

    method ListTable()
      modifies this`table, this`tables, this`placed
      ensures tables == old(tables) + [Table(|tableCells|, 0, |tableRows|, 0, 0)] && placed == {}
      ensures table == Some(NewTable(|old(tables)|, |tableCells|, |tableRows|))
    {
      table := Some(TableBuild(|tables|, |tableCells|, |tableRows|, None, Body, Clear(), None, 0, 0, false));
      tables := tables + [Table(|tableCells|, 0, |tableRows|, 0, 0)];
      placed := {};
    }

    /** Every cell hanging down from above hangs one row less. */
    static method AgeColumns(occupied: Occupied) returns (aged: Occupied)
      ensures aged == NextRow(occupied)
    {
      aged := occupied;
      for i := 0 to MAX_TABLE_COLUMNS
        invariant forall c :: 0 <= c < i ==> aged[c] == NextRow(occupied)[c]
        invariant forall c :: i <= c < MAX_TABLE_COLUMNS ==> aged[c] == occupied[c]
      {
        if aged[i] != 0 {
          aged := aged[i := aged[i] - 1];
        }
      }
    }

    static method HangCell(occupied: Occupied, square: Square) returns (hung: Occupied)
      requires InColumns(square)
      ensures hung == Hang(occupied, square)
    {
      hung := occupied;
      for i := square.column to square.column + square.colspan
        invariant forall c :: 0 <= c < MAX_TABLE_COLUMNS ==>
                    hung[c] == if square.column <= c < i then square.rowspan else occupied[c]
      {
        hung := hung[i := square.rowspan];
      }
    }

    method BeginTableRow() returns (r: Outcome<Error>)
      requires FlowOk() && Rested() && TablesOk() && table.Some?
      modifies this`runs, this`runPre, this`runOpen, this`blocks, this`openKind, this`atBlockStart, this`pendingSpace,
               this`misfiled, this`table, this`tableRows, this`tableCells
      ensures Came(r, RowBegun(old(Now())))
      ensures r.Pass? ==>
                FlowOk() && Rested() && TablesOk() && table.Some? && table.value.row.Some? && table.value.openCell.None?
    {
      r := EndTableCell();
      if r.Fail? {
        return;
      }
      r := ListRow();
    }

    method ListRow() returns (r: Outcome<Error>)
      requires TablesOk() && table.Some? && table.value.openCell.None?
      modifies this`table, this`tableRows
      ensures Came(r, RowListed(old(Now())))
      ensures r.Pass? ==> TablesOk() && table.Some? && table.value.row.Some? && table.value.openCell.None?
    {
      GridsMeans();
      r := CheckItems(1);
      if r.Pass? {
        AddRow();
      }
    }

    method AddRow()
      requires TablesOk() && table.Some? && table.value.openCell.None?
      modifies this`table, this`tableRows
      ensures TablesOk() && table == Some(WithRow(old(table).value)) && GridsNow() == RowAdded(old(GridsNow()))
    {
      TablesMean();
      GridsMeans();
      var t := table.value;
      var number := if t.row.Some? then t.row.value + 1 else 0;
      var row := TableRow(t.index, number, t.group);
      RowBegins(tables, tableRows, tableCells, t, placed, row);
      var aged := AgeColumns(t.occupied);
      table := Some(t.(occupied := aged, row := Some(number)));
      tableRows := tableRows + [row];
      GridsMeans();
      TablesMean();
    }

    method BeginTableCell(header: bool, rowspan: Option<nat>, colspan: Option<nat>) returns (r: Outcome<Error>)
      requires FlowOk() && Rested() && TablesOk() && table.Some?
      modifies this`runs, this`runPre, this`runOpen, this`blocks, this`openKind, this`atBlockStart,
               this`pendingSpace, this`openFirstRun, this`openFirstControl, this`misfiled, this`table,
               this`tableRows, this`tableCells, this`placed
      ensures Came(r, CellBegun(old(Now()), header, rowspan, colspan))
      ensures r.Pass? ==> FlowOk() && Rested() && TablesOk()
    {
      r := RowForCell();
      if r.Pass? {
        r := OpenCellHere(header, ParseSpan(rowspan), ParseSpan(colspan));
      }
    }

    method OpenCellHere(header: bool, rowspan: nat, colspan: nat) returns (r: Outcome<Error>)
      requires FlowOk() && Rested() && TablesOk() && rowspan >= 1 && colspan >= 1
      requires table.Some? && table.value.row.Some? && table.value.openCell.None?
      modifies this`openKind, this`atBlockStart, this`pendingSpace, this`openFirstRun, this`openFirstControl,
               this`misfiled, this`table, this`placed
      ensures Came(r, CellOpened(old(Now()), header, rowspan, colspan))
      ensures r.Pass? ==> FlowOk() && Rested() && TablesOk()
    {
      r := PlaceCell(header, rowspan, colspan);
      if r.Pass? {
        GridsMeans();
        OpenCellBlock();
      }
    }

    method RowForCell() returns (r: Outcome<Error>)
      requires FlowOk() && Rested() && TablesOk() && table.Some?
      modifies this`runs, this`runPre, this`runOpen, this`blocks, this`openKind, this`atBlockStart, this`pendingSpace,
               this`misfiled, this`table, this`tableRows, this`tableCells
      ensures Came(r, InRow(old(Now())))
      ensures r.Pass? ==>
                FlowOk() && Rested() && TablesOk() && table.Some? && table.value.row.Some? && table.value.openCell.None?
    {
      r := EndTableCell();
      GridsMeans();
      if r.Pass? && table.value.row.None? {
        r := BeginTableRow();
      }
    }

    method PlaceCell(header: bool, rowspan: nat, colspan: nat) returns (r: Outcome<Error>)
      requires TablesOk() && table.Some? && table.value.row.Some? && table.value.openCell.None? && rowspan >= 1
               && colspan >= 1
      modifies this`table, this`placed
      ensures Came(r, CellPlaced(old(Now()), header, rowspan, colspan))
      ensures r.Pass? ==> TablesOk() && table.Some?
    {
      GridsMeans();
      var b := table.value;
      var place := Place(b.occupied, colspan);
      if place.None? {
        return Fail(TooManyItems);
      }
      var (column, span) := place.value;
      TakeSquare(Square(b.row.value, column, rowspan, span), header, colspan);
      r := Pass;
    }

    method TakeSquare(square: Square, header: bool, ghost colspan: nat)
      requires TablesOk() && table.Some? && table.value.row == Some(square.row) && table.value.openCell.None?
      requires InColumns(square) && Fits(table.value.occupied, square.column, colspan)
               && square.colspan == Clamped(colspan, square.column)
      modifies this`table, this`placed
      ensures TablesOk() && table.Some? && Now() == CellHung(old(Now()), square, header)
    {
      CopyMeans();
      RestMeans();
      FieldsMeans();
      GridsMeans();
      HangOpenCell(OpenCell(square, header, |text|, |images|, |controls|), colspan);
      GridsMeans();
    }

    method HangOpenCell(cell: OpenCell, ghost colspan: nat)
      requires TablesOk() && table.Some? && table.value.row == Some(cell.square.row) && table.value.openCell.None?
      requires InColumns(cell.square) && Fits(table.value.occupied, cell.square.column, colspan)
      requires cell.square.colspan == Clamped(colspan, cell.square.column)
      modifies this`table, this`placed
      ensures TablesOk() && table == Some(WithCell(old(table).value, cell))
    {
      TablesMean();
      var b := table.value;
      CellOpens(tables, tableRows, tableCells, b, placed, cell, colspan);
      var hung := HangCell(b.occupied, cell.square);
      var right := cell.square.column + cell.square.colspan;
      table := Some(b.(occupied := hung, columns := if b.columns < right then right else b.columns,
                       openCell := Some(cell)));
      placed := placed + {cell.square};
      TablesMean();
    }

    /** The cell's text goes to a paragraph; what was open outside the cells is not closed first. */
    method OpenCellBlock()
      requires FlowOk()
      modifies this`misfiled, this`openKind, this`openFirstRun, this`openFirstControl, this`atBlockStart,
               this`pendingSpace
      ensures FlowOk() && Now() == CellHoused(old(Now()))
    {
      FlowBounds();
      CopyMeans();
      FieldsMeans();
      SettingMeans();
      HouseCell();
      SettingMeans();
    }

    method HouseCell()
      requires FlowOk()
      modifies this`misfiled, this`openKind, this`openFirstRun, this`openFirstControl, this`atBlockStart,
               this`pendingSpace
      ensures FlowOk() && openKind == Some(Paragraph) && openFirstRun == |runs| && openFirstControl == |controls|
      ensures atBlockStart && !pendingSpace && old(openFirstRun) <= |runs|
      ensures misfiled == old(misfiled) + if old(openKind).Some? then |runs| - old(openFirstRun) else 0
    {
      FlowMeans();
      RunsArePassed();
      TakeParagraph();
      FlowMeans();
    }

    lemma RunsArePassed()
      requires BlocksOk()
      ensures Filed(blocks, |runs|, |runs|, misfiled + if openKind.Some? then |runs| - openFirstRun else 0)
    {
      if openKind.Some? && openFirstRun < |runs| {
        RunsPassedOver(blocks, |runs|, openFirstRun, misfiled);
      }
    }

    method TakeParagraph()
      requires openFirstRun <= |runs|
      modifies this`misfiled, this`openKind, this`openFirstRun, this`openFirstControl, this`atBlockStart,
               this`pendingSpace
      ensures openKind == Some(Paragraph) && openFirstRun == |runs| && openFirstControl == |controls| && atBlockStart
              && !pendingSpace
      ensures misfiled == old(misfiled) + if old(openKind).Some? then |runs| - old(openFirstRun) else 0
    {
      misfiled := misfiled + if openKind.Some? then |runs| - openFirstRun else 0;
      openKind := Some(Paragraph);
      openFirstRun := |runs|;
      openFirstControl := |controls|;
      atBlockStart := true;
      pendingSpace := false;
    }

    method EndTableCell() returns (r: Outcome<Error>)
      requires FlowOk() && Rested() && TablesOk()
      modifies this`runs, this`runPre, this`runOpen, this`blocks, this`openKind, this`atBlockStart, this`pendingSpace,
               this`misfiled, this`table, this`tableCells
      ensures Came(r, CellFiled(old(Now())))
      ensures r.Pass? ==> FlowOk() && Rested() && TablesOk() && table.Some? == old(table).Some?
      ensures r.Pass? && table.Some? ==> table.value == Between(old(table).value)
    {
      GridsMeans();
      if table.None? || table.value.openCell.None? {
        return Pass;
      }
      r := CloseRun();
      if r.Pass? {
        r := FileCell(table.value.openCell.value);
      }
    }

    method FileCell(cell: OpenCell) returns (r: Outcome<Error>)
      requires FlowOk() && TablesOk() && !runOpen && table.Some? && table.value.openCell == Some(cell)
      modifies this`blocks, this`misfiled, this`openKind, this`atBlockStart, this`pendingSpace, this`table,
               this`tableCells
      ensures r.Pass? ==> FlowOk() && TablesOk() && table == Some(Between(old(table).value))
      ensures Came(r, var d :- Need(old(Now()), 2); Success(CellClosed(d, cell)))
    {
      r := CheckItems(2);
      if r.Fail? {
        return;
      }
      CopyMeans();
      SettingMeans();
      FieldsMeans();
      GridsMeans();
      RestMeans();
      var made := TableCell(table.value.index, |blocks|, cell.textStart, |text|, cell.firstImage,
                            SaturatingSub(|images|, cell.firstImage), cell.firstControl,
                            SaturatingSub(|controls|, cell.firstControl), cell.square, cell.header);
      FileCellBlock(cell);
      AddCell(made);
      GridsMeans();
    }

    method FileCellBlock(cell: OpenCell)
      requires FlowOk() && !runOpen
      modifies this`blocks, this`misfiled, this`openKind, this`atBlockStart, this`pendingSpace
      ensures FlowOk() && Now() == CellBlockFiled(old(Now()), CellBlockOf(old(Now()), cell))
    {
      FlowBounds();
      CopyMeans();
      SettingMeans();
      FieldsMeans();
      var block := Block(Paragraph, openFirstRun, |runs| - openFirstRun, cell.firstControl,
                         SaturatingSub(|controls|, cell.firstControl));
      if openKind.Some? || block.runCount == 0 {
        ListBlock(block);
      } else {
        ListAgain(block);
      }
    }

    method ListAgain(block: Block)
      requires FlowOk() && !runOpen && block.firstRun == openFirstRun && openFirstRun + block.runCount == |runs|
      requires openKind.None? && block.runCount > 0
      modifies this`blocks, this`misfiled, this`openKind, this`atBlockStart, this`pendingSpace
      ensures FlowOk() && Now() == BlockListed(Misfiled(old(Now()), block.runCount), block)
    {
      SettingMeans();
      FileAgain(block);
      AppendedIs(old(blocks), blocks, block);
      SettingMeans();
    }

    method AddCell(made: TableCell)
      requires TablesOk() && table.Some? && table.value.openCell.Some?
      requires made.table == table.value.index && made.square == table.value.openCell.value.square
      modifies this`table, this`tableCells
      ensures TablesOk() && table == Some(Between(old(table).value)) && GridsNow() == CellListed(old(GridsNow()), made)
    {
      TablesMean();
      GridsMeans();
      CellCloses(tables, tableRows, tableCells, table.value, placed, made);
      table := Some(table.value.(openCell := None));
      tableCells := tableCells + [made];
      GridsMeans();
      TablesMean();
    }

    method EndTable() returns (r: Outcome<Error>)
      requires FlowOk() && Rested() && TablesOk()
      modifies this`runs, this`runPre, this`runOpen, this`blocks, this`openKind, this`atBlockStart, this`pendingSpace,
               this`misfiled, this`table, this`tableCells, this`tables
      ensures Came(r, TableEnded(old(Now())))
      ensures r.Pass? ==> FlowOk() && Rested() && TablesOk() && table.None?
    {
      r := EndTableCell();
      if r.Pass? {
        FinishTable();
      }
    }

    method FinishTable()
      requires TablesOk() && (table.Some? ==> table.value.openCell.None?)
      modifies this`table, this`tables
      ensures TablesOk() && table.None? && GridsNow() == TableDone(old(GridsNow()))
    {
      GridsMeans();
      if table.None? {
        return;
      }
      TablesMean();
      var b := table.value;
      TableCloses(tables, tableRows, tableCells, b, placed);
      tables := tables[b.index := Table(b.firstCell, |tableCells| - b.firstCell, b.firstRow,
                                        if b.row.Some? then b.row.value + 1 else 0, b.columns)];
      table := None;
      GridsMeans();
      TablesMean();
    }

    /** What a table being built remembers besides its cells and rows. */
    method RememberTable(group: RowGroup, nested: nat, nestedCellInRow: bool)
      requires Valid() && table.Some?
      modifies this`table
      ensures Valid() && table.Some? && Now() == TableNoted(old(Now()), group, nested, nestedCellInRow)
    {
      TablesMean();
      GridsMeans();
      table := Some(table.value.(group := group, nested := nested, nestedCellInRow := nestedCellInRow));
      GridsMeans();
      TablesMean();
    }

    // --- events ---------------------------------------------------------------------

    /** A hard break inside the current block. */
    method PushBreak() returns (r: Outcome<Error>)
      requires FlowOk() && Rested()
      modifies this`title, this`text, this`marks, this`runOpen, this`runStart, this`openPre, this`atBlockStart,
               this`openKind, this`openFirstRun, this`openFirstControl, this`pendingSpace
      ensures Came(r, Broken(old(Now())))
      ensures r.Pass? ==> FlowOk() && Rested()
    {
      FlowBounds();
      CopyMeans();
      SettingMeans();
      if inTitle {
        return Pass;
      }
      r := BreakLine();
    }

    method BreakLine() returns (r: Outcome<Error>)
      requires FlowOk() && Rested() && !inTitle
      modifies this`title, this`text, this`marks, this`runOpen, this`runStart, this`openPre, this`atBlockStart,
               this`openKind, this`openFirstRun, this`openFirstControl, this`pendingSpace
      ensures Came(r, Wrote(old(Now()), Flow(old(text) + [NEWLINE], false, true)))
      ensures r.Pass? ==> FlowOk() && Rested()
    {
      CopyMeans();
      SettingMeans();
      if |text| + 1 <= MAX_TEXT_BYTES {
        WroteExtends(Now(), [NEWLINE], false, true);
      }
      Space(false);
      OpenRunIfNeeded();
      CopyMeans();
      r := AppendToRun('\n', true);
    }

    method LineBreak() returns (r: Outcome<Error>)
      requires Valid()
      modifies this
      ensures Came(r, Broken(old(Now()))) && (r.Pass? ==> Valid())
    {
      r := PushBreak();
    }

    method BeginBlock(kind: BlockKind) returns (r: Outcome<Error>)
      requires Valid()
      modifies this
      ensures Came(r, BlockBegun(old(Now()), kind)) && (r.Pass? ==> Valid() && !runOpen)
    {
      r := EndBlock();
      if r.Pass? {
        OpenHere(kind);
      }
    }

    method EndBlock() returns (r: Outcome<Error>)
      requires Valid()
      modifies this
      ensures Came(r, BlockEnded(old(Now()))) && (r.Pass? ==> Valid() && !runOpen && openKind.None?)
    {
      r := CloseBlock();
    }

    method PushText(characters: string) returns (r: Outcome<Error>)
      requires Valid()
      modifies this
      ensures Came(r, Texted(old(Now()), characters)) && (r.Pass? ==> Valid())
    {
      FieldsMeans();
      if select.Some? || textarea.Some? || button.Some? {
        r := PushFieldText(characters);
      } else {
        r := PushBodyText(characters);
      }
    }

    method PushFieldText(characters: string) returns (r: Outcome<Error>)
      requires ControlsOk() && (select.Some? || textarea.Some? || button.Some?)
      modifies this`select, this`textarea, this`button
      ensures Came(r, FieldTexted(old(Now()), characters)) && (r.Pass? ==> ControlsOk())
    {
      FieldsMeans();
      if select.Some? {
        r := PushOptionText(characters);
      } else if textarea.Some? {
        PushTextareaText(characters);
        r := Pass;
      } else {
        r := PushButtonText(characters);
      }
    }

    /** `<title>`: text goes to the title from here on. */
    method BeginTitle() returns (r: Outcome<Error>)
      requires Valid()
      modifies this
      ensures Came(r, TitleBegun(old(Now()))) && (r.Pass? ==> Valid())
    {
      r := EndBlock();
      if r.Pass? {
        EnterTitle();
      }
    }

    method EnterTitle()
      requires FlowOk() && !runOpen
      modifies this`inTitle, this`atBlockStart, this`pendingSpace
      ensures FlowOk() && Now() == InTitle(old(Now()))
    {
      FlowMeans();
      HeadTitle();
      FlowMeans();
    }

    method HeadTitle()
      modifies this`inTitle, this`atBlockStart, this`pendingSpace
      ensures inTitle && atBlockStart && !pendingSpace && SettingNow() == InTitle(old(Now())).setting
    {
      SettingMeans();
      inTitle := true;
      atBlockStart := true;
      pendingSpace := false;
      SettingMeans();
    }

    /** `</title>`: a run that is open is dropped. Inside a title there is none; a stray end tag loses the
        text of the open run from every run. */
    method EndTitle()
      requires Valid()
      modifies this`inTitle, this`runOpen, this`atBlockStart, this`pendingSpace, this`lost
      ensures Valid() && Now() == TitleEnded(old(Now()))
    {
      LeaveTitle();
    }

    method LeaveTitle()
      requires FlowOk()
      modifies this`inTitle, this`runOpen, this`atBlockStart, this`pendingSpace, this`lost
      ensures FlowOk() && !runOpen && CopyNow() == TitleEnded(old(Now())).copy
              && SettingNow() == TitleEnded(old(Now())).setting
    {
      FlowMeans();
      DropOpenRun();
      FlowMeans();
    }

    method DropOpenRun()
      requires runOpen ==> runStart <= |text|
      modifies this`inTitle, this`runOpen, this`atBlockStart, this`pendingSpace, this`lost
      ensures !inTitle && !runOpen && atBlockStart && !pendingSpace
      ensures lost == old(lost) + (if old(runOpen) then |text| - runStart else 0)
      ensures CopyNow() == TitleEnded(old(Now())).copy && SettingNow() == TitleEnded(old(Now())).setting
    {
      LoseOpenRun();
      SettingMeans();
      inTitle := false;
      atBlockStart := true;
      pendingSpace := false;
      SettingMeans();
    }

    method LoseOpenRun()
      requires runOpen ==> runStart <= |text|
      modifies this`runOpen, this`lost
      ensures !runOpen && lost == old(lost) + (if old(runOpen) then |text| - runStart else 0)
      ensures CopyNow() == TitleEnded(old(Now())).copy
    {
      CopyMeans();
      lost := lost + if runOpen then |text| - runStart else 0;
      runOpen := false;
      CopyMeans();
    }

    method BeginPre() returns (r: Outcome<Error>)
      requires Valid()
      modifies this
      ensures Came(r, PreBegun(old(Now()))) && (r.Pass? ==> Valid())
    {
      r := BeginBlock(Preformatted);
      if r.Pass? {
        KeepSpaces(true);
      }
    }

    method KeepSpaces(on: bool)
      requires Valid() && !runOpen
      modifies this`preformatted
      ensures Valid() && Now() == Verbatim(old(Now()), on)
    {
      SettingMeans();
      preformatted := on;
      SettingMeans();
    }

    method EndPre() returns (r: Outcome<Error>)
      requires Valid()
      modifies this
      ensures Came(r, PreEnded(old(Now()))) && (r.Pass? ==> Valid())
    {
      r := ClosePre();
    }

    method ClosePre() returns (r: Outcome<Error>)
      requires FlowOk()
      modifies this`preformatted, this`runs, this`runPre, this`runOpen, this`blocks, this`openKind,
               this`atBlockStart, this`pendingSpace
      ensures Came(r, PreEnded(old(Now()))) && (r.Pass? ==> FlowOk() && !runOpen)
    {
      SettingMeans();
      preformatted := false;
      SettingMeans();
      r := CloseBlock();
    }

    method HorizontalRule() returns (r: Outcome<Error>)
      requires Valid()
      modifies this
      ensures Came(r, RuleDrawn(old(Now()))) && (r.Pass? ==> Valid())
    {
      r := BeginBlock(Rule);
      if r.Pass? {
        r := EndBlock();
      }
    }

    // --- lists --------------------------------------------------------------------------

    method BeginList(ordered: bool) returns (r: Outcome<Error>)
      requires Valid()
      modifies this
      ensures Came(r, ListBegun(old(Now()), ordered)) && (r.Pass? ==> Valid())
    {
      r := EndBlock();
      if r.Pass? {
        RestMeans();
        if |lists| < MAX_NESTING_DEPTH {
          SetLists(lists + [ListLevel(ordered, 1)]);
        }
      }
    }

    method SetLists(newLists: seq<ListLevel>)
      requires Valid() && |newLists| <= MAX_NESTING_DEPTH
      modifies this`lists
      ensures Valid() && Now() == Relisted(old(Now()), newLists)
    {
      RestMeans();
      lists := newLists;
      RestMeans();
    }

    method EndList() returns (r: Outcome<Error>)
      requires Valid()
      modifies this
      ensures Came(r, ListEnded(old(Now()))) && (r.Pass? ==> Valid())
    {
      r := EndBlock();
      if r.Pass? {
        RestMeans();
        if lists != [] {
          SetLists(lists[..|lists| - 1]);
        }
      }
    }

    /** Numbers count up within their list. */
    method ListMarker() returns (depth: nat, marker: Marker)
      modifies this`lists
      ensures (depth, marker) == NextMarker(old(lists)) && lists == Counted(old(lists))
              && Now() == Relisted(old(Now()), lists)
    {
      RestMeans();
      depth := SaturatingSub(|lists|, 1);
      depth := if depth > 255 then 255 else depth;
      if lists == [] {
        return 0, Bullet;
      }
      var level := lists[|lists| - 1];
      if !level.ordered {
        return depth, Bullet;
      }
      lists := lists[|lists| - 1 := level.(nextNumber := SaturatingAdd32(level.nextNumber))];
      RestMeans();
      marker := Number(level.nextNumber);
    }

    method BeginItem() returns (r: Outcome<Error>)
      requires Valid()
      modifies this
      ensures Came(r, ItemBegun(old(Now()))) && (r.Pass? ==> Valid())
    {
      RestMeans();
      var depth, marker := ListMarker();
      r := BeginBlock(ListItem(depth, marker));
    }

    // --- inline elements, as events ---------------------------------------------------------

    method BeginInline(name: Name) returns (r: Outcome<Error>)
      requires Valid() && name.InlineTag?
      modifies this
      ensures Came(r, InlineOpened(old(Now()), name, InlineStyle(name.element), false)) && (r.Pass? ==> Valid())
    {
      r := PushInline(name, InlineStyle(name.element), false);
    }

    method BeginAnchor(href: Option<Text>) returns (r: Outcome<Error>)
      requires Valid()
      modifies this
      ensures Came(r, LinkStarted(old(Now()), href)) && (r.Pass? ==> Valid())
    {
      r := StartLink(href);
    }

    // --- controls, as events ------------------------------------------------------------------

    method EndForm() returns (r: Outcome<Error>)
      requires Valid()
      modifies this
      ensures Came(r, FormEnded(old(Now()))) && (r.Pass? ==> Valid())
    {
      LeaveForm();
      r := EndBlock();
    }

    method LeaveForm()
      requires Valid()
      modifies this`form, this`button, this`controls
      ensures Valid() && FieldsNow() == ButtonEnded(old(FieldsNow())).(form := None)
    {
      EndButton();
      DropForm();
    }

    method DropForm()
      requires ControlsOk()
      modifies this`form
      ensures ControlsOk() && FieldsNow() == old(FieldsNow()).(form := None)
    {
      ControlsMean();
      FieldsMeans();
      form := None;
      FieldsMeans();
      ControlsMean();
    }

    method AddInput(tag: Tag) returns (r: Outcome<Error>)
      requires Valid() && select.None?
      modifies this
      ensures Came(r, InputAdded(old(Now()), tag)) && (r.Pass? ==> Valid())
    {
      FieldsMeans();
      r := AddNew(NewControl(form, |options|, InputKind(tag.typeAttribute), false, tag, tag.value, tag.checked),
                  tag.checked);
    }

    method BeginButton(tag: Tag) returns (r: Outcome<Error>)
      requires Valid() && select.None? && button.None?
      modifies this
      ensures Came(r, ButtonBegun(old(Now()), tag)) && (r.Pass? ==> Valid())
    {
      r := AddButton(tag);
      if r.Pass? {
        TakeButton();
      }
    }

    method AddButton(tag: Tag) returns (r: Outcome<Error>)
      requires Valid() && select.None?
      modifies this
      ensures Came(r, ButtonAdded(old(Now()), tag)) && (r.Pass? ==> Valid() && JustAdded())
    {
      FieldsMeans();
      r := AddNew(NewControl(form, |options|, ButtonKind(tag.typeAttribute), false, tag, tag.value, false), false);
    }

    method TakeButton()
      requires Valid() && JustAdded()
      modifies this`button
      ensures Valid() && Now() == ButtonFilled(old(Now()))
    {
      FillButton();
    }

    method FillButton()
      requires ControlsOk() && JustAdded()
      modifies this`button
      ensures ControlsOk() && FieldsNow() == ButtonOpened(old(FieldsNow()))
    {
      ControlsMean();
      FieldsMeans();
      button := Some(ButtonBuild(|controls| - 1, [], false, 0));
      FieldsMeans();
      ControlsMean();
    }

    method BeginTextarea(tag: Tag) returns (r: Outcome<Error>)
      requires Valid() && select.None?
      modifies this
      ensures Came(r, TextareaBegun(old(Now()), tag)) && (r.Pass? ==> Valid())
    {
      FieldsMeans();
      if textarea.Some? {
        return Pass;
      }
      r := AddTextarea(tag);
      if r.Pass? {
        TakeTextarea();
      }
    }

    method AddTextarea(tag: Tag) returns (r: Outcome<Error>)
      requires Valid() && select.None?
      modifies this
      ensures Came(r, TextareaAdded(old(Now()), tag)) && (r.Pass? ==> Valid() && JustAdded())
    {
      FieldsMeans();
      r := AddNew(NewControl(form, |options|, Textarea, false, tag, None, false), false);
    }

    method TakeTextarea()
      requires Valid() && JustAdded()
      modifies this`textarea
      ensures Valid() && Now() == TextareaFilled(old(Now()))
    {
      FillTextarea();
    }

    method FillTextarea()
      requires ControlsOk() && JustAdded()
      modifies this`textarea
      ensures ControlsOk() && FieldsNow() == TextareaOpened(old(FieldsNow()))
    {
      ControlsMean();
      FieldsMeans();
      textarea := Some(TextareaBuild(|controls| - 1, [], true, false, false));
      FieldsMeans();
      ControlsMean();
    }

    method BeginSelect(tag: Tag) returns (r: Outcome<Error>)
      requires Valid() && select.None?
      modifies this
      ensures Came(r, SelectBegun(old(Now()), tag)) && (r.Pass? ==> Valid())
    {
      r := AddSelect(tag);
      if r.Pass? {
        TakeSelect();
      }
    }

    method AddSelect(tag: Tag) returns (r: Outcome<Error>)
      requires Valid() && select.None?
      modifies this
      ensures Came(r, SelectAdded(old(Now()), tag)) && (r.Pass? ==> Valid() && JustAdded())
    {
      FieldsMeans();
      r := AddNew(NewControl(form, |options|, Select, tag.multiple, tag, None, false), false);
    }

    method TakeSelect()
      requires Valid() && JustAdded()
      modifies this`select
      ensures Valid() && Now() == SelectFilled(old(Now()))
    {
      FillSelect();
    }

    method FillSelect()
      requires ControlsOk() && JustAdded()
      modifies this`select
      ensures ControlsOk() && FieldsNow() == SelectOpened(old(FieldsNow()))
    {
      ControlsMean();
      FieldsMeans();
      NobodysOptions(controls, options, wished, |controls| - 1);
      select := Some(SelectBuild(|controls| - 1, false, None));
      FieldsMeans();
      ControlsMean();
    }

    /** `<optgroup>` and its end tag. */
    method EndOptionGroup(disabled: bool)
      requires ControlsOk() && select.Some?
      modifies this`select, this`options
      ensures ControlsOk() && FieldsNow() == OptionGroupEnded(old(FieldsNow()), disabled)
    {
      EndOption();
      FieldsMeans();
      GroupOptions(disabled);
      FieldsMeans();
    }

    method GroupOptions(disabled: bool)
      requires ControlsOk() && select.Some?
      modifies this`select
      ensures ControlsOk() && select == Some(old(select).value.(groupDisabled := disabled))
    {
      ControlsMean();
      select := Some(select.value.(groupDisabled := disabled));
      ControlsMean();
    }

    /** Inside a select only its own structure means anything. */
    method StartInSelect(tag: Tag) returns (r: Outcome<Error>)
      requires ControlsOk() && select.Some?
      modifies this`select, this`options, this`controls, this`wished
      ensures Came(r, InSelectStarted(old(Now()), tag)) && (r.Pass? ==> ControlsOk())
    {
      r := Pass;
      match tag.name
      case OptionTag => r := BeginOption(tag.value, tag.selected, tag.disabled);
      case OptionGroupTag => EndOptionGroup(tag.disabled);
      case SelectTag => EndSelect();
      case _ =>
    }

    method EndInSelect(name: Name)
      requires ControlsOk() && select.Some?
      modifies this`select, this`options
      ensures ControlsOk() && FieldsNow() == InSelectEnded(old(FieldsNow()), name)
      ensures name.FormTag? ==> select.None?
    {
      match name
      case OptionTag => EndOption();
      case OptionGroupTag => EndOptionGroup(false);
      case SelectTag => EndSelect();
      case FormTag => EndSelect();
      case _ =>
    }

    /** Controls inside a button do not count, nor does any text in them. */
    method StartInButton(name: Name)
      requires Valid() && button.Some?
      modifies this`button
      ensures Valid() && FieldsNow() == InButtonStarted(old(FieldsNow()), name)
    {
      FieldsMeans();
      if IsNestedControl(name) {
        Suppress(Deeper(button.value.suppressedControls));
      }
    }

    method Suppress(count: nat)
      requires ControlsOk() && button.Some?
      modifies this`button
      ensures ControlsOk() && FieldsNow() == Suppressed(old(FieldsNow()), count)
    {
      ControlsMean();
      FieldsMeans();
      button := Some(button.value.(suppressedControls := count));
      FieldsMeans();
      ControlsMean();
    }

    method EndInButton(name: Name) returns (r: Outcome<Error>)
      requires Valid() && button.Some?
      modifies this
      ensures Came(r, InButtonEnded(old(Now()), name)) && (r.Pass? ==> Valid())
    {
      FieldsMeans();
      r := Pass;
      if button.value.suppressedControls != 0 {
        EndSuppressed(name);
      } else if name.ButtonTag? {
        EndButton();
      } else if name.FormTag? {
        r := EndForm();
      }
    }

    method EndSuppressed(name: Name)
      requires ControlsOk() && button.Some? && button.value.suppressedControls != 0
      modifies this`button
      ensures ControlsOk() && Success(Now()) == InButtonEnded(old(Now()), name)
    {
      FieldsMeans();
      if IsNestedControl(name) {
        Suppress(button.value.suppressedControls - 1);
      }
    }

    method BeginLabelTag(target: Option<Text>) returns (r: Outcome<Error>)
      requires Valid()
      modifies this
      ensures Came(r, LabelBegun(old(Now()), target)) && (r.Pass? ==> Valid())
    {
      r := BeginLabel(target);
    }

    method EndLabelTag() returns (r: Outcome<Error>)
      requires Valid()
      modifies this
      ensures Came(r, LabelEnded(old(Now()))) && (r.Pass? ==> Valid())
    {
      r := EndLabel();
    }

    // --- images -----------------------------------------------------------------------------------

    /** An image is a word: its text, in brackets, in a block of its own outside tables. */
    method PushImage(alt: Option<string>) returns (r: Outcome<Error>)
      requires Valid()
      modifies this
      ensures Came(r, ImageAdded(old(Now()), alt)) && (r.Pass? ==> Valid())
    {
      r := SeparateImage();
      if r.Pass? {
        r := FinishImage(Shown(alt));
      }
    }

    method FinishImage(shown: string) returns (r: Outcome<Error>)
      requires FlowOk() && Matched() && InlineOk() && ControlsOk() && TablesOk() && |lists| <= MAX_NESTING_DEPTH
      modifies this
      ensures Came(r, ImageFinished(old(Now()), shown)) && (r.Pass? ==> Valid())
    {
      r := DrawImage(shown);
      if r.Pass? {
        r := LeaveImage();
      }
    }

    method DrawImage(shown: string) returns (r: Outcome<Error>)
      requires FlowOk() && Matched() && InlineOk() && ControlsOk() && TablesOk() && |lists| <= MAX_NESTING_DEPTH
      modifies this
      ensures Came(r, ImageDrawn(old(Now()), shown)) && (r.Pass? ==> Valid())
    {
      RestMeans();
      var index := |images|;
      if index < MAX_IMAGES {
        ListImage();
      }
      r := FillImage(index, shown);
    }

    method FillImage(index: nat, shown: string) returns (r: Outcome<Error>)
      requires FlowOk() && Matched() && InlineOk() && ControlsOk() && TablesOk() && |lists| <= MAX_NESTING_DEPTH
      modifies this
      ensures Came(r, ImageFilled(old(Now()), index, shown)) && (r.Pass? ==> Valid())
    {
      r := WriteImage(shown);
      if r.Pass? {
        CloseImage(index);
      }
    }

    method ListImage()
      modifies this`images
      ensures Now() == ImageListed(old(Now()))
    {
      CopyMeans();
      DressMeans();
      RestMeans();
      images := images + [Image(|text|, |text|, link)];
      RestMeans();
    }

    method CloseImage(index: nat)
      modifies this`images
      ensures Now() == ImageClosed(old(Now()), index)
    {
      CopyMeans();
      RestMeans();
      if index < |images| {
        images := images[index := images[index].(textEnd := |text|)];
        RestMeans();
      }
    }

    method SeparateImage() returns (r: Outcome<Error>)
      requires Valid()
      modifies this
      ensures Came(r, Separated(old(Now())))
      ensures r.Pass? ==>
                FlowOk() && Matched() && InlineOk() && ControlsOk() && TablesOk() && |lists| <= MAX_NESTING_DEPTH
    {
      r := DetachImage();
      if r.Pass? {
        r := LeadImage();
      }
    }

    method DetachImage() returns (r: Outcome<Error>)
      requires Valid()
      modifies this
      ensures Came(r, Detached(old(Now()))) && (r.Pass? ==> Valid())
    {
      GridsMeans();
      if table.None? {
        r := BeginBlock(Paragraph);
      } else {
        r := CloseRun();
      }
    }

    method LeadImage() returns (r: Outcome<Error>)
      requires FlowOk() && Rested()
      modifies this`title, this`text, this`marks, this`runOpen, this`runStart, this`openPre, this`atBlockStart,
               this`openKind, this`openFirstRun, this`openFirstControl, this`pendingSpace
      ensures Came(r, Flushed(Spaced(old(Now()), true)))
      ensures r.Pass? ==> FlowOk() && Matched()
    {
      Space(true);
      r := FlushPendingSpace();
    }

    method LeaveImage() returns (r: Outcome<Error>)
      requires Valid()
      modifies this
      ensures Came(r, ImageLeft(old(Now()))) && (r.Pass? ==> Valid())
    {
      GridsMeans();
      r := Pass;
      if table.None? {
        r := EndBlock();
      }
      if r.Pass? {
        Space(true);
      }
    }

    method WriteImage(shown: string) returns (r: Outcome<Error>)
      requires FlowOk() && Matched() && InlineOk() && ControlsOk() && TablesOk() && |lists| <= MAX_NESTING_DEPTH
      modifies this
      ensures Came(r, ImageWritten(old(Now()), shown)) && (r.Pass? ==> Valid())
    {
      r := BeginWord(shown);
      if r.Pass? {
        r := EndWord();
      }
    }

    method BeginWord(shown: string) returns (r: Outcome<Error>)
      requires FlowOk() && Matched() && InlineOk() && ControlsOk() && TablesOk() && |lists| <= MAX_NESTING_DEPTH
      modifies this
      ensures Came(r, WordBegun(old(Now()), shown)) && (r.Pass? ==> Valid())
    {
      r := OpenBracket();
      if r.Pass? {
        r := PushText(shown);
      }
    }

    method OpenBracket() returns (r: Outcome<Error>)
      requires FlowOk() && Matched() && InlineOk() && ControlsOk() && TablesOk() && |lists| <= MAX_NESTING_DEPTH
      modifies this
      ensures Came(r, Lettered(old(Now()), '[')) && (r.Pass? ==> Valid())
    {
      r := PushCharacter('[');
    }

    method EndWord() returns (r: Outcome<Error>)
      requires Valid()
      modifies this
      ensures Came(r, WordEnded(old(Now()))) && (r.Pass? ==> Valid())
    {
      r := CloseBracket();
    }

    method CloseBracket() returns (r: Outcome<Error>)
      requires FlowOk() && Rested()
      modifies this`title, this`text, this`marks, this`runOpen, this`runStart, this`openPre, this`atBlockStart,
               this`openKind, this`openFirstRun, this`openFirstControl, this`runs, this`runPre, this`pendingSpace
      ensures Came(r, WordEnded(old(Now()))) && (r.Pass? ==> FlowOk() && !runOpen)
    {
      r := PushCharacter(']');
      if r.Pass? {
        r := CloseRun();
      }
    }

    // --- tables, as events ---------------------------------------------------------------------------

    method OpenTable() returns (r: Outcome<Error>)
      requires Valid() && table.None?
      modifies this
      ensures Came(r, TableBegun(old(Now()))) && (r.Pass? ==> Valid())
    {
      r := BeginTable();
    }

    method CloseTable() returns (r: Outcome<Error>)
      requires Valid()
      modifies this
      ensures Came(r, TableEnded(old(Now()))) && (r.Pass? ==> Valid() && table.None?)
    {
      r := EndTable();
    }

    method BeginRow() returns (r: Outcome<Error>)
      requires Valid() && table.Some?
      modifies this
      ensures Came(r, RowBegun(old(Now()))) && (r.Pass? ==> Valid())
    {
      r := BeginTableRow();
    }

    method BeginCell(header: bool, rowspan: Option<nat>, colspan: Option<nat>) returns (r: Outcome<Error>)
      requires Valid() && table.Some?
      modifies this
      ensures Came(r, CellBegun(old(Now()), header, rowspan, colspan)) && (r.Pass? ==> Valid())
    {
      r := BeginTableCell(header, rowspan, colspan);
    }

    method EndCell() returns (r: Outcome<Error>)
      requires Valid()
      modifies this
      ensures Came(r, CellFiled(old(Now()))) && (r.Pass? ==> Valid() && table.Some? == old(table).Some?)
    {
      r := EndTableCell();
    }

    method BeginGroup(group: RowGroup) returns (r: Outcome<Error>)
      requires Valid() && table.Some?
      modifies this
      ensures Came(r, GroupBegun(old(Now()), group)) && (r.Pass? ==> Valid())
    {
      r := EndCell();
      if r.Pass? {
        GridsMeans();
        RememberTable(group, table.value.nested, table.value.nestedCellInRow);
      }
    }

    // --- dispatch --------------------------------------------------------------------------------------

    method StartNested(name: Name) returns (r: Outcome<Error>)
      requires Valid() && table.Some? && table.value.nested != 0 && IsTablePart(name)
      modifies this
      ensures Came(r, NestedStarted(old(Now()), name)) && (r.Pass? ==> Valid())
    {
      GridsMeans();
      var t := table.value;
      r := Pass;
      match name
      case TableTag =>
        RememberTable(t.group, Deeper(t.nested), t.nestedCellInRow);
        r := LineBreak();
      case RowTag =>
        RememberTable(t.group, t.nested, false);
        r := LineBreak();
      case CellTag(_) =>
        RememberTable(t.group, t.nested, true);
        if t.nestedCellInRow {
          r := PushText(" | ");
        }
      case _ =>
    }

    method StartInTable(tag: Tag) returns (r: Outcome<Error>)
      requires Valid() && table.Some?
      modifies this
      ensures Came(r, InTableStarted(old(Now()), tag)) && (r.Pass? ==> Valid())
    {
      GridsMeans();
      var t := table.value;
      if t.nested != 0 && IsTablePart(tag.name) {
        r := StartNested(tag.name);
        return;
      }
      match tag.name
      case TableTag =>
        RememberTable(t.group, Deeper(t.nested), false);
        r := LineBreak();
      case GroupTag(group) =>
        r := BeginGroup(group);
      case RowTag =>
        r := BeginRow();
      case CellTag(header) =>
        r := BeginCell(header, tag.rowspan, tag.colspan);
      case _ =>
        r := LineBreak();
    }

    method EndNested(name: Name) returns (r: Outcome<Error>)
      requires Valid() && table.Some? && table.value.nested != 0
      modifies this
      ensures Came(r, NestedEnded(old(Now()), name)) && (r.Pass? ==> Valid())
    {
      GridsMeans();
      var t := table.value;
      r := Pass;
      match name
      case TableTag =>
        RememberTable(t.group, t.nested - 1, false);
        r := LineBreak();
      case RowTag =>
        r := LineBreak();
      case _ =>
    }

    method EndInTable(name: Name) returns (r: Outcome<Error>)
      requires Valid() && Tabular(table, name)
      modifies this
      ensures Came(r, InTableEnded(old(Now()), name)) && (r.Pass? ==> Valid())
    {
      GridsMeans();
      if table.value.nested != 0 && IsTablePart(name) {
        r := EndNested(name);
        return;
      }
      r := Pass;
      match name
      case TableTag =>
        r := CloseTable();
      case RowTag =>
        r := EndCell();
      case CellTag(_) =>
        r := EndCell();
      case GroupTag(_) =>
        r := EndCell();
      case _ =>
    }

    method StartControl(tag: Tag) returns (r: Outcome<Error>)
      requires Valid() && select.None? && button.None? && IsControl(tag.name)
      modifies this
      ensures Came(r, ControlStarted(old(Now()), tag)) && (r.Pass? ==> Valid())
    {
      r := Pass;
      match tag.name
      case FormTag =>
        r := BeginForm(tag.action);
      case InputTag =>
        r := AddInput(tag);
      case ButtonTag =>
        r := BeginButton(tag);
      case SelectTag =>
        r := BeginSelect(tag);
      case TextareaTag =>
        r := BeginTextarea(tag);
      case LabelTag =>
        r := BeginLabelTag(tag.labelFor);
      case _ =>
    }

    /** Tags of blocks, breaks, images and inline elements. Others are ignored. */
    method StartContent(tag: Tag) returns (r: Outcome<Error>)
      requires Valid()
      modifies this
      ensures Came(r, ContentStarted(old(Now()), tag)) && (r.Pass? ==> Valid())
    {
      if IsBlocky(tag.name) {
        r := StartBlocky(tag.name);
        return;
      }
      r := Pass;
      match tag.name
      case TitleTag =>
        r := BeginTitle();
      case BreakTag =>
        r := LineBreak();
      case ImageTag =>
        r := PushImage(tag.alt);
      case AnchorTag =>
        r := BeginAnchor(tag.href);
      case InlineTag(_) =>
        r := BeginInline(tag.name);
      case _ =>
    }

    method StartBlocky(name: Name) returns (r: Outcome<Error>)
      requires Valid()
      modifies this
      ensures Came(r, BlockyStarted(old(Now()), name)) && (r.Pass? ==> Valid())
    {
      r := Pass;
      match name
      case RuleTag =>
        r := HorizontalRule();
      case PreTag =>
        r := BeginPre();
      case ListTag(ordered) =>
        r := BeginList(ordered);
      case ItemTag =>
        r := BeginItem();
      case HeadingTag(level) =>
        r := BeginBlock(Heading(level));
      case _ =>
        r := EndIfBlock(name);
    }

    method EndIfBlock(name: Name) returns (r: Outcome<Error>)
      requires Valid()
      modifies this
      ensures Came(r, if IsBlock(name) then BlockEnded(old(Now())) else Success(old(Now()))) && (r.Pass? ==> Valid())
    {
      r := Pass;
      if IsBlock(name) {
        r := EndBlock();
      }
    }

    method StartOutside(tag: Tag) returns (r: Outcome<Error>)
      requires Valid() && button.None? && select.None?
      modifies this
      ensures Came(r, StartedOutside(old(Now()), tag)) && (r.Pass? ==> Valid())
    {
      GridsMeans();
      if Tabular(table, tag.name) {
        r := StartInTable(tag);
      } else if tag.name.TableTag? {
        r := OpenTable();
      } else if IsControl(tag.name) {
        r := StartControl(tag);
      } else {
        r := StartContent(tag);
      }
    }

    method StartElement(tag: Tag) returns (r: Outcome<Error>)
      requires Valid()
      modifies this
      ensures Came(r, ElementStarted(old(Now()), tag)) && (r.Pass? ==> Valid())
    {
      FieldsMeans();
      if button.Some? {
        StartInButton(tag.name);
        return Pass;
      }
      if select.Some? && !tag.name.InputTag? && !tag.name.TextareaTag? {
        r := StartInSelect(tag);
        return;
      }
      r := StartUnselected(tag);
    }

    /** A control that cannot be inside a select ends it. */
    method StartUnselected(tag: Tag) returns (r: Outcome<Error>)
      requires Valid() && button.None?
      modifies this
      ensures Came(r, StartedUnselected(old(Now()), tag)) && (r.Pass? ==> Valid())
    {
      FieldsMeans();
      if select.Some? {
        EndSelect();
      }
      r := StartOutside(tag);
    }

    method EndControl(name: Name) returns (r: Outcome<Error>)
      requires Valid()
      modifies this
      ensures Came(r, ControlEnded(old(Now()), name)) && (r.Pass? ==> Valid())
    {
      r := Pass;
      match name
      case TextareaTag =>
        EndTextarea();
      case LabelTag =>
        r := EndLabelTag();
      case FormTag =>
        r := EndForm();
      case _ =>
    }

    method EndContent(name: Name) returns (r: Outcome<Error>)
      requires Valid()
      modifies this
      ensures Came(r, ContentEnded(old(Now()), name)) && (r.Pass? ==> Valid())
    {
      r := Pass;
      if IsBlocky(name) {
        r := EndBlocky(name);
      } else if name.TitleTag? {
        EndTitle();
      } else if name.AnchorTag? || name.InlineTag? {
        r := PopInline(name);
      }
    }

    method EndBlocky(name: Name) returns (r: Outcome<Error>)
      requires Valid()
      modifies this
      ensures Came(r, BlockyEnded(old(Now()), name)) && (r.Pass? ==> Valid())
    {
      r := Pass;
      match name
      case PreTag =>
        r := EndPre();
      case ListTag(_) =>
        r := EndList();
      case RuleTag =>
      case _ =>
        r := EndBlock();
    }

    method EndOutside(name: Name) returns (r: Outcome<Error>)
      requires Valid()
      modifies this
      ensures Came(r, EndedOutside(old(Now()), name)) && (r.Pass? ==> Valid())
    {
      GridsMeans();
      if Tabular(table, name) {
        r := EndInTable(name);
      } else if IsControl(name) && !name.InputTag? && !name.SelectTag? {
        r := EndControl(name);
      } else {
        r := EndContent(name);
      }
    }

    method EndElement(name: Name) returns (r: Outcome<Error>)
      requires Valid()
      modifies this
      ensures Came(r, ElementEnded(old(Now()), name)) && (r.Pass? ==> Valid())
    {
      FieldsMeans();
      if select.Some? {
        EndInSelect(name);
        if !name.FormTag? {
          return Pass;
        }
      }
      r := CloseElement(name);
    }

    method CloseElement(name: Name) returns (r: Outcome<Error>)
      requires Valid()
      modifies this
      ensures Came(r, ElementClosed(old(Now()), name)) && (r.Pass? ==> Valid())
    {
      FieldsMeans();
      if button.Some? {
        r := EndInButton(name);
      } else {
        r := EndOutside(name);
      }
    }

    /** One event, whatever state it comes in: it leaves the document as it should be or stops with the error
        it should, and the document stays well formed. */
    method Feed(event: Event) returns (r: Outcome<Error>)
      requires Valid()
      modifies this
      ensures Came(r, Happened(old(Now()), event)) && (r.Pass? ==> Valid())
    {
      match event
      case Characters(characters) =>
        r := PushText(characters);
      case StartTag(tag) =>
        r := StartElement(tag);
      case EndTag(name) =>
        r := EndElement(name);
    }

    /** The end of the page closes whatever is open. */
    method Finish() returns (r: Outcome<Error>)
      requires Valid()
      modifies this
      ensures Came(r, PageEnded(old(Now()))) && (r.Pass? ==> Valid() && Complete())
    {
      ghost var ended := Now().(fields := FieldsEnded(FieldsNow()));
      CloseFields();
      assert Now() == ended;
      r := CloseText();
    }

    method CloseText() returns (r: Outcome<Error>)
      requires Valid()
      modifies this
      ensures Came(r, TextEnded(old(Now())))
      ensures r.Pass? ==> Valid() && !runOpen && openKind.None? && table.None? && select == old(select)
    {
      TextEndKeepsFields(Now());
      FieldsMeans();
      r := EndLabelTag();
      if r.Pass? {
        r := CloseBody();
        FieldsMeans();
      }
    }

    method CloseBody() returns (r: Outcome<Error>)
      requires Valid()
      modifies this
      ensures Came(r, BodyEnded(old(Now()))) && (r.Pass? ==> Valid() && !runOpen && openKind.None? && table.None?)
    {
      r := CloseTable();
      if r.Pass? {
        GridsMeans();
        r := EndBlock();
        GridsMeans();
      }
    }

    /** Nothing is open any more. */
    predicate Complete()
      reads this`runOpen, this`openKind, this`table, this`select
    {
      !runOpen && openKind.None? && table.None? && select.None?
    }

    method CloseFields()
      requires ControlsOk()
      modifies this`button, this`textarea, this`select, this`options, this`controls
      ensures ControlsOk() && select.None? && FieldsNow() == FieldsEnded(old(FieldsNow()))
    {
      EndButton();
      EndTextarea();
      EndSelect();
    }

    // --- what a finished document is ------------------------------------------------------------------------

    /** The runs follow one another without gaps, and give back the style and link that were in force when
        each byte of the text was appended, if and only if no text was lost. */
    lemma RunsGiveBackTheText()
      requires Valid() && Complete()
      ensures |marks| == |text|
      ensures Expand(runs) == marks <==> lost == 0
      ensures lost == 0 ==> Contiguous(runs) && RunsEnd(runs) == |text|
    {
      FlowMeans();
      ExpandsExactlyWhenNothingLost(runs, runPre, text, marks, |links|, lost);
    }

    /** Runs are nonempty and in order, and their links are there; outside preformatted text a space follows
        no space and no line break, and precedes no line break. */
    lemma RunsAreWellMade(i: nat)
      requires Valid() && Complete() && i < |runs|
      ensures |runPre| == |runs| && runs[i].start < runs[i].end <= |text|
              && (i == 0 || runs[i - 1].end <= runs[i].start)
      ensures Known(runs[i].link, |links|)
      ensures !runPre[i] ==> Collapsed(text, runs[i].start, runs[i].end)
    {
      FlowMeans();
      TiledAt(runs, runPre, text, marks, |links|, lost - (|text| - RunsEnd(runs)), i);
    }

    /** The blocks share out the runs, each run in one block and all in order, if and only if none was misfiled. */
    lemma BlocksShareOutTheRuns()
      requires Valid() && Complete()
      ensures SliceRuns(blocks, runs) == runs <==> misfiled == 0
    {
      FlowMeans();
      TiledApart(runs, runPre, text, marks, |links|, lost - (|text| - RunsEnd(runs)));
      SlicesPartitionRuns(blocks, runs, misfiled);
    }

    /** No grid square is covered by two cells of one table, the open cell included. */
    lemma NoSquareTwice(i: nat, j: nat, row: nat, column: nat)
      requires Valid() && i < |tableCells| && j < |tableCells| && tableCells[i].table == tableCells[j].table
      requires var s := tableCells[i].square;
               s.row <= row < s.row + s.rowspan && s.column <= column < s.column + s.colspan
      requires var s := tableCells[j].square;
               s.row <= row < s.row + s.rowspan && s.column <= column < s.column + s.colspan
      ensures i == j && column < MAX_TABLE_COLUMNS
    {
      TablesMean();
      SquaresHoldOneCell(tables, tableRows, tableCells, table, placed, i, j, row, column);
    }

    lemma OpenCellStandsApart(i: nat, row: nat, column: nat)
      requires Valid() && table.Some? && table.value.openCell.Some?
      requires i < |tableCells| && tableCells[i].table == table.value.index
      ensures var s, o := tableCells[i].square, table.value.openCell.value.square;
              && !(s.row <= row < s.row + s.rowspan && s.column <= column < s.column + s.colspan
                   && o.row <= row < o.row + o.rowspan && o.column <= column < o.column + o.colspan)
              && 1 <= o.colspan && o.column + o.colspan <= MAX_TABLE_COLUMNS
    {
      TablesMean();
      var s, o := tableCells[i].square, table.value.openCell.value.square;
      assert Apart(s, o) && InColumns(o);
      assert !(Covers(s, row, column) && Covers(o, row, column));
    }

    /** A finished table's ranges hold exactly its own rows and cells, its rows are numbered from 0, and its
        cells lie within its measures. */
    lemma FinishedTablesTell(t: nat)
      requires Valid() && Complete() && t < |tables|
      ensures forall i :: 0 <= i < |tableRows| ==>
                (tableRows[i].table == t <==>
                   tables[t].firstRow <= i < tables[t].firstRow + tables[t].rowCount)
                && (tableRows[i].table == t ==> tableRows[i].number == i - tables[t].firstRow)
      ensures forall i :: 0 <= i < |tableCells| ==>
                && (tableCells[i].table == t <==>
                      tables[t].firstCell <= i < tables[t].firstCell + tables[t].cellCount)
                && (tableCells[i].table == t ==>
                      && tableCells[i].square.row < tables[t].rowCount
                      && tableCells[i].square.column + tableCells[i].square.colspan <= tables[t].columnCount)
      ensures tables[t].firstRow + tables[t].rowCount <= |tableRows|
              && tables[t].firstCell + tables[t].cellCount <= |tableCells|
    {
      TablesMean();
      assert Told(t, tables[t], tableRows, tableCells);
    }

    /** Each form's range holds exactly the controls that name it. */
    lemma FormsHoldTheirControls(i: nat, f: nat)
      requires Valid() && i < |controls| && f < |forms|
      ensures controls[i].form == Some(f) <==>
              forms[f].firstControl <= i < forms[f].firstControl + forms[f].controlCount
    {
      ControlsMean();
    }

    /** Of two radio buttons with one form and name at most one is checked; a control is checked exactly
        when it asked for it and no later rival did. */
    lemma RadioGroupsAreSettled(i: nat)
      requires Valid() && i < |controls|
      ensures |asked| == |controls|
      ensures controls[i].checked <==>
                && asked[i] && (controls[i].kind == Checkbox || controls[i].kind == Radio)
                && forall j ::
                     i < j < |controls| && controls[j].kind == controls[i].kind == Radio
                     && controls[j].form == controls[i].form && controls[j].name == controls[i].name != [] ==>
                       !asked[j]
      ensures forall j ::
                i < j < |controls| && controls[j].kind == controls[i].kind == Radio
                && controls[j].form == controls[i].form && controls[j].name == controls[i].name != [] ==>
                  !(controls[i].checked && controls[j].checked)
    {
      ControlsMean();
      forall j | i < j < |controls| && Rivals(controls[i], controls[j])
        ensures !(controls[i].checked && controls[j].checked)
      {
        AtMostOneChecked(controls, asked, i, j);
      }
    }

    /** Each select's range holds exactly its own options. */
    lemma SelectsHoldTheirOptions(i: nat, c: nat)
      requires Valid() && i < |options| && c < |controls|
      ensures options[i].control == c <==>
                controls[c].firstOption <= i < controls[c].firstOption + controls[c].optionCount
    {
      ControlsMean();
    }

    /** A closed single select shows at most one option, and one if any was marked or can be chosen. */
    lemma ClosedSelectsShowOne(c: nat)
      requires Valid() && c < |controls| && !controls[c].multiple && OpenSelect() != Some(c)
      ensures |wished| == |options|
      ensures forall i, j :: 0 <= i < j < |options| && options[i].control == c == options[j].control ==>
                !(options[i].selected && options[j].selected)
      ensures (exists i :: 0 <= i < |options| && options[i].control == c && options[i].selected) <==>
              (exists i :: 0 <= i < |options| && options[i].control == c && (wished[i] || !options[i].disabled))
    {
      ControlsMean();
      ClosedSelectShowsOne(controls, options, wished, OpenSelect(), c);
    }

    /** It is the last one marked, or with none marked the first that is enabled; other selects show what was
        marked. */
    lemma SelectsShowThis(i: nat)
      requires Valid() && i < |options|
      ensures |wished| == |options| && options[i].control < |controls|
      ensures var c := options[i].control;
              options[i].selected <==>
                if controls[c].multiple || OpenSelect() == Some(c) then wished[i]
                else if exists j :: 0 <= j < |options| && options[j].control == c && wished[j]
                then wished[i] && forall j :: i < j < |options| && options[j].control == c ==> !wished[j]
                else !options[i].disabled && forall j :: 0 <= j < i && options[j].control == c ==> options[j].disabled
    {
      ControlsMean();
      var c := options[i].control;
      if controls[c].multiple || OpenSelect() == Some(c) {
        OtherSelectsShowMarks(controls, options, wished, OpenSelect(), i);
      } else {
        ClosedSelectShowsThis(controls, options, wished, OpenSelect(), c, i);
      }
    }

    /** With no element open no style is in force, and no link, unless one was set adrift. */
    lemma NoElementNoStyle()
      requires Valid() && inline == []
      ensures style == PLAIN && (link == None <==> !adrift)
    {
      InlineMeans(style, link);
    }

    /** What follows for a page from its events alone. */
    lemma WhatThePageKeeps(site: Site, events: seq<Event>)
      requires Valid() && Complete() && Page(site, events) == Success(Now())
      ensures Expand(runs) == marks <==> forall i :: 0 <= i < |events| ==> DroppedAt(site, events, i) == 0
      ensures SliceRuns(blocks, runs) == runs <==> forall i :: 0 <= i <= |events| ==> MisfiledAt(site, events, i) == 0
    {
      CopyMeans();
      SettingMeans();
      RunsGiveBackTheText();
      BlocksShareOutTheRuns();
      LosesTextExactlyToStrays(site, events);
      MisfilesExactlyAtCells(site, events);
    }

    /** In particular, without stray end tags, or without tables. */
    lemma WhatSomePagesKeep(site: Site, events: seq<Event>)
      requires Valid() && Complete() && Page(site, events) == Success(Now())
      ensures (forall i :: 0 <= i < |events| ==> !Stray(events, i)) ==> lost == 0 && Expand(runs) == marks
      ensures (forall i :: 0 <= i < |events| ==> !OpensTable(events[i])) ==> SliceRuns(blocks, runs) == runs
    {
      CopyMeans();
      SettingMeans();
      RunsGiveBackTheText();
      BlocksShareOutTheRuns();
      if forall i :: 0 <= i < |events| ==> !Stray(events, i) {
        NoStrayNothingLost(site, events);
      }
      if forall i :: 0 <= i < |events| ==> !OpensTable(events[i]) {
        NoTableNothingMisfiled(site, events);
      }
    }
  }

  /** A whole page, event by event, is what its events make it, or stops with the error they call for. */
  method Parse(site: Site, events: seq<Event>) returns (r: Outcome<Error>, page: Builder)
    ensures fresh(page) && page.Came(r, Page(site, events))
    ensures r.Pass? ==> page.Valid() && page.Complete()
    ensures r.Pass? ==>
              (Expand(page.runs) == page.marks <==> forall i :: 0 <= i < |events| ==> DroppedAt(site, events, i) == 0)
    ensures r.Pass? ==>
              (SliceRuns(page.blocks, page.runs) == page.runs <==>
                 forall i :: 0 <= i <= |events| ==> MisfiledAt(site, events, i) == 0)
    ensures r.Pass? && (forall i :: 0 <= i < |events| ==> !Stray(events, i)) ==>
              page.lost == 0 && Expand(page.runs) == page.marks
    ensures r.Pass? && (forall i :: 0 <= i < |events| ==> !OpensTable(events[i])) ==>
              SliceRuns(page.blocks, page.runs) == page.runs
  {
    page := new Builder(site.resolve, site.ownedBytes);
    for i := 0 to |events|
      invariant fresh(page) && page.Valid()
      invariant page.Came(Pass, After(site, events[..i]))
    {
      assert events[..i + 1][..i] == events[..i];
      r := page.Feed(events[i]);
      if r.Fail? {
        FailuresStay(site, events, i + 1);
        return;
      }
    }
    assert events[..|events|] == events;
    r := page.Finish();
    if r.Pass? {
      page.WhatThePageKeeps(site, events);
      page.WhatSomePagesKeep(site, events);
    }
  }

  /** Two builders in the same state, given the same text, one of them in two pieces, end in the same state or
      with the same error. */
  method TextInPieces(one: Builder, other: Builder, a: string, b: string)
      returns (whole: Outcome<Error>, pieces: Outcome<Error>)
    requires one != other && one.Valid() && other.Valid() && one.Now() == other.Now()
    modifies one, other
    ensures whole == pieces && (whole.Pass? ==> one.Now() == other.Now())
  {
    TextedInPieces(one.Now(), a, b);
    whole := one.PushText(a + b);
    pieces := other.PushText(a);
    if pieces.Pass? {
      pieces := other.PushText(b);
    }
  }
}
