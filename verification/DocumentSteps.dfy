/**
What each event makes of a document under construction, as functions of a
snapshot of the builder of browser/src/document.rs: the snapshot after it, or
the error it stops with. The builder does the same step by step in place.
*/
module DocumentSteps {
  import opened Wrappers
  import opened Basics
  import opened DocumentTypes
  import opened TextFlow
  import opened RunList
  import opened InlineStack
  import opened TableGrid
  import opened TableList
  import opened FormList

  // --- all the builder holds; see `Builder` for what each part means ----------------

  /** The text, and the runs cut from it. */
  datatype Copy = Copy(title: Text, text: Text, marks: seq<Mark>, lost: nat, runs: seq<Run>, runPre: seq<bool>,
                       runOpen: bool, runStart: nat, openPre: bool)

  /** The blocks, and where the text goes. */
  datatype Setting = Setting(blocks: seq<Block>, misfiled: nat, openKind: Option<BlockKind>, openFirstRun: nat,
                             openFirstControl: nat, preformatted: bool, inTitle: bool, pendingSpace: bool,
                             atBlockStart: bool)

  /** What the text looks like. */
  datatype Dress = Dress(style: Style, link: Option<nat>, inline: seq<InlineFrame>, saved: seq<Before>,
                         spoiled: set<nat>, adrift: bool, links: seq<Url>, linkUrlBytes: nat)

  datatype Fields = Fields(forms: seq<Form>, form: Option<nat>, controls: seq<FormControl>, asked: seq<bool>,
                           options: seq<SelectOption>, wished: seq<bool>, select: Option<SelectBuild>,
                           textarea: Option<TextareaBuild>, button: Option<ButtonBuild>)

  datatype Grids = Grids(tables: seq<Table>, tableRows: seq<TableRow>, tableCells: seq<TableCell>,
                         table: Option<TableBuild>)

  datatype Rest = Rest(images: seq<Image>, labels: seq<Label>, labelOpen: Option<LabelBuild>, lists: seq<ListLevel>,
                       resolve: Text -> Option<Url>, ownedBytes: Url -> nat)

  datatype Draft = Draft(copy: Copy, setting: Setting, dress: Dress, fields: Fields, grids: Grids, rest: Rest)

  type Next = Result<Draft, Error>

  ghost function Blank(resolve: Text -> Option<Url>, ownedBytes: Url -> nat): Draft {
    Draft(Copy([], [], [], 0, [], [], false, 0, false), Setting([], 0, None, 0, 0, false, false, false, true),
          Dress(PLAIN, None, [], [], {}, false, [], 0), Fields([], None, [], [], [], [], None, None, None),
          Grids([], [], [], None), Rest([], [], None, [], resolve, ownedBytes))
  }

  ghost function Count(d: Draft): nat {
    |d.setting.blocks| + |d.copy.runs| + |d.grids.tables| + |d.grids.tableRows| + |d.grids.tableCells| + |d.rest.images|
    + |d.fields.forms| + |d.fields.controls| + |d.fields.options| + |d.rest.labels|
  }

  /** There is room for that many items more. */
  ghost function Need(d: Draft, adding: nat): Next {
    if Count(d) + adding > MAX_ITEMS then Failure(TooManyItems) else Success(d)
  }

  // --- text -----------------------------------------------------------------------

  /** Where characters go. */
  ghost function Flowing(d: Draft): Flow {
    Flow(if d.setting.inTitle then d.copy.title else d.copy.text, d.setting.pendingSpace, d.setting.atBlockStart)
  }

  ghost function Opened(d: Draft, kind: BlockKind): Draft {
    d.(setting := d.setting.(openKind := Some(kind), openFirstRun := |d.copy.runs|,
                             openFirstControl := |d.fields.controls|, atBlockStart := true))
  }

  ghost function Spaced(d: Draft, pending: bool): Draft {
    d.(setting := d.setting.(pendingSpace := pending))
  }

  /** A paragraph is open if nothing else was; a title needs none. */
  ghost function Housed(d: Draft): Draft {
    if d.setting.openKind.Some? || d.setting.inTitle then d else Opened(d, Paragraph)
  }

  ghost function WithRunOpen(d: Draft): Draft {
    if d.copy.runOpen then d
    else d.(copy := d.copy.(runOpen := true, runStart := |d.copy.text|, openPre := d.setting.preformatted))
  }

  ghost function Flowed(d: Draft, f: Flow): Draft {
    d.(setting := d.setting.(pendingSpace := f.pending, atBlockStart := f.atStart))
  }

  /** Text grew to `f.out`. What is new bears the style and link in force, and is in an open run of an open
      block. */
  ghost function Wrote(d: Draft, f: Flow): Next {
    if |f.out| > MAX_TEXT_BYTES then Failure(TextTooLong)
    else if d.setting.inTitle then Success(Flowed(d, f).(copy := d.copy.(title := f.out)))
    else if |f.out| <= |d.copy.text| then Success(Flowed(d, f))
    else
      var home := Flowed(WithRunOpen(Housed(d)), f);
      Success(home.(copy := home.copy.(text := f.out,
          marks := d.copy.marks + Marks(|f.out| - |d.copy.text|, d.dress.style, d.dress.link))))
  }

  lemma MarksAdd(marks: seq<Mark>, a: nat, b: nat, style: Style, link: Option<nat>)
    ensures marks + Marks(a, style, link) + Marks(b, style, link) == marks + Marks(a + b, style, link)
  {
  }

  /** One character more of running or preformatted text. */
  lemma PouredOneMore(d: Draft, text: string, i: nat)
    requires i < |text|
    ensures var pre, f := d.setting.preformatted, Flowing(d);
            var once, more := Wrote(d, Pour(f, pre, text[..i])), Wrote(d, Pour(f, pre, text[..i + 1]));
            && (once.Success? ==> more == Wrote(once.value, Step(Flowing(once.value), pre, text[i])))
            && (more.Failure? ==> Wrote(d, Pour(f, pre, text)) == more)
  {
    var pre, f := d.setting.preformatted, Flowing(d);
    var once := Wrote(d, Pour(f, pre, text[..i]));
    PourOneMore(f, pre, text, i);
    PourAppends(f, pre, "", text[..i]);
    PourAppends(f, pre, text[..i], [text[i]]);
    assert text[..i] + [text[i]] == text[..i + 1] && "" + text[..i] == text[..i];
    WroteTwice(d, Pour(f, pre, text[..i]), Pour(f, pre, text[..i + 1]));
    if once.Success? {
      WroteFlows(d, Pour(f, pre, text[..i]));
    }
  }

  /** Where characters go next. */
  lemma WroteFlows(d: Draft, f: Flow)
    requires |f.out| <= MAX_TEXT_BYTES && Flowing(d).out <= f.out
    ensures Wrote(d, f).Success? && Flowing(Wrote(d, f).value) == f
            && Wrote(d, f).value.setting.preformatted == d.setting.preformatted
  {
    if |Flowing(d).out| == |f.out| {
      assert Flowing(d).out == f.out;
    }
  }

  /** The open run grew. */
  ghost function Extended(d: Draft, bytes: Text, breaks: bool): Draft {
    d.(copy := d.copy.(text := d.copy.text + bytes,
                       marks := d.copy.marks + Marks(|bytes|, d.dress.style, d.dress.link)),
       setting := d.setting.(atBlockStart := breaks))
  }

  /** In the body, to grow is to open what has to be open, and to extend the run. */
  lemma WroteExtends(d: Draft, bytes: Text, pending: bool, breaks: bool)
    requires !d.setting.inTitle && bytes != [] && |d.copy.text| + |bytes| <= MAX_TEXT_BYTES
    ensures Wrote(d, Flow(d.copy.text + bytes, pending, breaks))
              == Success(Extended(WithRunOpen(Housed(Spaced(d, pending))), bytes, breaks))
  {
  }

  /** Growing to `f` and then to `g` is growing to `g`. */
  lemma WroteTwice(d: Draft, f: Flow, g: Flow)
    requires Flowing(d).out <= f.out <= g.out
    ensures (var once := Wrote(d, f); if once.Failure? then once else Wrote(once.value, g)) == Wrote(d, g)
  {
    if |f.out| > MAX_TEXT_BYTES {
    } else if |Flowing(d).out| == |f.out| {
      assert Flowing(d).out == f.out;
      WroteNothing(d, f);
    } else if !d.setting.inTitle {
      WroteSome(d, f, g);
    }
  }

  lemma WroteNothing(d: Draft, f: Flow)
    requires f.out == Flowing(d).out && |f.out| <= MAX_TEXT_BYTES
    ensures Wrote(d, f) == Success(Flowed(d, f)) && forall g :: Wrote(Flowed(d, f), g) == Wrote(d, g)
  {
  }

  lemma WroteSome(d: Draft, f: Flow, g: Flow)
    requires !d.setting.inTitle && d.copy.text <= f.out <= g.out && |d.copy.text| < |f.out| <= MAX_TEXT_BYTES
    ensures Wrote(d, f).Success? && Wrote(Wrote(d, f).value, g) == Wrote(d, g)
  {
    if |f.out| == |g.out| {
      assert f.out == g.out;
    } else if |g.out| <= MAX_TEXT_BYTES {
      MarksAdd(d.copy.marks, |f.out| - |d.copy.text|, |g.out| - |f.out|, d.dress.style, d.dress.link);
      assert Wrote(Wrote(d, f).value, g).value.copy == Wrote(d, g).value.copy;
    }
  }

  ghost function Flushed(d: Draft): Next {
    Wrote(d, Flush(Flowing(d)))
  }

  /** A space that is owed is a character, unless no space is due. */
  lemma FlushedIs(d: Draft)
    ensures Flushed(d) == if !d.setting.pendingSpace then Wrote(d, Flowing(d))
                          else if d.setting.atBlockStart then Wrote(Spaced(d, false), Flowing(Spaced(d, false)))
                          else Lettered(Spaced(d, false), ' ')
  {
  }

  /** Nothing new is no growth. */
  lemma WroteItself(d: Draft)
    requires |Flowing(d).out| <= MAX_TEXT_BYTES
    ensures Wrote(d, Flowing(d)) == Success(d)
  {
  }

  /** A hard break. Titles have no lines. */
  ghost function Broken(d: Draft): Next {
    if d.setting.inTitle then Success(d) else Wrote(d, Flow(d.copy.text + [NEWLINE], false, true))
  }

  ghost function Lettered(d: Draft, c: char): Next {
    Wrote(d, Flow(Flowing(d).out + Utf8(c), d.setting.pendingSpace, false))
  }

  /** The open option's text grew; text outside any option goes nowhere. */
  ghost function OptionTexted(d: Draft, characters: string): Next {
    var select := d.fields.select;
    if select.None? || select.value.option.None? then Success(d)
    else
      var option := select.value.option.value;
      var all := Fold(AddCaption, Flow(option.text, option.pendingSpace, false), characters);
      if |all.out| > MAX_INPUT_VALUE_BYTES then Failure(TextTooLong)
      else
        var grown := option.(text := all.out, pendingSpace := all.pending);
        Success(d.(fields := d.fields.(select := Some(select.value.(option := Some(grown))))))
  }

  /** The open button's text grew, unless what is in it does not count. */
  ghost function ButtonTexted(d: Draft, characters: string): Next {
    if d.fields.button.None? || d.fields.button.value.suppressedControls != 0 then Success(d)
    else
      var b := d.fields.button.value;
      var all := Fold(AddCaption, Flow(b.text, b.pendingSpace, false), characters);
      if |all.out| > MAX_INPUT_VALUE_BYTES then Failure(TextTooLong)
      else Success(d.(fields := d.fields.(button := Some(b.(text := all.out, pendingSpace := all.pending)))))
  }

  ghost function TextareaTexted(f: Fields, characters: string): Fields {
    if f.textarea.None? then f else f.(textarea := Some(Fold(AddToTextarea, f.textarea.value, characters)))
  }

  ghost function FieldTexted(d: Draft, characters: string): Next {
    if d.fields.select.Some? then OptionTexted(d, characters)
    else if d.fields.textarea.Some? then Success(d.(fields := TextareaTexted(d.fields, characters)))
    else ButtonTexted(d, characters)
  }

  /** Text goes to the open option, textarea or button, else to the title or the body. */
  ghost function Texted(d: Draft, characters: string): Next {
    if d.fields.select.Some? || d.fields.textarea.Some? || d.fields.button.Some? then FieldTexted(d, characters)
    else BodyTexted(d, characters)
  }

  /** Running text, or preformatted text. */
  ghost function BodyTexted(d: Draft, characters: string): Next {
    Wrote(d, Pour(Flowing(d), d.setting.preformatted, characters))
  }

  // --- runs and blocks --------------------------------------------------------------

  /** The open run was ended, if it covers any text. */
  ghost function RunEnded(d: Draft): Next {
    if !d.copy.runOpen || |d.copy.text| <= d.copy.runStart then Success(d.(copy := d.copy.(runOpen := false)))
    else
      var d :- Need(d, 1);
      var run := Run(d.copy.runStart, |d.copy.text|, d.dress.style, d.dress.link);
      Success(d.(copy := d.copy.(runOpen := false, runs := d.copy.runs + [run],
                                 runPre := d.copy.runPre + [d.copy.openPre])))
  }

  ghost function OpenBlockOf(d: Draft, kind: BlockKind): Block {
    Block(kind, d.setting.openFirstRun, SaturatingSub(|d.copy.runs|, d.setting.openFirstRun),
          d.setting.openFirstControl, SaturatingSub(|d.fields.controls|, d.setting.openFirstControl))
  }

  ghost function Unhoused(d: Draft): Draft {
    d.(setting := d.setting.(openKind := None, atBlockStart := true, pendingSpace := false))
  }

  ghost function BlockListed(d: Draft, block: Block): Draft {
    Unhoused(d).(setting := Unhoused(d).setting.(blocks := d.setting.blocks + [block]))
  }

  ghost function Committed(d: Draft, block: Block): Next {
    if Hollow(block) then Success(Unhoused(d))
    else
      var d :- Need(d, 1);
      Success(BlockListed(d, block))
  }

  /** What was open is closed: the block is there, unless there was nothing in it. */
  ghost function BlockEnded(d: Draft): Next {
    var d :- RunEnded(d);
    if d.setting.openKind.None? then Success(d) else Committed(d, OpenBlockOf(d, d.setting.openKind.value))
  }

  ghost function BlockBegun(d: Draft, kind: BlockKind): Next {
    var d :- BlockEnded(d);
    Success(Spaced(Opened(d, kind), false))
  }

  /** The owed space was paid and the run ended: what comes next in the text starts a new one. */
  ghost function RunCut(d: Draft): Next {
    var d :- Flushed(d);
    RunEnded(d)
  }

  ghost function Dressed(d: Draft, style: Style, link: Option<nat>): Draft {
    d.(dress := d.dress.(style := style, link := link))
  }

  /** The style and link changed from here on. */
  ghost function Styled(d: Draft, style: Style, link: Option<nat>): Next {
    if d.dress.style == style && d.dress.link == link then Success(d)
    else
      var d :- RunCut(d);
      Success(Dressed(d, style, link))
  }

  ghost function RuleDrawn(d: Draft): Next {
    var d :- BlockBegun(d, Rule);
    BlockEnded(d)
  }

  ghost function PreBegun(d: Draft): Next {
    var d :- BlockBegun(d, Preformatted);
    Success(Verbatim(d, true))
  }

  ghost function Verbatim(d: Draft, on: bool): Draft {
    d.(setting := d.setting.(preformatted := on))
  }

  ghost function PreEnded(d: Draft): Next {
    BlockEnded(Verbatim(d, false))
  }

  ghost function InTitle(d: Draft): Draft {
    d.(setting := d.setting.(inTitle := true, atBlockStart := true, pendingSpace := false))
  }

  ghost function TitleBegun(d: Draft): Next {
    var d :- BlockEnded(d);
    Success(InTitle(d))
  }

  /** An open run is dropped, and with it the bytes it covers. */
  ghost function TitleEnded(d: Draft): Draft {
    var dropped := if d.copy.runOpen then SaturatingSub(|d.copy.text|, d.copy.runStart) else 0;
    d.(copy := d.copy.(runOpen := false, lost := d.copy.lost + dropped),
       setting := d.setting.(inTitle := false, atBlockStart := true, pendingSpace := false))
  }

  // --- lists ------------------------------------------------------------------------

  /** How deep an item is, and its bullet or its number. */
  function NextMarker(lists: seq<ListLevel>): (nat, Marker) {
    var depth := if |lists| > 256 then 255 else SaturatingSub(|lists|, 1);
    if lists == [] || !lists[|lists| - 1].ordered then (depth, Bullet)
    else (depth, Number(lists[|lists| - 1].nextNumber))
  }

  /** An item was numbered. */
  function Counted(lists: seq<ListLevel>): (counted: seq<ListLevel>)
    ensures |counted| == |lists|
  {
    if lists == [] || !lists[|lists| - 1].ordered then lists
    else lists[|lists| - 1 := ListLevel(true, SaturatingAdd32(lists[|lists| - 1].nextNumber))]
  }

  /** A list was opened. Past the nesting limit nothing happens. */
  function Deepened(lists: seq<ListLevel>, ordered: bool): seq<ListLevel> {
    if |lists| < MAX_NESTING_DEPTH then lists + [ListLevel(ordered, 1)] else lists
  }

  /** The innermost list was closed. */
  function Raised(lists: seq<ListLevel>): seq<ListLevel> {
    if lists != [] then lists[..|lists| - 1] else lists
  }

  ghost function Relisted(d: Draft, lists: seq<ListLevel>): Draft {
    d.(rest := d.rest.(lists := lists))
  }

  ghost function ListBegun(d: Draft, ordered: bool): Next {
    var d :- BlockEnded(d);
    Success(Relisted(d, Deepened(d.rest.lists, ordered)))
  }

  ghost function ListEnded(d: Draft): Next {
    var d :- BlockEnded(d);
    Success(Relisted(d, Raised(d.rest.lists)))
  }

  ghost function ItemBegun(d: Draft): Next {
    var (depth, marker) := NextMarker(d.rest.lists);
    BlockBegun(Relisted(d, Counted(d.rest.lists)), ListItem(depth, marker))
  }

  // --- inline elements --------------------------------------------------------------

  /** An inline element was opened. Past the nesting limit nothing happens. */
  ghost function InlineOpened(d: Draft, name: Name, bit: Style, setsLink: bool): Next {
    if |d.dress.inline| >= MAX_NESTING_DEPTH then Success(d)
    else
      var added := bit.Without(d.dress.style);
      var frame := InlineFrame(name, added, d.dress.link, setsLink);
      var d := d.(dress := d.dress.(inline := d.dress.inline + [frame],
                                    saved := d.dress.saved + [Before(d.dress.style, d.dress.link)]));
      if added == PLAIN then Success(d) else Styled(d, d.dress.style.With(added), d.dress.link)
  }

  ghost function Unwound(d: Draft, index: nat): Draft {
    if index > |d.dress.inline| || index > |d.dress.saved| then d
    else d.(dress := d.dress.(inline := d.dress.inline[..index], saved := d.dress.saved[..index],
                              spoiled := Under(d.dress.spoiled, index)))
  }

  /** The innermost element with this name and all inside it were closed. */
  ghost function InlineClosed(d: Draft, name: Name): Next {
    var frames, saved := d.dress.inline, d.dress.saved;
    var index := Innermost(frames, name);
    if index >= |frames| || index >= |saved| then Success(d)
    else
      FramesClosed(d, index)
  }

  ghost function FramesClosed(d: Draft, index: nat): Next {
    var frames := d.dress.inline;
    if index >= |frames| then Success(d)
    else Styled(Unwound(d, index), AddedBits(frames[..index]), LinkBelow(frames, d.dress.link, index))
  }

  /** The target this reference may still become a link to. */
  function Target(resolve: Text -> Option<Url>, ownedBytes: Url -> nat, links: nat, linkUrlBytes: nat,
                  href: Option<Text>): Option<Url>
  {
    if href.None? then None
    else
      var url := resolve(href.value);
      if url.None? || links >= MAX_LINKS || linkUrlBytes + ownedBytes(url.value) > MAX_LINK_URL_BYTES then None else url
  }

  /** The link in force changed to a new one, and with it what closing the open elements will leave. */
  ghost function Spoiling(d: Draft): Draft {
    var dress := d.dress;
    d.(dress := dress.(spoiled := dress.spoiled + Exposed(dress.inline),
                       adrift := dress.adrift || TopLink(dress.inline) == 0))
  }

  ghost function Followed(d: Draft, index: nat): Next {
    Styled(Spoiling(d), d.dress.style, Some(index))
  }

  ghost function LinkAdded(d: Draft, url: Url): Draft {
    var dress := d.dress;
    d.(dress := dress.(links := dress.links + [url], linkUrlBytes := dress.linkUrlBytes + d.rest.ownedBytes(url)))
  }

  ghost function LinkOpened(d: Draft, index: nat): Next {
    var d :- InlineOpened(d, AnchorTag, PLAIN, true);
    Followed(d, index)
  }

  /** Text from here on links to the target, if there is one to use. */
  ghost function LinkStarted(d: Draft, href: Option<Text>): Next {
    var target := Target(d.rest.resolve, d.rest.ownedBytes, |d.dress.links|, d.dress.linkUrlBytes, href);
    if target.None? then InlineOpened(d, AnchorTag, PLAIN, false)
    else LinkOpened(LinkAdded(d, target.value), |d.dress.links|)
  }

  // --- forms and controls -------------------------------------------------------------

  ghost function FormListed(f: Fields, url: Url): Fields {
    f.(forms := f.forms + [Form(url, |f.controls|, 0)], form := Some(|f.forms|))
  }

  ghost function FormBegun(d: Draft, action: Option<Text>): Next {
    if d.fields.form.Some? then Success(d)
    else
      var d :- Need(d, 1);
      var url := d.rest.resolve(if action.Some? then action.value else []);
      if url.None? then Failure(BadUrl) else Success(d.(fields := FormListed(d.fields, url.value)))
  }

  /** A control's text is what it starts with, or what it shows. */
  function Refill(controls: seq<FormControl>, c: nat, value: Text, overflow: bool,
                  shown: Text): (refilled: seq<FormControl>)
    requires c < |controls|
    ensures |refilled| == |controls|
  {
    controls[c := controls[c].(initialValue := value, valueOverflow := overflow, displayLabel := shown)]
  }

  ghost function ButtonEnded(f: Fields): Fields {
    if f.button.None? || f.button.value.control >= |f.controls| then f.(button := None)
    else
      var b := f.button.value;
      var was := f.controls[b.control];
      f.(button := None, controls := Refill(f.controls, b.control, was.initialValue, was.valueOverflow, b.text))
  }

  ghost function TextareaEnded(f: Fields): Fields {
    if f.textarea.None? || f.textarea.value.control >= |f.controls| then f.(textarea := None)
    else
      var t := f.textarea.value;
      f.(textarea := None,
         controls := Refill(f.controls, t.control, t.text, t.overflow, f.controls[t.control].displayLabel))
  }

  ghost function FormEnded(d: Draft): Next {
    BlockEnded(d.(fields := ButtonEnded(d.fields).(form := None)))
  }

  /** The place between two runs where a control stands. */
  ghost function Parted(d: Draft): Next {
    var d :- Flushed(d);
    RunEnded(Housed(d))
  }

  /** Where a control stands in the text: a textarea outside tables has a block of its own, any other
      control is a place between runs. */
  ghost function Placed(d: Draft, kind: ControlKind): Next {
    if kind != Textarea then Parted(d)
    else if d.grids.table.None? then BlockBegun(d, Control(|d.fields.controls|))
    else Success(d)
  }

  /** A control was added to the list and to the open form; its rivals gave way. */
  ghost function Joining(f: Fields, newer: FormControl, wanted: bool): Fields {
    f.(controls := Yielded(f.controls, newer) + [newer], forms := Joined(f.forms, f.form), asked := f.asked + [wanted])
  }

  ghost function Seated(d: Draft, newer: FormControl, wanted: bool): Next {
    var d := d.(fields := Joining(d.fields, newer, wanted));
    if newer.kind == Textarea && d.grids.table.None? then BlockEnded(d) else Success(d)
  }

  ghost function ControlAdded(d: Draft, newer: FormControl, wanted: bool): Next {
    var d :- Need(d, 1);
    ControlEntered(d, newer, wanted)
  }

  ghost function ControlEntered(d: Draft, newer: FormControl, wanted: bool): Next {
    var d :- Placed(d, newer.kind);
    Seated(d, newer.(textOffset := |d.copy.text|), wanted)
  }

  /** A checkable control without a value submits "on". */
  function NewControl(form: Option<nat>, options: nat, kind: ControlKind, multiple: bool, tag: Tag,
                      value: Option<Text>, wanted: bool)
    : FormControl
  {
    var initial := if value.Some? then value.value else if IsCheckable(kind) then ON else [];
    FormControl(form, kind, if tag.nameAttribute.Some? then tag.nameAttribute.value else [], initial, [],
                if tag.id.Some? then tag.id.value else [], tag.disabled, wanted && IsCheckable(kind), false, options, 0,
                multiple, 0)
  }

  ghost function InputAdded(d: Draft, tag: Tag): Next {
    var f := d.fields;
    ControlAdded(d, NewControl(f.form, |f.options|, InputKind(tag.typeAttribute), false, tag, tag.value, tag.checked),
                 tag.checked)
  }

  ghost function ButtonAdded(d: Draft, tag: Tag): Next {
    ControlAdded(d,
        NewControl(d.fields.form, |d.fields.options|, ButtonKind(tag.typeAttribute), false, tag, tag.value,
                   false), false)
  }

  ghost function ButtonBegun(d: Draft, tag: Tag): Next {
    var d :- ButtonAdded(d, tag);
    Success(ButtonFilled(d))
  }

  ghost function ButtonFilled(d: Draft): Draft {
    d.(fields := ButtonOpened(d.fields))
  }

  ghost function ButtonOpened(f: Fields): Fields {
    f.(button := Some(ButtonBuild(SaturatingSub(|f.controls|, 1), [], false, 0)))
  }

  ghost function TextareaAdded(d: Draft, tag: Tag): Next {
    ControlAdded(d, NewControl(d.fields.form, |d.fields.options|, Textarea, false, tag, None, false), false)
  }

  ghost function TextareaBegun(d: Draft, tag: Tag): Next {
    if d.fields.textarea.Some? then Success(d)
    else
      var d :- TextareaAdded(d, tag);
      Success(TextareaFilled(d))
  }

  ghost function TextareaFilled(d: Draft): Draft {
    d.(fields := TextareaOpened(d.fields))
  }

  ghost function TextareaOpened(f: Fields): Fields {
    f.(textarea := Some(TextareaBuild(SaturatingSub(|f.controls|, 1), [], true, false, false)))
  }

  ghost function SelectAdded(d: Draft, tag: Tag): Next {
    ControlAdded(d, NewControl(d.fields.form, |d.fields.options|, Select, tag.multiple, tag, None, false), false)
  }

  ghost function SelectBegun(d: Draft, tag: Tag): Next {
    var d :- SelectAdded(d, tag);
    Success(SelectFilled(d))
  }

  ghost function SelectFilled(d: Draft): Draft {
    d.(fields := SelectOpened(d.fields))
  }

  ghost function SelectOpened(f: Fields): Fields {
    f.(select := Some(SelectBuild(SaturatingSub(|f.controls|, 1), false, None)))
  }

  // --- options ------------------------------------------------------------------------

  /** The open option's text is what it shows, and its value when it names none. */
  function Captioned(option: SelectOption, o: OptionBuild): SelectOption {
    option.(caption := o.text, value := if o.hasValue then option.value else o.text)
  }

  ghost function OptionEnded(f: Fields): Fields {
    if f.select.None? || f.select.value.option.None? then f
    else
      var o := f.select.value.option.value;
      f.(select := Some(f.select.value.(option := None)),
         options := if o.index < |f.options| then f.options[o.index := Captioned(f.options[o.index], o)] else f.options)
  }

  function OneOptionMore(control: FormControl): FormControl {
    control.(optionCount := control.optionCount + 1)
  }

  ghost function OptionJoined(f: Fields, option: SelectOption, hasValue: bool): Fields {
    var c := option.control;
    f.(options := f.options + [option], wished := f.wished + [option.selected],
       controls := if c < |f.controls| then f.controls[c := OneOptionMore(f.controls[c])] else f.controls,
       select := if f.select.None? then None
                 else Some(f.select.value.(option := Some(OptionBuild(|f.options|, [], false, hasValue)))))
  }

  /** An option was added to the open select, and is being filled. */
  ghost function OptionBegun(d: Draft, value: Option<Text>, selected: bool, disabled: bool): Next {
    OptionAdded(d.(fields := OptionEnded(d.fields)), value, selected, disabled)
  }

  ghost function OptionAdded(d: Draft, value: Option<Text>, selected: bool, disabled: bool): Next {
    if d.fields.select.None? then Success(d)
    else if |d.fields.options| >= MAX_SELECT_OPTIONS then Failure(TooManyItems)
    else
      var d :- Need(d, 1);
      var s := d.fields.select.value;
      var option := SelectOption(s.control, [], if value.Some? then value.value else [], selected,
                                 disabled || s.groupDisabled);
      Success(d.(fields := OptionJoined(d.fields, option, value.Some?)))
  }

  ghost function OptionGroupEnded(f: Fields, disabled: bool): Fields {
    var f := OptionEnded(f);
    if f.select.None? then f else f.(select := Some(f.select.value.(groupDisabled := disabled)))
  }

  /** The select was closed. A single one shows the option marked last, or with none marked the first that
      is enabled. */
  ghost function SelectEnded(f: Fields): Fields {
    var f := OptionEnded(f);
    if f.select.None? || f.select.value.control >= |f.controls| then f.(select := None)
    else f.(select := None, options := Closing(f.controls[f.select.value.control], f.options))
  }

  // --- labels and images ----------------------------------------------------------------

  ghost function LabelNoted(d: Draft, open: Option<LabelBuild>): Draft {
    d.(rest := d.rest.(labelOpen := open))
  }

  ghost function LabelListed(d: Draft, build: LabelBuild): Draft {
    d.(rest := d.rest.(labels := d.rest.labels + [Label(build.textStart, |d.copy.text|, build.targetId)]))
  }

  ghost function LabelEnded(d: Draft): Next {
    if d.rest.labelOpen.None? then Success(d)
    else
      var build := d.rest.labelOpen.value;
      var d :- RunCut(LabelNoted(d, None));
      LabelFiled(d, build)
  }

  ghost function LabelFiled(d: Draft, build: LabelBuild): Next {
    var d :- Need(d, 1);
    Success(LabelListed(d, build))
  }

  ghost function LabelBegun(d: Draft, target: Option<Text>): Next {
    var d :- LabelEnded(d);
    if target.None? || target.value == [] then Success(d)
    else
      var d :- RunCut(d);
      Success(LabelNoted(d, Some(LabelBuild(target.value, |d.copy.text|))))
  }

  function Shown(alt: Option<string>): string {
    var shown := Trim(if alt.Some? then alt.value else "");
    if shown == "" then "image" else shown
  }

  /** Outside tables an image has a block of its own. */
  ghost function Detached(d: Draft): Next {
    if d.grids.table.None? then BlockBegun(d, Paragraph) else RunEnded(d)
  }

  ghost function WordBegun(d: Draft, shown: string): Next {
    var d :- Lettered(d, '[');
    Texted(d, shown)
  }

  ghost function WordEnded(d: Draft): Next {
    var d :- Lettered(d, ']');
    RunEnded(d)
  }

  ghost function ImageWritten(d: Draft, shown: string): Next {
    var d :- WordBegun(d, shown);
    WordEnded(d)
  }

  ghost function ImageListed(d: Draft): Draft {
    var image := Image(|d.copy.text|, |d.copy.text|, d.dress.link);
    d.(rest := d.rest.(images := d.rest.images + [image]))
  }

  ghost function ImageClosed(d: Draft, index: nat): Draft {
    var images := d.rest.images;
    if index >= |images| then d
    else d.(rest := d.rest.(images := images[index := images[index].(textEnd := |d.copy.text|)]))
  }

  /** Outside tables the image's block ends. A space is owed. */
  ghost function ImageLeft(d: Draft): Next {
    var d :- if d.grids.table.None? then BlockEnded(d) else Success(d);
    Success(Spaced(d, true))
  }

  ghost function Separated(d: Draft): Next {
    var d :- Detached(d);
    Flushed(Spaced(d, true))
  }

  /** An image is a word: its text in brackets, with a space before and after. The first ones are kept. */
  ghost function ImageAdded(d: Draft, alt: Option<string>): Next {
    var d :- Separated(d);
    ImageFinished(d, Shown(alt))
  }

  ghost function ImageFinished(d: Draft, shown: string): Next {
    var d :- ImageDrawn(d, shown);
    ImageLeft(d)
  }

  ghost function ImageDrawn(d: Draft, shown: string): Next {
    ImageFilled(if |d.rest.images| < MAX_IMAGES then ImageListed(d) else d, |d.rest.images|, shown)
  }

  ghost function ImageFilled(d: Draft, index: nat, shown: string): Next {
    var d :- ImageWritten(d, shown);
    Success(ImageClosed(d, index))
  }

  // --- tables ---------------------------------------------------------------------------

  ghost function TableBegun(d: Draft): Next {
    var d :- BlockEnded(d);
    TableOpened(d)
  }

  ghost function TableOpened(d: Draft): Next {
    var d :- Need(d, 1);
    Success(d.(grids := TableListed(d.grids)))
  }

  ghost function TableListed(g: Grids): Grids {
    g.(tables := g.tables + [Table(|g.tableCells|, 0, |g.tableRows|, 0, 0)],
       table := Some(NewTable(|g.tables|, |g.tableCells|, |g.tableRows|)))
  }

  /** The cell's record, and the block that is its text. */
  ghost function CellOf(d: Draft, cell: OpenCell, table: nat): TableCell {
    TableCell(table, |d.setting.blocks|, cell.textStart, |d.copy.text|, cell.firstImage,
              SaturatingSub(|d.rest.images|, cell.firstImage), cell.firstControl,
              SaturatingSub(|d.fields.controls|, cell.firstControl), cell.square, cell.header)
  }

  ghost function CellBlockOf(d: Draft, cell: OpenCell): Block {
    Block(Paragraph, d.setting.openFirstRun, SaturatingSub(|d.copy.runs|, d.setting.openFirstRun),
          cell.firstControl, SaturatingSub(|d.fields.controls|, cell.firstControl))
  }

  /** The block of a cell is filed. When something else, a heading say, closed the block that was open in
      the cell, the runs that one took are filed a second time. */
  ghost function CellBlockFiled(d: Draft, block: Block): Draft {
    BlockListed(Misfiled(d, if d.setting.openKind.None? then block.runCount else 0), block)
  }

  ghost function Misfiled(d: Draft, count: nat): Draft {
    d.(setting := d.setting.(misfiled := d.setting.misfiled + count))
  }

  ghost function CellListed(g: Grids, cell: TableCell): Grids {
    g.(tableCells := g.tableCells + [cell], table := if g.table.None? then None else Some(Between(g.table.value)))
  }

  ghost function CellClosed(d: Draft, cell: OpenCell): Draft {
    var table := if d.grids.table.None? then 0 else d.grids.table.value.index;
    CellBlockFiled(d, CellBlockOf(d, cell)).(grids := CellListed(d.grids, CellOf(d, cell, table)))
  }

  /** The open cell was filed: what was written since it opened is its text and its block. */
  ghost function CellFiled(d: Draft): Next {
    if d.grids.table.None? || d.grids.table.value.openCell.None? then Success(d)
    else
      var cell := d.grids.table.value.openCell.value;
      var d :- RunEnded(d);
      var d :- Need(d, 2);
      Success(CellClosed(d, cell))
  }

  ghost function RowListed(d: Draft): Next {
    if d.grids.table.None? then Success(d)
    else
      var d :- Need(d, 1);
      Success(d.(grids := RowAdded(d.grids)))
  }

  ghost function RowAdded(g: Grids): Grids {
    if g.table.None? then g
    else
      var t := WithRow(g.table.value);
      g.(table := Some(t), tableRows := g.tableRows + [TableRow(t.index, CurrentRow(t), t.group)])
  }

  /** A row was begun: cells hang down one row less. */
  ghost function RowBegun(d: Draft): Next {
    var d :- CellFiled(d);
    RowListed(d)
  }

  ghost function InRow(d: Draft): Next {
    var d :- CellFiled(d);
    if d.grids.table.Some? && d.grids.table.value.row.None? then RowBegun(d) else Success(d)
  }

  ghost function CellPlaced(d: Draft, header: bool, rowspan: nat, colspan: nat): Next {
    if d.grids.table.None? then Success(d)
    else
      var t := d.grids.table.value;
      var spot := Spot(t.occupied, colspan, 0);
      if spot.None? then Failure(TooManyItems)
      else
        Success(CellHung(d, Square(CurrentRow(t), spot.value.0, rowspan, spot.value.1), header))
  }

  ghost function CellHung(d: Draft, square: Square, header: bool): Draft {
    if d.grids.table.None? then d
    else
      var cell := OpenCell(square, header, |d.copy.text|, |d.rest.images|, |d.fields.controls|);
      d.(grids := d.grids.(table := Some(WithCell(d.grids.table.value, cell))))
  }

  /** The cell's text goes to a paragraph. What was open outside the cells is not closed first, and the runs
      it already had are filed nowhere. */
  ghost function CellHoused(d: Draft): Draft {
    var passed := if d.setting.openKind.Some? then SaturatingSub(|d.copy.runs|, d.setting.openFirstRun) else 0;
    Spaced(Opened(Misfiled(d, passed), Paragraph), false)
  }

  ghost function CellOpened(d: Draft, header: bool, rowspan: nat, colspan: nat): Next {
    var d :- CellPlaced(d, header, rowspan, colspan);
    Success(if d.grids.table.None? then d else CellHoused(d))
  }

  ghost function CellBegun(d: Draft, header: bool, rowspan: Option<nat>, colspan: Option<nat>): Next {
    var d :- InRow(d);
    CellOpened(d, header, ParseSpan(rowspan), ParseSpan(colspan))
  }

  ghost function TableEnded(d: Draft): Next {
    var d :- CellFiled(d);
    Success(d.(grids := TableDone(d.grids)))
  }

  ghost function TableDone(g: Grids): Grids {
    if g.table.None? || g.table.value.index >= |g.tables| then g.(table := None)
    else g.(table := None, tables := g.tables[g.table.value.index := Finished(g.table.value, |g.tableCells|)])
  }

  /** What a table being built remembers besides its cells and rows. */
  ghost function TableNoted(d: Draft, group: RowGroup, nested: nat, nestedCellInRow: bool): Draft {
    if d.grids.table.None? then d
    else
      var t := d.grids.table.value.(group := group, nested := nested, nestedCellInRow := nestedCellInRow);
      d.(grids := d.grids.(table := Some(t)))
  }

  ghost function GroupBegun(d: Draft, group: RowGroup): Next {
    var d :- CellFiled(d);
    var table := d.grids.table;
    Success(if table.None? then d else TableNoted(d, group, table.value.nested, table.value.nestedCellInRow))
  }

  // --- which tags mean what ---------------------------------------------------------------

  /** Tags that have a meaning of their own in a table inside a cell. */
  predicate IsTablePart(name: Name) {
    name.TableTag? || name.RowTag? || name.CellTag? || name.GroupTag? || name.CaptionTag?
  }

  /** The open table takes this tag. */
  predicate Tabular(table: Option<TableBuild>, name: Name) {
    && table.Some?
    && (|| (table.value.nested != 0 && IsTablePart(name)) || (IsTablePart(name) && !name.CaptionTag?)
        || (table.value.openCell.Some? && IsBlock(name)))
  }

  predicate IsControl(name: Name) {
    name.FormTag? || name.InputTag? || name.ButtonTag? || name.SelectTag? || name.TextareaTag? || name.LabelTag?
  }

  predicate IsNestedControl(name: Name) {
    name.SelectTag? || name.TextareaTag? || name.ButtonTag?
  }

  /** Tags that end the block being filled, and perhaps open one. */
  predicate IsBlocky(name: Name) {
    name.RuleTag? || name.PreTag? || name.ListTag? || name.ItemTag? || name.HeadingTag? || IsBlock(name)
  }

  /** Depth is counted in a byte. */
  function Deeper(nested: nat): nat {
    if nested >= 255 then 255 else nested + 1
  }

  // --- what a tag does ----------------------------------------------------------------------

  /** Inside a select only its own structure means anything. */
  ghost function InSelectStarted(d: Draft, tag: Tag): Next {
    match tag.name
    case OptionTag => OptionBegun(d, tag.value, tag.selected, tag.disabled)
    case OptionGroupTag => Success(d.(fields := OptionGroupEnded(d.fields, tag.disabled)))
    case SelectTag => Success(d.(fields := SelectEnded(d.fields)))
    case _ => Success(d)
  }

  ghost function InSelectEnded(f: Fields, name: Name): Fields {
    match name
    case OptionTag => OptionEnded(f)
    case OptionGroupTag => OptionGroupEnded(f, false)
    case SelectTag => SelectEnded(f)
    case FormTag => SelectEnded(f)
    case _ => f
  }

  ghost function Suppressed(f: Fields, count: nat): Fields {
    if f.button.None? then f else f.(button := Some(f.button.value.(suppressedControls := count)))
  }

  /** Controls inside a button do not count, nor does any text in them. */
  ghost function InButtonStarted(f: Fields, name: Name): Fields {
    if f.button.Some? && IsNestedControl(name) then Suppressed(f, Deeper(f.button.value.suppressedControls)) else f
  }

  ghost function InButtonEnded(d: Draft, name: Name): Next {
    if d.fields.button.None? then Success(d)
    else
      var n := d.fields.button.value.suppressedControls;
      if n != 0 then Success(if IsNestedControl(name) then d.(fields := Suppressed(d.fields, n - 1)) else d)
      else
        match name
        case ButtonTag => Success(d.(fields := ButtonEnded(d.fields)))
        case FormTag => FormEnded(d)
        case _ => Success(d)
  }

  /** A table inside a cell is not a table of its own: its rows are lines of the cell's text, and its
      cells stand apart. */
  ghost function NestedStarted(d: Draft, name: Name): Next {
    if d.grids.table.None? then Success(d)
    else
      var t := d.grids.table.value;
      match name
      case TableTag => Broken(TableNoted(d, t.group, Deeper(t.nested), t.nestedCellInRow))
      case RowTag => Broken(TableNoted(d, t.group, t.nested, false))
      case CellTag(_) =>
        var noted := TableNoted(d, t.group, t.nested, true);
        if t.nestedCellInRow then Texted(noted, " | ") else Success(noted)
      case _ => Success(d)
  }

  /** Paragraph-like markup inside a cell remains the cell's text, on a line of its own. */
  ghost function InTableStarted(d: Draft, tag: Tag): Next {
    if d.grids.table.None? then Success(d)
    else
      var t := d.grids.table.value;
      if t.nested != 0 && IsTablePart(tag.name) then NestedStarted(d, tag.name)
      else
        match tag.name
        case TableTag => Broken(TableNoted(d, t.group, Deeper(t.nested), false))
        case GroupTag(group) => GroupBegun(d, group)
        case RowTag => RowBegun(d)
        case CellTag(header) => CellBegun(d, header, tag.rowspan, tag.colspan)
        case _ => Broken(d)
  }

  ghost function NestedEnded(d: Draft, name: Name): Next {
    if d.grids.table.None? || d.grids.table.value.nested == 0 then Success(d)
    else
      var t := d.grids.table.value;
      match name
      case TableTag => Broken(TableNoted(d, t.group, t.nested - 1, false))
      case RowTag => Broken(d)
      case _ => Success(d)
  }

  ghost function InTableEnded(d: Draft, name: Name): Next {
    if d.grids.table.None? then Success(d)
    else if d.grids.table.value.nested != 0 && IsTablePart(name) then NestedEnded(d, name)
    else
      match name
      case TableTag => TableEnded(d)
      case GroupTag(_) => CellFiled(d)
      case RowTag => CellFiled(d)
      case CellTag(_) => CellFiled(d)
      case _ => Success(d)
  }

  ghost function ControlStarted(d: Draft, tag: Tag): Next {
    match tag.name
    case FormTag => FormBegun(d, tag.action)
    case InputTag => InputAdded(d, tag)
    case ButtonTag => ButtonBegun(d, tag)
    case SelectTag => SelectBegun(d, tag)
    case TextareaTag => TextareaBegun(d, tag)
    case LabelTag => LabelBegun(d, tag.labelFor)
    case _ => Success(d)
  }

  ghost function ControlEnded(d: Draft, name: Name): Next {
    match name
    case TextareaTag => Success(d.(fields := TextareaEnded(d.fields)))
    case LabelTag => LabelEnded(d)
    case FormTag => FormEnded(d)
    case _ => Success(d)
  }

  ghost function BlockyStarted(d: Draft, name: Name): Next {
    match name
    case RuleTag => RuleDrawn(d)
    case PreTag => PreBegun(d)
    case ListTag(ordered) => ListBegun(d, ordered)
    case ItemTag => ItemBegun(d)
    case HeadingTag(level) => BlockBegun(d, Heading(level))
    case _ => if IsBlock(name) then BlockEnded(d) else Success(d)
  }

  /** Unknown elements are neither blocks nor breaks. */
  ghost function ContentStarted(d: Draft, tag: Tag): Next {
    if IsBlocky(tag.name) then BlockyStarted(d, tag.name)
    else
      match tag.name
      case TitleTag => TitleBegun(d)
      case BreakTag => Broken(d)
      case ImageTag => ImageAdded(d, tag.alt)
      case AnchorTag => LinkStarted(d, tag.href)
      case InlineTag(element) => InlineOpened(d, tag.name, InlineStyle(element), false)
      case _ => Success(d)
  }

  ghost function BlockyEnded(d: Draft, name: Name): Next {
    match name
    case PreTag => PreEnded(d)
    case ListTag(_) => ListEnded(d)
    case RuleTag => Success(d)
    case _ => BlockEnded(d)
  }

  ghost function ContentEnded(d: Draft, name: Name): Next {
    if IsBlocky(name) then BlockyEnded(d, name)
    else if name.TitleTag? then Success(TitleEnded(d))
    else if name.AnchorTag? || name.InlineTag? then InlineClosed(d, name)
    else Success(d)
  }

  /** What a start tag does outside selects and buttons. */
  ghost function StartedOutside(d: Draft, tag: Tag): Next {
    if Tabular(d.grids.table, tag.name) then InTableStarted(d, tag)
    else if tag.name.TableTag? then TableBegun(d)
    else if IsControl(tag.name) then ControlStarted(d, tag)
    else ContentStarted(d, tag)
  }

  ghost function EndedOutside(d: Draft, name: Name): Next {
    if Tabular(d.grids.table, name) then InTableEnded(d, name)
    else if IsControl(name) && !name.InputTag? && !name.SelectTag? then ControlEnded(d, name)
    else ContentEnded(d, name)
  }

  /** A control that cannot be inside a select ends it. */
  ghost function ElementStarted(d: Draft, tag: Tag): Next {
    if d.fields.button.Some? then Success(d.(fields := InButtonStarted(d.fields, tag.name)))
    else if d.fields.select.Some? && !tag.name.InputTag? && !tag.name.TextareaTag? then InSelectStarted(d, tag)
    else StartedUnselected(d, tag)
  }

  ghost function StartedUnselected(d: Draft, tag: Tag): Next {
    StartedOutside(if d.fields.select.Some? then d.(fields := SelectEnded(d.fields)) else d, tag)
  }

  ghost function ElementEnded(d: Draft, name: Name): Next {
    if d.fields.select.Some? && !name.FormTag? then Success(d.(fields := InSelectEnded(d.fields, name)))
    else
      ElementClosed(if d.fields.select.Some? then d.(fields := SelectEnded(d.fields)) else d, name)
  }

  ghost function ElementClosed(d: Draft, name: Name): Next {
    if d.fields.button.Some? then InButtonEnded(d, name) else EndedOutside(d, name)
  }

  /** What an event does. */
  ghost function Happened(d: Draft, event: Event): Next {
    match event
    case Characters(characters) => Texted(d, characters)
    case StartTag(tag) => ElementStarted(d, tag)
    case EndTag(name) => ElementEnded(d, name)
  }

  ghost function Read(d: Draft, events: seq<Event>): Next {
    if events == [] then Success(d)
    else
      var d :- Read(d, events[..|events| - 1]);
      Happened(d, events[|events| - 1])
  }

  /** The end of the page closed whatever was open. */
  ghost function PageEnded(d: Draft): Next {
    TextEnded(d.(fields := FieldsEnded(d.fields)))
  }

  ghost function TextEnded(d: Draft): Next {
    var d :- LabelEnded(d);
    BodyEnded(d)
  }

  ghost function FieldsEnded(f: Fields): Fields {
    SelectEnded(TextareaEnded(ButtonEnded(f)))
  }

  lemma BlockEndKeepsFields(d: Draft)
    ensures BlockEnded(d).Success? ==> BlockEnded(d).value.fields == d.fields
  {
  }

  lemma TableEndKeepsFields(d: Draft)
    ensures TableEnded(d).Success? ==> TableEnded(d).value.fields == d.fields
  {
  }

  lemma LabelEndKeepsFields(d: Draft)
    ensures LabelEnded(d).Success? ==> LabelEnded(d).value.fields == d.fields
  {
  }

  lemma TextEndKeepsFields(d: Draft)
    ensures TextEnded(d).Success? ==> TextEnded(d).value.fields == d.fields
  {
    LabelEndKeepsFields(d);
    if LabelEnded(d).Success? {
      var e := LabelEnded(d).value;
      TableEndKeepsFields(e);
      if TableEnded(e).Success? {
        BlockEndKeepsFields(TableEnded(e).value);
      }
    }
  }

  ghost function BodyEnded(d: Draft): Next {
    var d :- TableEnded(d);
    BlockEnded(d)
  }

  /** Where a page is from: how its references resolve, and what keeping the result costs. */
  datatype Site = Site(resolve: Text -> Option<Url>, ownedBytes: Url -> nat)

  /** What a page becomes, or the error it stops with. */
  ghost function Page(site: Site, events: seq<Event>): Next {
    var d :- Read(Blank(site.resolve, site.ownedBytes), events);
    PageEnded(d)
  }
}
