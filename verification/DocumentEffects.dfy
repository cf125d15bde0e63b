/**
What each tag does to a document, told by what is in the document before and
after it: where text goes and how it is kept, which block and which style it is
in, what a control, an option, a label, a row and a cell are made of.
*/
module DocumentEffects {
  import opened Wrappers
  import opened Basics
  import opened DocumentTypes
  import opened TextFlow
  import opened RunList
  import opened InlineStack
  import opened TableGrid
  import opened TableList
  import opened FormList
  import opened DocumentSteps
  import opened DocumentStory

  // --- which part of the program takes a tag ----------------------------------------

  /** No select and no button takes the tags. */
  ghost predicate Free(d: Draft) {
    d.fields.select.None? && d.fields.button.None?
  }

  lemma StartsContent(d: Draft, tag: Tag)
    requires Free(d) && !Tabular(d.grids.table, tag.name) && !tag.name.TableTag? && !IsControl(tag.name)
    ensures Happened(d, StartTag(tag)) == ContentStarted(d, tag)
  {
    var was := ContentStarted(d, tag);
    assert StartedOutside(d, tag) == was;
  }

  lemma StartsControl(d: Draft, tag: Tag)
    requires Free(d) && !Tabular(d.grids.table, tag.name) && IsControl(tag.name)
    ensures Happened(d, StartTag(tag)) == ControlStarted(d, tag)
  {
    var was := ControlStarted(d, tag);
    assert StartedOutside(d, tag) == was;
  }

  lemma StartsInTable(d: Draft, tag: Tag)
    requires Free(d) && Tabular(d.grids.table, tag.name)
    ensures Happened(d, StartTag(tag)) == InTableStarted(d, tag)
  {
    var was := InTableStarted(d, tag);
    assert StartedOutside(d, tag) == was;
  }

  lemma EndsContent(d: Draft, name: Name)
    requires Free(d) && !Tabular(d.grids.table, name) && !IsControl(name)
    ensures Happened(d, EndTag(name)) == ContentEnded(d, name)
  {
    var was := ContentEnded(d, name);
    assert EndedOutside(d, name) == was;
  }

  lemma EndsInTable(d: Draft, name: Name)
    requires Free(d) && Tabular(d.grids.table, name)
    ensures Happened(d, EndTag(name)) == InTableEnded(d, name)
  {
    var was := InTableEnded(d, name);
    assert EndedOutside(d, name) == was;
  }

  // --- text ---------------------------------------------------------------------------

  /** The body or the title takes the text. */
  predicate TakesText(m: Mode) {
    !m.inSelect && !m.inTextarea && m.button.None?
  }

  lemma CharactersAreTexted(site: Site, events: seq<Event>, characters: string)
    requires After(site, events + [Characters(characters)]).Success? && TakesText(ModeAfter(events))
    ensures After(site, events).Success?
    ensures var d := After(site, events).value;
            && ModeOf(d) == ModeAfter(events)
            && After(site, events + [Characters(characters)])
                == Wrote(d, Pour(Flowing(d), d.setting.preformatted, characters))
  {
    ReadsOn(Start(site), events, Characters(characters));
    AfterFollows(site, events);
  }

  lemma WroteGrows(d: Draft, f: Flow)
    requires Wrote(d, f).Success? && Flowing(d).out <= f.out
    ensures var a := Wrote(d, f).value;
            if d.setting.inTitle then a.copy.title == f.out && a.copy.text == d.copy.text
            else a.copy.text == f.out && a.copy.title == d.copy.title
    ensures d.setting.openKind.Some? ==> Wrote(d, f).value.setting.openKind == d.setting.openKind
  {
    if |f.out| == |Flowing(d).out| {
      assert f.out == Flowing(d).out;
    }
  }

  /** Between `<pre>` and `</pre>`, text is kept as it is written, but for carriage returns and tabs. */
  lemma PreformattedTextIsKept(site: Site, events: seq<Event>, characters: string)
    requires After(site, events + [Characters(characters)]).Success?
    requires TakesText(ModeAfter(events)) && !ModeAfter(events).inTitle && ModeAfter(events).preformatted
    ensures After(site, events).Success?
    ensures After(site, events + [Characters(characters)]).value.copy.text
         == After(site, events).value.copy.text + Encode(KeptInPre(characters))
  {
    CharactersAreTexted(site, events, characters);
    var d := After(site, events).value;
    PreKeepsText(Flowing(d), characters);
    WroteGrows(d, Pour(Flowing(d), true, characters));
  }

  /** Elsewhere running text is its words with single spaces between them, whatever the whitespace. */
  lemma RunningTextIsCollapsed(site: Site, events: seq<Event>, characters: string)
    requires After(site, events + [Characters(characters)]).Success?
    requires TakesText(ModeAfter(events)) && !ModeAfter(events).inTitle && !ModeAfter(events).preformatted
    ensures After(site, events).Success?
    ensures var d := After(site, events).value;
            After(site, events + [Characters(characters)]).value.copy.text
            == d.copy.text + Part(Flowing(d), characters) + Join(Words(characters))
  {
    CharactersAreTexted(site, events, characters);
    var d := After(site, events).value;
    RunningTextAddsItsWords(Flowing(d), characters);
    assert Flowing(d).out <= Pour(Flowing(d), false, characters).out;
    WroteGrows(d, Pour(Flowing(d), false, characters));
  }

  /** Between `<title>` and `</title>` it is the title that grows, in the same ways, and the text does not. */
  lemma TitleTextIsTheTitles(site: Site, events: seq<Event>, characters: string)
    requires After(site, events + [Characters(characters)]).Success?
    requires TakesText(ModeAfter(events)) && ModeAfter(events).inTitle
    ensures After(site, events).Success?
    ensures var d, a := After(site, events).value, After(site, events + [Characters(characters)]).value;
            && a.copy.text == d.copy.text
            && a.copy.title == if ModeAfter(events).preformatted then d.copy.title + Encode(KeptInPre(characters))
                               else d.copy.title + Part(Flowing(d), characters) + Join(Words(characters))
  {
    CharactersAreTexted(site, events, characters);
    var d := After(site, events).value;
    RunningTextAddsItsWords(Flowing(d), characters);
    PreKeepsText(Flowing(d), characters);
    var f := Pour(Flowing(d), d.setting.preformatted, characters);
    assert Flowing(d).out <= f.out;
    WroteGrows(d, f);
  }

  // --- blocks -------------------------------------------------------------------------

  /** The runs once the open one is ended. */
  ghost function RunsEnded(d: Draft): seq<Run> {
    if d.copy.runOpen && d.copy.runStart < |d.copy.text|
    then d.copy.runs + [Run(d.copy.runStart, |d.copy.text|, d.dress.style, d.dress.link)] else d.copy.runs
  }

  /** The blocks once the open one is ended: it holds the runs and controls since it opened, and counts if it
      has any, or is a rule or a control's. */
  ghost function BlocksEnded(d: Draft): seq<Block> {
    var runs, controls := |RunsEnded(d)|, |d.fields.controls|;
    if d.setting.openKind.None? then d.setting.blocks
    else
      var kind := d.setting.openKind.value;
      if runs <= d.setting.openFirstRun && controls <= d.setting.openFirstControl && kind != Rule && !kind.Control?
      then d.setting.blocks
      else
        d.setting.blocks + [Block(kind, d.setting.openFirstRun, Max(runs - d.setting.openFirstRun, 0),
                                  d.setting.openFirstControl, Max(controls - d.setting.openFirstControl, 0))]
  }

  /** What was open is ended, and this is open now. */
  ghost predicate Turns(d: Draft, a: Draft, kind: Option<BlockKind>) {
    && a.copy.runs == RunsEnded(d) && !a.copy.runOpen && a.copy.text == d.copy.text
    && a.setting.blocks == BlocksEnded(d) && a.setting.openKind == kind
    && (kind.Some? ==> a.setting.openFirstRun == |a.copy.runs| && a.setting.openFirstControl == |a.fields.controls|)
    && (kind.Some? || d.setting.openKind.Some? ==> a.setting.atBlockStart && !a.setting.pendingSpace)
    && a.fields.controls == d.fields.controls && a.grids == d.grids && a.dress == d.dress
  }

  lemma BlockEndedTurns(d: Draft)
    requires BlockEnded(d).Success?
    ensures var a := BlockEnded(d).value;
            Turns(d, a, None) && a.setting.preformatted == d.setting.preformatted && a.rest == d.rest
  {
  }

  lemma BlockBegunTurns(d: Draft, kind: BlockKind)
    requires BlockBegun(d, kind).Success?
    ensures var a := BlockBegun(d, kind).value;
            Turns(d, a, Some(kind)) && a.setting.preformatted == d.setting.preformatted && a.rest == d.rest
  {
    BlockEndedTurns(d);
  }

  /** A tag that starts a block of its own, and which. Items are bulleted or numbered by their list. */
  ghost function KindOf(d: Draft, name: Name): Option<BlockKind> {
    match name
    case PreTag => Some(Preformatted)
    case HeadingTag(level) => Some(Heading(level))
    case ItemTag => Some(ListItem(NextMarker(d.rest.lists).0, NextMarker(d.rest.lists).1))
    case _ => None
  }

  /** Blocks without a kind of their own, and the parts of a table where there is none. */
  predicate IsPlainBlock(name: Name) {
    name.BlockTag? || name.CaptionTag? || name.GroupTag? || name.RowTag? || name.CellTag?
  }

  predicate EndsBlock(name: Name, g: Grids) {
    || name.PreTag? || name.HeadingTag? || name.ItemTag? || name.ListTag? || (name.BlockTag? && !CellOpen(g))
    || (IsPlainBlock(name) && g.table.None?)
  }

  /** Tags of blocks end the block before them, and what they start is of their kind; in the open cell of a table
      other blocks are lines of its text instead. */
  lemma BlockTagTurns(d: Draft, tag: Tag)
    requires Free(d) && Happened(d, StartTag(tag)).Success?
    requires EndsBlock(tag.name, d.grids)
    ensures var a := Happened(d, StartTag(tag)).value;
            && Turns(d, a, KindOf(d, tag.name))
            && a.setting.preformatted == (d.setting.preformatted || tag.name.PreTag?)
  {
    StartsContent(d, tag);
    BlockyTurns(d, tag.name);
  }

  lemma BlockyTurns(d: Draft, name: Name)
    requires BlockyStarted(d, name).Success?
    requires name.PreTag? || name.HeadingTag? || name.ItemTag? || name.ListTag? || IsPlainBlock(name)
    ensures var a := BlockyStarted(d, name).value;
            && Turns(d, a, KindOf(d, name)) && a.setting.preformatted == (d.setting.preformatted || name.PreTag?)
  {
    if name.PreTag? {
      PreBegunTurns(d);
    } else if name.HeadingTag? {
      BlockBegunTurns(d, Heading(name.level));
    } else if name.ItemTag? {
      BlockBegunTurns(Relisted(d, Counted(d.rest.lists)), KindOf(d, name).value);
    } else {
      PlainTurns(d, name);
    }
  }

  lemma PreBegunTurns(d: Draft)
    requires PreBegun(d).Success?
    ensures var a := PreBegun(d).value;
            Turns(d, a, Some(Preformatted)) && a.setting.preformatted && a.rest.lists == d.rest.lists
  {
    BlockBegunTurns(d, Preformatted);
  }

  lemma PlainTurns(d: Draft, name: Name)
    requires BlockyStarted(d, name).Success? && (name.ListTag? || IsPlainBlock(name))
    ensures var a := BlockyStarted(d, name).value;
            Turns(d, a, None) && a.setting.preformatted == d.setting.preformatted
  {
    BlockEndedTurns(d);
  }

  /** A rule is a block between the one before it and the next. */
  lemma RuleTagDraws(d: Draft, tag: Tag)
    requires Free(d) && Happened(d, StartTag(tag)).Success? && tag.name.RuleTag?
    ensures var a := Happened(d, StartTag(tag)).value;
            && a.setting.blocks == BlocksEnded(d) + [Block(Rule, |RunsEnded(d)|, 0, |d.fields.controls|, 0)]
            && a.setting.openKind.None? && a.copy.runs == RunsEnded(d) && a.copy.text == d.copy.text
  {
    StartsContent(d, tag);
    BlockBegunTurns(d, Rule);
    BlockEndedTurns(BlockBegun(d, Rule).value);
  }

  /** In a cell, a tag of a block is a line end, and so is that of a form: no form begins or ends in a cell. */
  lemma BlockTagInCell(d: Draft, tag: Tag)
    requires Free(d) && Happened(d, StartTag(tag)).Success? && (tag.name.BlockTag? || tag.name.FormTag?)
             && CellOpen(d.grids)
    ensures d.fields == Happened(d, StartTag(tag)).value.fields
    ensures Happened(d, EndTag(tag.name)) == Success(d)
    ensures var a := Happened(d, StartTag(tag)).value;
            && a.copy.text == (if d.setting.inTitle then d.copy.text else d.copy.text + [NEWLINE])
            && a.setting.blocks == d.setting.blocks && a.grids == d.grids
  {
    StartsInTable(d, tag);
    EndsInTable(d, tag.name);
  }

  /** And so is `<br>` everywhere, but in a title. */
  lemma BreakTagBreaks(d: Draft, tag: Tag)
    requires Free(d) && Happened(d, StartTag(tag)).Success? && tag.name.BreakTag?
    ensures var a := Happened(d, StartTag(tag)).value;
            && a.copy.text == (if d.setting.inTitle then d.copy.text else d.copy.text + [NEWLINE])
            && a.setting.blocks == d.setting.blocks && (!d.setting.inTitle ==> !a.setting.pendingSpace)
  {
    StartsContent(d, tag);
  }

  /** End tags of blocks end what is open. */
  lemma BlockEndTagTurns(d: Draft, name: Name)
    requires Free(d) && Happened(d, EndTag(name)).Success?
    requires EndsBlock(name, d.grids) || (name.TableTag? && d.grids.table.None?)
    ensures var a := Happened(d, EndTag(name)).value;
            Turns(d, a, None) && a.setting.preformatted == (d.setting.preformatted && !name.PreTag?)
  {
    EndsContent(d, name);
    if name.PreTag? {
      PreEndedTurns(d);
    } else if name.ListTag? {
      ListEndedTurns(d);
    } else {
      BlockEndedTurns(d);
    }
  }

  lemma PreEndedTurns(d: Draft)
    requires PreEnded(d).Success?
    ensures var a := PreEnded(d).value; Turns(d, a, None) && !a.setting.preformatted && a.rest == d.rest
  {
    BlockEndedTurns(Verbatim(d, false));
  }

  lemma ListEndedTurns(d: Draft)
    requires ListEnded(d).Success?
    ensures var a := ListEnded(d).value;
            Turns(d, a, None) && a.setting.preformatted == d.setting.preformatted
  {
    BlockEndedTurns(d);
  }

  /** `<pre>` and the text behind it: the text is kept as written, in a block of its own kind. */
  lemma PreElementKeepsText(site: Site, events: seq<Event>, tag: Tag, characters: string)
    requires tag.name.PreTag? && TakesText(ModeAfter(events)) && !ModeAfter(events).inTitle
    requires After(site, events + [StartTag(tag)] + [Characters(characters)]).Success?
    ensures After(site, events).Success?
    ensures var d, a := After(site, events).value, After(site,
                                                         events + [StartTag(tag)] + [Characters(characters)]).value;
            && a.copy.text == d.copy.text + Encode(KeptInPre(characters))
            && a.setting.openKind == Some(Preformatted) && a.setting.blocks == BlocksEnded(d)
  {
    var begun := events + [StartTag(tag)];
    assert begun[..|events|] == events;
    ReadsOn(Start(site), begun, Characters(characters));
    ReadsOn(Start(site), events, StartTag(tag));
    AfterFollows(site, events);
    var d := After(site, events).value;
    BlockTagTurns(d, tag);
    PreformattedTextIsKept(site, begun, characters);
    CharactersAreTexted(site, begun, characters);
    var e := After(site, begun).value;
    WroteKeepsBlocks(e, Pour(Flowing(e), true, characters));
  }

  lemma WroteKeepsBlocks(d: Draft, f: Flow)
    requires Wrote(d, f).Success? && d.setting.openKind.Some?
    ensures Wrote(d, f).value.setting.openKind == d.setting.openKind
            && Wrote(d, f).value.setting.blocks == d.setting.blocks
  {
  }

  // --- styles and links ---------------------------------------------------------------

  /** Inline elements add their style to the one in force: bold, italic, or that of code. */
  lemma InlineTagStyles(d: Draft, tag: Tag)
    requires Free(d) && Happened(d, StartTag(tag)).Success? && tag.name.InlineTag?
    ensures var a, e := Happened(d, StartTag(tag)).value, tag.name.element;
            && a.dress.link == d.dress.link
            && a.dress.style == if |d.dress.inline| >= MAX_NESTING_DEPTH then d.dress.style
                                else Style(d.dress.style.bold || e.Strong? || e.B?,
                                           d.dress.style.italic || e.Em? || e.I?,
                                           d.dress.style.code || e.Code? || e.Kbd? || e.Samp? || e.Tt? || e.Var?)
  {
    StartsContent(d, tag);
  }

  /** A link to where its reference resolves, when there is room for it. */
  lemma AnchorTagLinks(d: Draft, tag: Tag)
    requires Free(d) && Happened(d, StartTag(tag)).Success? && tag.name.AnchorTag?
    ensures var a := Happened(d, StartTag(tag)).value;
            && a.dress.style == d.dress.style
            && var url := if tag.href.None? then None else d.rest.resolve(tag.href.value);
               if url.Some? && |d.dress.links| < MAX_LINKS
                  && d.dress.linkUrlBytes + d.rest.ownedBytes(url.value) <= MAX_LINK_URL_BYTES
               then a.dress.link == Some(|d.dress.links|) && a.dress.links == d.dress.links + [url.value]
               else a.dress.link == d.dress.link && a.dress.links == d.dress.links
  {
    StartsContent(d, tag);
    LinkIsStarted(d, tag.href);
  }

  lemma LinkIsStarted(d: Draft, href: Option<Text>)
    requires LinkStarted(d, href).Success?
    ensures var a := LinkStarted(d, href).value;
            && a.dress.style == d.dress.style
            && var url := if href.None? then None else d.rest.resolve(href.value);
               if url.Some? && |d.dress.links| < MAX_LINKS
                  && d.dress.linkUrlBytes + d.rest.ownedBytes(url.value) <= MAX_LINK_URL_BYTES
               then a.dress.link == Some(|d.dress.links|) && a.dress.links == d.dress.links + [url.value]
               else a.dress.link == d.dress.link && a.dress.links == d.dress.links
  {
    var target := Target(d.rest.resolve, d.rest.ownedBytes, |d.dress.links|, d.dress.linkUrlBytes, href);
    if target.None? {
      NoLinkIsOpened(d);
    } else {
      LinkIsOpened(LinkAdded(d, target.value), |d.dress.links|);
    }
  }

  lemma NoLinkIsOpened(d: Draft)
    requires InlineOpened(d, AnchorTag, PLAIN, false).Success?
    ensures var a := InlineOpened(d, AnchorTag, PLAIN, false).value;
            a.dress.style == d.dress.style && a.dress.link == d.dress.link && a.dress.links == d.dress.links
  {
  }

  lemma LinkIsOpened(d: Draft, index: nat)
    requires LinkOpened(d, index).Success?
    ensures var a := LinkOpened(d, index).value;
            a.dress.style == d.dress.style && a.dress.link == Some(index) && a.dress.links == d.dress.links
  {
    var e := InlineOpened(d, AnchorTag, PLAIN, true).value;
    assert e.dress.style == d.dress.style && e.dress.links == d.dress.links;
    StyledLinks(Spoiling(e), d.dress.style, Some(index));
  }

  lemma StyledLinks(d: Draft, style: Style, link: Option<nat>)
    requires Styled(d, style, link).Success?
    ensures var a := Styled(d, style, link).value;
            a.dress.style == style && a.dress.link == link && a.dress.links == d.dress.links
  {
  }

  // --- forms and controls -------------------------------------------------------------

  /** Outside cells a form starts at the next control, unless one is open; it goes to where its action resolves. */
  lemma FormTagOpens(d: Draft, tag: Tag)
    requires Free(d) && Happened(d, StartTag(tag)).Success? && tag.name.FormTag? && !CellOpen(d.grids)
    ensures var a := Happened(d, StartTag(tag)).value;
            if d.fields.form.Some? then a == d
            else
              var url := d.rest.resolve(if tag.action.Some? then tag.action.value else []);
              && url.Some? && a.fields.forms == d.fields.forms + [Form(url.value, |d.fields.controls|, 0)]
              && a.fields.form == Some(|d.fields.forms|)
  {
    StartsControl(d, tag);
  }

  /** What a tag asks for, in a control's own words. */
  predicate Describes(tag: Tag, c: FormControl) {
    && c.name == (if tag.nameAttribute.Some? then tag.nameAttribute.value else [])
    && c.elementId == (if tag.id.Some? then tag.id.value else []) && c.disabled == tag.disabled
    && c.displayLabel == [] && !c.valueOverflow && c.optionCount == 0
    && c.multiple == (tag.name.SelectTag? && tag.multiple)
    && c.kind == (match tag.name
                  case SelectTag => Select
                  case TextareaTag => Textarea
                  case ButtonTag =>
                    if tag.typeAttribute.None? || tag.typeAttribute == Some(TypeSubmit) then Submit else Unsupported
                  case _ =>
                    if tag.typeAttribute == Some(TypeHidden) then Hidden
                    else if tag.typeAttribute == Some(TypeSubmit) then Submit
                    else if tag.typeAttribute == Some(TypeCheckbox) then Checkbox
                    else if tag.typeAttribute == Some(TypeRadio) then Radio
                    else TextBox)
    && c.checked == (tag.checked && (c.kind == Checkbox || c.kind == Radio))
    && c.initialValue == if (tag.name.InputTag? || tag.name.ButtonTag?) && tag.value.Some? then tag.value.value
                         else if c.kind == Checkbox || c.kind == Radio then ON else []
  }

  /** The tag of a control adds the control it describes, of the open form, at this place in the text; of the
      others none changes but for what it has checked. */
  lemma ControlTagAdds(d: Draft, tag: Tag)
    requires Free(d) && Happened(d, StartTag(tag)).Success?
    requires tag.name.InputTag? || tag.name.ButtonTag? || tag.name.SelectTag?
             || (tag.name.TextareaTag? && d.fields.textarea.None?)
    ensures var a, n := Happened(d, StartTag(tag)).value, |d.fields.controls|;
            && |a.fields.controls| == n + 1 && Describes(tag, a.fields.controls[n])
            && a.fields.controls[n].form == d.fields.form && a.fields.controls[n].firstOption == |d.fields.options|
            && a.fields.controls[n].textOffset == |a.copy.text|
            && forall i :: 0 <= i < n ==>
                 a.fields.controls[i] == d.fields.controls[i].(checked := a.fields.controls[i].checked)
  {
    StartsControl(d, tag);
    ControlIsStarted(d, tag);
  }

  lemma ControlIsStarted(d: Draft, tag: Tag)
    requires ControlStarted(d, tag).Success?
    requires tag.name.InputTag? || tag.name.ButtonTag? || tag.name.SelectTag?
             || (tag.name.TextareaTag? && d.fields.textarea.None?)
    ensures var a, n := ControlStarted(d, tag).value, |d.fields.controls|;
            && |a.fields.controls| == n + 1 && Describes(tag, a.fields.controls[n])
            && a.fields.controls[n].form == d.fields.form && a.fields.controls[n].firstOption == |d.fields.options|
            && a.fields.controls[n].textOffset == |a.copy.text|
            && forall i :: 0 <= i < n ==>
                 a.fields.controls[i] == d.fields.controls[i].(checked := a.fields.controls[i].checked)
  {
    var f := d.fields;
    if tag.name.InputTag? {
      ControlIsAdded(d,
                     NewControl(f.form, |f.options|, InputKind(tag.typeAttribute), false, tag, tag.value, tag.checked),
                     tag.checked);
    } else if tag.name.ButtonTag? {
      ControlIsAdded(d, NewControl(f.form, |f.options|, ButtonKind(tag.typeAttribute), false, tag, tag.value, false),
                     false);
    } else if tag.name.SelectTag? {
      ControlIsAdded(d, NewControl(f.form, |f.options|, Select, tag.multiple, tag, None, false), false);
    } else {
      ControlIsAdded(d, NewControl(f.form, |f.options|, Textarea, false, tag, None, false), false);
    }
  }

  lemma ControlIsAdded(d: Draft, newer: FormControl, wanted: bool)
    requires ControlAdded(d, newer, wanted).Success?
    ensures var a, n := ControlAdded(d, newer, wanted).value, |d.fields.controls|;
            && |a.fields.controls| == n + 1 && a.fields.controls[n] == newer.(textOffset := |a.copy.text|)
            && forall i :: 0 <= i < n ==>
                 a.fields.controls[i] == d.fields.controls[i].(checked := a.fields.controls[i].checked)
  {
    PlacedKeepsControls(d, newer.kind);
    var e := Placed(d, newer.kind).value;
    var seated := newer.(textOffset := |e.copy.text|);
    var joined := e.(fields := Joining(e.fields, seated, wanted));
    if newer.kind == Textarea && e.grids.table.None? {
      BlockEndedTurns(joined);
    }
    forall i | 0 <= i < |d.fields.controls|
      ensures joined.fields.controls[i] == d.fields.controls[i].(checked := joined.fields.controls[i].checked)
    {
      YieldedAt(e.fields.controls, seated, i);
    }
  }

  lemma PlacedKeepsControls(d: Draft, kind: ControlKind)
    requires Placed(d, kind).Success?
    ensures Placed(d, kind).value.fields == d.fields
  {
    if kind == Textarea && d.grids.table.None? {
      BlockEndKeepsFields(d);
    }
  }

  /** A select opens with its control, and no option or group in it. */
  lemma SelectTagOpens(d: Draft, tag: Tag)
    requires Free(d) && Happened(d, StartTag(tag)).Success? && tag.name.SelectTag?
    ensures Happened(d, StartTag(tag)).value.fields.select == Some(SelectBuild(|d.fields.controls|, false, None))
  {
    StartsControl(d, tag);
    var f := d.fields;
    var newer := NewControl(f.form, |f.options|, Select, tag.multiple, tag, None, false);
    PlacedKeepsControls(d, newer.kind);
    ControlIsAdded(d, newer, false);
  }

  /** `<option>`, a text and `</option>` in a select: the option shows its words, and its value is the one named or
      else what it shows. */
  lemma OptionElementShows(d: Draft, tag: Tag, characters: string)
    requires d.fields.select.Some? && d.fields.button.None? && tag.name.OptionTag?
    requires var a := Happened(d, StartTag(tag));
             a.Success? && var b := Happened(a.value, Characters(characters));
             b.Success? && Happened(b.value, EndTag(OptionTag)).Success?
    ensures var c := Happened(Happened(Happened(d, StartTag(tag)).value, Characters(characters)).value,
                              EndTag(OptionTag)).value;
            && |c.fields.options| == |d.fields.options| + 1
            && var caption := Join(Words(characters, IsWhitespace));
               c.fields.options[|d.fields.options|]
               == SelectOption(d.fields.select.value.control, caption,
                               if tag.value.Some? then tag.value.value else caption,
                               tag.selected, tag.disabled || d.fields.select.value.groupDisabled)
  {
    OptionOpens(d, tag);
    var a := Happened(d, StartTag(tag)).value;
    CaptionIsItsWords(characters);
    var b := Happened(a, Characters(characters)).value;
    OptionFills(a, characters);
    OptionCloses(b);
  }

  lemma OptionOpens(d: Draft, tag: Tag)
    requires d.fields.select.Some? && d.fields.button.None? && tag.name.OptionTag?
             && Happened(d, StartTag(tag)).Success?
    ensures var f, g := d.fields, Happened(d, StartTag(tag)).value.fields;
            && g.button.None? && g.select.Some? && |g.options| == |f.options| + 1
            && g.select.value.option == Some(OptionBuild(|f.options|, [], false, tag.value.Some?))
            && g.options[|f.options|]
               == SelectOption(f.select.value.control, [], if tag.value.Some? then tag.value.value else [],
                               tag.selected, tag.disabled || f.select.value.groupDisabled)
  {
    OptionIsBegun(d, tag);
    OptionIsAdded(d.(fields := OptionEnded(d.fields)), tag.value, tag.selected, tag.disabled);
  }

  lemma OptionIsBegun(d: Draft, tag: Tag)
    requires d.fields.select.Some? && d.fields.button.None? && tag.name.OptionTag?
    ensures Happened(d, StartTag(tag))
              == OptionAdded(d.(fields := OptionEnded(d.fields)), tag.value, tag.selected, tag.disabled)
    ensures |OptionEnded(d.fields).options| == |d.fields.options| && OptionEnded(d.fields).select.Some?
    ensures OptionEnded(d.fields).select.value == d.fields.select.value.(option := None)
            && OptionEnded(d.fields).button.None?
  {
  }

  lemma OptionIsAdded(d: Draft, value: Option<Text>, selected: bool, disabled: bool)
    requires d.fields.select.Some? && OptionAdded(d, value, selected, disabled).Success?
    ensures var f, g := d.fields, OptionAdded(d, value, selected, disabled).value.fields;
            && g.button == f.button && g.select.Some? && |g.options| == |f.options| + 1
            && g.select.value.option == Some(OptionBuild(|f.options|, [], false, value.Some?))
            && g.options[|f.options|]
               == SelectOption(f.select.value.control, [], if value.Some? then value.value else [], selected,
                               disabled || f.select.value.groupDisabled)
  {
  }

  lemma OptionFills(d: Draft, characters: string)
    requires d.fields.select.Some? && d.fields.select.value.option.Some? && Happened(d, Characters(characters)).Success?
    requires d.fields.select.value.option.value.text == [] && !d.fields.select.value.option.value.pendingSpace
    ensures var f, g := d.fields, Happened(d, Characters(characters)).value.fields;
            && g == f.(select := g.select) && g.select.Some? && g.select.value.option.Some?
            && var o := g.select.value.option.value;
               o.index == f.select.value.option.value.index && o.hasValue == f.select.value.option.value.hasValue
               && o.text == Join(Words(characters, IsWhitespace))
  {
    CaptionIsItsWords(characters);
  }

  lemma OptionCloses(d: Draft)
    requires d.fields.select.Some? && d.fields.button.None? && d.fields.select.value.option.Some?
    requires d.fields.select.value.option.value.index < |d.fields.options|
    ensures var a, o := Happened(d, EndTag(OptionTag)), d.fields.select.value.option.value;
            && a.Success?
            && a.value.fields.options
               == d.fields.options[o.index := d.fields.options[o.index].(caption := o.text,
                                   value := if o.hasValue then d.fields.options[o.index].value else o.text)]
  {
  }

  /** Groups disable the options in them. */
  lemma OptionGroupTagDisables(d: Draft, tag: Tag)
    requires d.fields.select.Some? && d.fields.button.None? && tag.name.OptionGroupTag?
    requires Happened(d, StartTag(tag)).Success?
    ensures var a := Happened(d, StartTag(tag)).value;
            a.fields.select.Some? && a.fields.select.value.groupDisabled == tag.disabled
    ensures var b := Happened(d, EndTag(OptionGroupTag));
            b.Success? && b.value.fields.select.Some? && !b.value.fields.select.value.groupDisabled
  {
  }

  /** `<button>`, a text and `</button>`: the button shows its words. */
  lemma ButtonElementShows(d: Draft, tag: Tag, characters: string)
    requires Free(d) && d.fields.textarea.None? && tag.name.ButtonTag?
    requires var a := Happened(d, StartTag(tag));
             a.Success? && var b := Happened(a.value, Characters(characters));
             b.Success? && Happened(b.value, EndTag(ButtonTag)).Success?
    ensures var a := Happened(d, StartTag(tag)).value;
            var b := Happened(a, Characters(characters)).value;
            var c, n := Happened(b, EndTag(ButtonTag)).value, |d.fields.controls|;
            && b.copy == a.copy && c.copy == a.copy && |c.fields.controls| == |a.fields.controls| == n + 1
            && c.fields.controls[n] == a.fields.controls[n].(displayLabel := Join(Words(characters, IsWhitespace)))
  {
    ControlTagAdds(d, tag);
    CaptionIsItsWords(characters);
    ButtonOpens(d, tag);
  }

  lemma ButtonOpens(d: Draft, tag: Tag)
    requires Free(d) && d.fields.textarea.None? && tag.name.ButtonTag? && Happened(d, StartTag(tag)).Success?
    ensures var a := Happened(d, StartTag(tag)).value;
            && a.fields.button == Some(ButtonBuild(|d.fields.controls|, [], false, 0))
            && a.fields.select.None? && a.fields.textarea.None?
  {
    StartsControl(d, tag);
    var f := d.fields;
    var newer := NewControl(f.form, |f.options|, ButtonKind(tag.typeAttribute), false, tag, tag.value, false);
    PlacedKeepsControls(d, newer.kind);
    ControlIsAdded(d, newer, false);
  }

  /** `<textarea>`, a text and `</textarea>`: the control holds the text with LF line ends, or the beginning that
      fits. */
  lemma TextareaElementHolds(d: Draft, tag: Tag, characters: string)
    requires Free(d) && d.fields.textarea.None? && tag.name.TextareaTag? && Happened(d, StartTag(tag)).Success?
    ensures var a := Happened(d, StartTag(tag)).value;
            && Happened(a, Characters(characters)).Success?
            && var b := Happened(a, Characters(characters)).value;
            && Happened(b, EndTag(TextareaTag)).Success?
            && var c, n := Happened(b, EndTag(TextareaTag)).value, |d.fields.controls|;
            && b.copy == a.copy && c.copy == a.copy && |c.fields.controls| == |a.fields.controls| == n + 1
            && var held, all := c.fields.controls[n].initialValue, Encode(TextareaText(characters));
            && held <= all && (c.fields.controls[n].valueOverflow <==> |all| > MAX_INPUT_VALUE_BYTES)
            && (!c.fields.controls[n].valueOverflow ==> held == all)
  {
    TextareaOpens(d, tag);
    var a := Happened(d, StartTag(tag)).value;
    TextareaKeeps(|d.fields.controls|, characters);
    var b := Happened(a, Characters(characters)).value;
    TextareaCloses(b);
  }

  lemma TextareaOpens(d: Draft, tag: Tag)
    requires Free(d) && d.fields.textarea.None? && tag.name.TextareaTag? && Happened(d, StartTag(tag)).Success?
    ensures var a := Happened(d, StartTag(tag)).value;
            && a.fields.textarea == Some(TextareaBuild(|d.fields.controls|, [], true, false, false))
            && Free(a) && |a.fields.controls| == |d.fields.controls| + 1
            && !a.fields.controls[|d.fields.controls|].valueOverflow
  {
    ControlTagAdds(d, tag);
    StartsControl(d, tag);
    var f := d.fields;
    var newer := NewControl(f.form, |f.options|, Textarea, false, tag, None, false);
    PlacedKeepsControls(d, newer.kind);
    var e := Placed(d, newer.kind).value;
    SeatedKeepsOpen(e, newer.(textOffset := |e.copy.text|), false);
  }

  lemma SeatedKeepsOpen(d: Draft, newer: FormControl, wanted: bool)
    requires Seated(d, newer, wanted).Success?
    ensures var f := Seated(d, newer, wanted).value.fields;
            f.select == d.fields.select && f.button == d.fields.button && |f.controls| == |d.fields.controls| + 1
  {
    if newer.kind == Textarea && d.grids.table.None? {
      BlockEndKeepsFields(d.(fields := Joining(d.fields, newer, wanted)));
    }
  }

  lemma TextareaCloses(d: Draft)
    requires Free(d) && d.fields.textarea.Some? && d.fields.textarea.value.control < |d.fields.controls|
    ensures var a, t := Happened(d, EndTag(TextareaTag)), d.fields.textarea.value;
            && a.Success? && a.value == d.(fields := a.value.fields)
            && a.value.fields.controls
               == d.fields.controls[t.control := d.fields.controls[t.control].(initialValue := t.text,
                                                                               valueOverflow := t.overflow)]
  {
  }

  /** A textarea outside tables is a block of its own; any other control stands between two runs of the open
      block, behind the space that is owed. */
  lemma ControlTagPlaces(d: Draft, tag: Tag)
    requires Free(d) && Happened(d, StartTag(tag)).Success? && InBody(d)
    requires tag.name.InputTag? || tag.name.ButtonTag? || tag.name.SelectTag?
             || (tag.name.TextareaTag? && d.grids.table.None?)
    ensures var a, n := Happened(d, StartTag(tag)).value, |d.fields.controls|;
            && !a.copy.runOpen
            && if tag.name.TextareaTag? then
                 && a.setting.blocks == BlocksEnded(d) + [Block(Control(n), |RunsEnded(d)|, 0, n, 1)]
                 && a.setting.openKind.None? && a.copy.text == d.copy.text
               else
                 && a.setting.blocks == d.setting.blocks && !a.setting.pendingSpace
                 && a.setting.openKind == Some(if d.setting.openKind.Some? then d.setting.openKind.value else Paragraph)
                 && a.copy.text
                     == d.copy.text + (if d.setting.pendingSpace && !d.setting.atBlockStart then [SPACE] else [])
  {
    StartsControl(d, tag);
    var f := d.fields;
    if tag.name.TextareaTag? {
      TextareaIsPlaced(d, NewControl(f.form, |f.options|, Textarea, false, tag, None, false), false);
    } else {
      PartedSays(d);
    }
  }

  lemma PartedSays(d: Draft)
    requires Parted(d).Success? && InBody(d)
    ensures var a := Parted(d).value;
            && !a.copy.runOpen && a.setting.blocks == d.setting.blocks && !a.setting.pendingSpace
            && a.setting.openKind == Some(if d.setting.openKind.Some? then d.setting.openKind.value else Paragraph)
            && a.copy.text == d.copy.text + (if d.setting.pendingSpace && !d.setting.atBlockStart then [SPACE] else [])
  {
  }

  lemma TextareaIsPlaced(d: Draft, newer: FormControl, wanted: bool)
    requires newer.kind == Textarea && d.grids.table.None? && ControlAdded(d, newer, wanted).Success?
    ensures var a, n := ControlAdded(d, newer, wanted).value, |d.fields.controls|;
            && a.setting.blocks == BlocksEnded(d) + [Block(Control(n), |RunsEnded(d)|, 0, n, 1)] && !a.copy.runOpen
            && a.setting.openKind.None? && a.copy.text == d.copy.text
  {
    BlockBegunTurns(d, Control(|d.fields.controls|));
    var e := BlockBegun(d, Control(|d.fields.controls|)).value;
    BlockEndedTurns(e.(fields := Joining(e.fields, newer.(textOffset := |e.copy.text|), wanted)));
  }

  /** The end of a form ends what is open, and the button. */
  lemma FormEndTagCloses(d: Draft)
    requires Free(d) && Happened(d, EndTag(FormTag)).Success? && !CellOpen(d.grids)
    ensures var a := Happened(d, EndTag(FormTag)).value;
            a.fields == d.fields.(form := None) && Turns(d, a, None)
  {
    var was := FormEnded(d);
    assert EndedOutside(d, FormTag) == was;
    var e := d.(fields := d.fields.(form := None));
    BlockEndedTurns(e);
    BlockEndKeepsFields(e);
  }

  /** Nothing but the text of its option is taken in a select, and nothing but its own text in a button. */
  lemma StrayTextGoesNowhere(d: Draft, characters: string)
    requires (d.fields.select.Some? && d.fields.select.value.option.None?)
             || (d.fields.select.None? && d.fields.textarea.None?
                 && d.fields.button.Some? && d.fields.button.value.suppressedControls != 0)
    ensures Happened(d, Characters(characters)) == Success(d)
  {
  }

  lemma ButtonTakesTags(d: Draft, tag: Tag)
    requires d.fields.button.Some?
    ensures var a := Happened(d, StartTag(tag));
            && a.Success? && a.value == d.(fields := d.fields.(button := a.value.fields.button))
            && a.value.fields.button.Some?
            && a.value.fields.button.value
               == d.fields.button.value.(suppressedControls := a.value.fields.button.value.suppressedControls)
  {
  }

  // --- images -------------------------------------------------------------------------

  /** Outside tables an image has a block of its own; and a space is owed behind it. */
  lemma ImageHasItsBlock(d: Draft, tag: Tag)
    requires tag.name.ImageTag? && Happened(d, StartTag(tag)).Success? && InBody(d) && d.grids.table.None?
    ensures var a, runs := Happened(d, StartTag(tag)).value, |RunsEnded(d)|;
            && a.setting.blocks == BlocksEnded(d) + [Block(Paragraph, runs, 1, |d.fields.controls|, 0)]
            && a.copy.runs == RunsEnded(d) + [Run(|d.copy.text|, |a.copy.text|, d.dress.style, d.dress.link)]
            && a.setting.openKind.None? && a.setting.pendingSpace
  {
    ImageIsAdded(d, tag);
    SeparatedIsBegun(d);
    ImageFillsItsBlock(BlockBegun(d, Paragraph).value, Shown(tag.alt));
  }

  lemma SeparatedIsBegun(d: Draft)
    requires d.grids.table.None? && InBody(d) && Separated(d).Success?
    ensures Separated(d) == BlockBegun(d, Paragraph)
            && var e := Separated(d).value; Turns(d, e, Some(Paragraph)) && InBody(e)
  {
    assert BlockBegun(d, Paragraph).Success?;
    BlockBegunTurns(d, Paragraph);
  }

  lemma ImageFillsItsBlock(d: Draft, shown: string)
    requires ImageFinished(d, shown).Success? && InBody(d) && d.grids.table.None? && !d.copy.runOpen
    requires d.setting.openKind.Some? && !d.setting.pendingSpace && d.setting.openFirstRun == |d.copy.runs|
             && d.setting.openFirstControl == |d.fields.controls|
    ensures var a := ImageFinished(d, shown).value;
            && a.copy.runs == d.copy.runs + [Run(|d.copy.text|, |a.copy.text|, d.dress.style, d.dress.link)]
            && a.setting.blocks
               == d.setting.blocks + [Block(d.setting.openKind.value, |d.copy.runs|, 1, |d.fields.controls|, 0)]
            && a.setting.openKind.None? && a.setting.pendingSpace
  {
    ImageDrawnRuns(d, shown);
    BlockEndedTurns(ImageDrawn(d, shown).value);
  }

  lemma ImageDrawnRuns(d: Draft, shown: string)
    requires ImageDrawn(d, shown).Success? && InBody(d) && !d.copy.runOpen && d.setting.openKind.Some?
             && !d.setting.pendingSpace
    ensures var a := ImageDrawn(d, shown).value;
            && a.copy.runs == d.copy.runs + [Run(|d.copy.text|, |a.copy.text|, d.dress.style, d.dress.link)]
            && !a.copy.runOpen
            && |d.copy.text| < |a.copy.text| && a.setting.blocks == d.setting.blocks
            && a.setting.openKind == d.setting.openKind
            && a.setting.openFirstRun == d.setting.openFirstRun
            && a.setting.openFirstControl == d.setting.openFirstControl
            && a.fields == d.fields && a.grids == d.grids
  {
    var listed := if |d.rest.images| < MAX_IMAGES then ImageListed(d) else d;
    WroteInBlock(listed, Flow(d.copy.text + [0x5B], false, false));
    var open := Lettered(listed, '[').value;
    PourKeepsStart(Flowing(open), d.setting.preformatted, shown);
    StillInBlock(open, Pour(Flowing(open), d.setting.preformatted, shown));
    var e := Texted(open, shown).value;
    StillInBlock(e, Flow(e.copy.text + [0x5D], e.setting.pendingSpace, false));
    RunIsEnded(Lettered(e, ']').value);
  }

  /** The open run of the open block took the text, and nothing else changed. */
  ghost predicate InBlock(d: Draft, a: Draft, start: nat) {
    && InBody(a) && a.copy.runOpen && a.copy.runStart == start && d.copy.text <= a.copy.text && start < |a.copy.text|
    && a.copy.runs == d.copy.runs && a.setting.blocks == d.setting.blocks && a.setting.openKind == d.setting.openKind
    && a.setting.openFirstRun == d.setting.openFirstRun && a.setting.openFirstControl == d.setting.openFirstControl
    && a.setting.preformatted == d.setting.preformatted && a.fields == d.fields && a.grids == d.grids
    && a.dress == d.dress
  }

  lemma WroteInBlock(d: Draft, f: Flow)
    requires Wrote(d, f).Success? && InBody(d) && d.setting.openKind.Some? && !d.copy.runOpen
    requires d.copy.text <= f.out && |d.copy.text| < |f.out|
    ensures InBlock(d, Wrote(d, f).value, |d.copy.text|) && Flowing(Wrote(d, f).value) == f
  {
  }

  lemma StillInBlock(d: Draft, f: Flow)
    requires Wrote(d, f).Success? && InBody(d) && d.setting.openKind.Some? && d.copy.runOpen
             && d.copy.runStart < |d.copy.text|
    requires d.copy.text <= f.out
    ensures InBlock(d, Wrote(d, f).value, d.copy.runStart) && Flowing(Wrote(d, f).value) == f
  {
    if |f.out| == |d.copy.text| {
      assert f.out == d.copy.text;
    }
  }

  lemma RunIsEnded(d: Draft)
    requires RunEnded(d).Success? && d.copy.runOpen && d.copy.runStart < |d.copy.text|
    ensures var a := RunEnded(d).value;
            && a.copy.runs == d.copy.runs + [Run(d.copy.runStart, |d.copy.text|, d.dress.style, d.dress.link)]
            && a == d.(copy := a.copy) && !a.copy.runOpen && a.copy.text == d.copy.text
  {
  }

  // --- labels -------------------------------------------------------------------------

  /** A label begins behind the text that was there, a space that was owed included. */
  lemma LabelTagStarts(d: Draft, tag: Tag)
    requires Free(d) && Happened(d, StartTag(tag)).Success? && tag.name.LabelTag? && d.rest.labelOpen.None?
    requires tag.labelFor.Some? && tag.labelFor.value != []
    ensures var a := Happened(d, StartTag(tag)).value;
            && a.rest.labelOpen == Some(LabelBuild(tag.labelFor.value, |a.copy.text|)) && a.rest.labels == d.rest.labels
            && !a.copy.runOpen && !a.setting.pendingSpace
  {
    StartsControl(d, tag);
    LabelIsBegun(d, tag.labelFor);
  }

  lemma LabelIsBegun(d: Draft, target: Option<Text>)
    requires LabelBegun(d, target).Success? && d.rest.labelOpen.None? && target.Some? && target.value != []
    ensures var a := LabelBegun(d, target).value;
            && a.rest.labelOpen == Some(LabelBuild(target.value, |a.copy.text|)) && a.rest.labels == d.rest.labels
            && !a.copy.runOpen && !a.setting.pendingSpace
  {
  }

  /** And ends behind the text that is there now. */
  lemma LabelEndTagEnds(d: Draft)
    requires Free(d) && Happened(d, EndTag(LabelTag)).Success? && d.rest.labelOpen.Some?
    ensures var a, build := Happened(d, EndTag(LabelTag)).value, d.rest.labelOpen.value;
            && a.rest.labels == d.rest.labels + [Label(build.textStart, |a.copy.text|, build.targetId)]
            && a.rest.labelOpen.None? && !a.copy.runOpen && !a.setting.pendingSpace
  {
    var was := LabelEnded(d);
    assert EndedOutside(d, LabelTag) == was;
    LabelIsEnded(d);
  }

  lemma LabelIsEnded(d: Draft)
    requires LabelEnded(d).Success? && d.rest.labelOpen.Some?
    ensures var a, build := LabelEnded(d).value, d.rest.labelOpen.value;
            && a.rest.labels == d.rest.labels + [Label(build.textStart, |a.copy.text|, build.targetId)]
            && a.rest.labelOpen.None? && !a.copy.runOpen && !a.setting.pendingSpace
  {
  }

  // --- tables -------------------------------------------------------------------------

  /** A table ends the block before it, and starts behind all cells and rows there are. */
  lemma TableTagOpens(d: Draft, tag: Tag)
    requires Free(d) && Happened(d, StartTag(tag)).Success? && tag.name.TableTag? && d.grids.table.None?
    ensures var a := Happened(d, StartTag(tag)).value;
            && a.grids.tables == d.grids.tables + [Table(|d.grids.tableCells|, 0, |d.grids.tableRows|, 0, 0)]
            && a.grids.table.Some?
            && var t := a.grids.table.value;
            && t.index == |d.grids.tables| && t.firstCell == |d.grids.tableCells| && t.firstRow == |d.grids.tableRows|
            && t.row.None? && t.openCell.None? && t.group == Body && t.nested == 0 && t.columns == 0
            && (forall c :: 0 <= c < MAX_TABLE_COLUMNS ==> t.occupied[c] == 0)
            && Turns(d, a.(grids := d.grids), None)
  {
    BlockEndedTurns(d);
    var was := TableBegun(d);
    assert StartedOutside(d, tag) == was;
  }

  /** The open table takes its own tags, and no cell is open. */
  ghost predicate BetweenCells(d: Draft) {
    TakesParts(d) && d.grids.table.value.openCell.None?
  }

  /** Groups are of the head, the body or the foot, and so are the rows in them, numbered through the table. */
  lemma GroupTagGroups(d: Draft, tag: Tag)
    requires BetweenCells(d) && tag.name.GroupTag?
    ensures var a := Happened(d, StartTag(tag));
            a.Success? && a.value == d.(grids := d.grids.(table := Some(d.grids.table.value.(group := tag.name.group))))
  {
    StartsInTable(d, tag);
  }

  lemma RowTagNumbers(d: Draft, tag: Tag)
    requires BetweenCells(d) && tag.name.RowTag? && Happened(d, StartTag(tag)).Success?
    ensures var a, t := Happened(d, StartTag(tag)).value, d.grids.table.value;
            var number := if t.row.None? then 0 else t.row.value + 1;
            && a.grids.tableRows == d.grids.tableRows + [TableRow(t.index, number, t.group)]
            && a.grids.table.Some? && a.grids.table.value.row == Some(number)
            && a.grids.tableCells == d.grids.tableCells
            && forall c :: 0 <= c < MAX_TABLE_COLUMNS ==>
                 a.grids.table.value.occupied[c] == if t.occupied[c] == 0 then 0 else t.occupied[c] - 1
  {
    StartsInTable(d, tag);
  }

  /** How far a cell spans: as it says, but for at least one square and at most 32. */
  function SpanOf(said: Option<nat>): nat {
    if said.None? then 1 else Max(1, Min(said.value, 32))
  }

  /** A cell of an open row begins where its span fits first, and its text where the text ends. */
  lemma CellTagOpens(d: Draft, tag: Tag)
    requires BetweenCells(d) && tag.name.CellTag? && d.grids.table.value.row.Some?
             && Happened(d, StartTag(tag)).Success?
    ensures var a, t := Happened(d, StartTag(tag)).value, d.grids.table.value;
            && a.copy == d.copy && a.setting.openKind == Some(Paragraph) && a.setting.openFirstRun == |d.copy.runs|
            && CellOpen(a.grids)
            && var c := a.grids.table.value.openCell.value;
            && c.header == tag.name.header && c.textStart == |d.copy.text| && c.firstImage == |d.rest.images|
            && c.firstControl == |d.fields.controls|
            && c.square.row == t.row.value && c.square.rowspan == SpanOf(tag.rowspan)
            && Fits(t.occupied, c.square.column, SpanOf(tag.colspan))
            && c.square.colspan == Min(SpanOf(tag.colspan), MAX_TABLE_COLUMNS - c.square.column)
            && (forall k :: 0 <= k < c.square.column ==> !Fits(t.occupied, k, SpanOf(tag.colspan)))
            && a.grids.table.value.columns == Max(t.columns, c.square.column + c.square.colspan)
            && forall k :: 0 <= k < MAX_TABLE_COLUMNS ==>
                 a.grids.table.value.occupied[k]
                 == if c.square.column <= k < c.square.column + c.square.colspan then SpanOf(tag.rowspan)
                    else t.occupied[k]
  {
    StartsInTable(d, tag);
  }

  /** A cell ends with what came since it began: its text, its images, its controls, and a block of its runs. */
  lemma CellEndTagFiles(d: Draft, header: bool)
    requires TakesParts(d) && CellOpen(d.grids) && Happened(d, EndTag(CellTag(header))).Success?
    ensures var a, t := Happened(d, EndTag(CellTag(header))).value, d.grids.table.value;
            var c := t.openCell.value;
            && a.copy.text == d.copy.text && a.copy.runs == RunsEnded(d) && a.setting.openKind.None?
            && a.grids.tableCells == d.grids.tableCells + [
                 TableCell(t.index, |d.setting.blocks|, c.textStart, |d.copy.text|,
                           c.firstImage, Max(|d.rest.images| - c.firstImage, 0),
                           c.firstControl, Max(|d.fields.controls| - c.firstControl, 0), c.square, c.header)]
            && a.setting.blocks == d.setting.blocks + [
                 Block(Paragraph, d.setting.openFirstRun, Max(|RunsEnded(d)| - d.setting.openFirstRun, 0),
                       c.firstControl, Max(|d.fields.controls| - c.firstControl, 0))]
            && a.grids.table == Some(t.(openCell := None))
  {
    EndsInTable(d, CellTag(header));
  }

  /** A table ends with what came since it began. */
  lemma TableEndTagFinishes(d: Draft)
    requires BetweenCells(d) && d.grids.table.value.index < |d.grids.tables|
    ensures var a, t := Happened(d, EndTag(TableTag)), d.grids.table.value;
            && a.Success? && a.value.grids.table.None? && a.value == d.(grids := a.value.grids)
            && a.value.grids.tables == d.grids.tables[t.index :=
                 Table(t.firstCell, Max(|d.grids.tableCells| - t.firstCell, 0), t.firstRow,
                       if t.row.None? then 0 else t.row.value + 1, t.columns)]
  {
    EndsInTable(d, TableTag);
  }

  /** A table in a cell is lines of the cell's text: its rows are, and a table within it, and a bar stands between
      its cells. */
  lemma NestedTagsAreText(d: Draft, tag: Tag)
    requires InBody(d) && CellOpen(d.grids) && Happened(d, StartTag(tag)).Success?
    requires tag.name.TableTag?
             || (d.grids.table.value.nested > 0 && (tag.name.RowTag? || tag.name.CellTag? || tag.name.GroupTag?
                                                    || tag.name.CaptionTag?))
    ensures var a, t := Happened(d, StartTag(tag)).value, d.grids.table.value;
            && a.setting.blocks == d.setting.blocks && CellOpen(a.grids)
            && var u := a.grids.table.value;
            && u == t.(nested := u.nested, nestedCellInRow := u.nestedCellInRow)
            && u.nested == (if tag.name.TableTag? then Min(t.nested + 1, 255) else t.nested)
            && u.nestedCellInRow == (tag.name.CellTag? || (!tag.name.RowTag? && t.nested > 0 && t.nestedCellInRow))
            && (if tag.name.CellTag? then
                  a.copy.text == d.copy.text + if t.nestedCellInRow then BarFor(d) else []
                else if tag.name.TableTag? || tag.name.RowTag? then a.copy.text == d.copy.text + [NEWLINE]
                else a == d)
  {
    StartsInTable(d, tag);
    if tag.name.CellTag? {
      NestedCellIsText(d, tag.name);
    } else if tag.name.RowTag? {
      NestedRowIsText(d);
    } else if tag.name.TableTag? {
      BreakSays(TableNoted(d, d.grids.table.value.group, Deeper(d.grids.table.value.nested),
                           d.grids.table.value.nested > 0 && d.grids.table.value.nestedCellInRow));
    }
  }

  lemma BreakSays(d: Draft)
    requires InBody(d) && Broken(d).Success?
    ensures var a := Broken(d).value;
            a.copy.text == d.copy.text + [NEWLINE] && a.setting.blocks == d.setting.blocks && a.grids == d.grids
  {
  }

  lemma NestedRowIsText(d: Draft)
    requires InBody(d) && CellOpen(d.grids) && d.grids.table.value.nested > 0 && NestedStarted(d, RowTag).Success?
    ensures var a := NestedStarted(d, RowTag).value;
            && a.copy.text == d.copy.text + [NEWLINE] && a.setting.blocks == d.setting.blocks
            && a.grids.table == Some(d.grids.table.value.(nestedCellInRow := false))
  {
    BreakSays(TableNoted(d, d.grids.table.value.group, d.grids.table.value.nested, false));
  }

  lemma NestedCellIsText(d: Draft, name: Name)
    requires InBody(d) && CellOpen(d.grids) && d.grids.table.value.nested > 0 && name.CellTag?
             && NestedStarted(d, name).Success?
    ensures var a, t := NestedStarted(d, name).value, d.grids.table.value;
            && a.copy.text == d.copy.text + (if t.nestedCellInRow then BarFor(d) else [])
            && a.setting.blocks == d.setting.blocks
            && a.grids.table == Some(t.(nestedCellInRow := true))
  {
    var t := d.grids.table.value;
    var noted := TableNoted(d, t.group, t.nested, true);
    if t.nestedCellInRow {
      BarSays(noted);
    }
  }

  lemma BarSays(d: Draft)
    requires InBody(d) && Texted(d, " | ").Success?
    ensures var a := Texted(d, " | ").value;
            a.copy.text == d.copy.text + BarFor(d) && a.setting.blocks == d.setting.blocks && a.grids == d.grids
  {
    var f := Pour(Flowing(d), d.setting.preformatted, " | ");
    BarIsPoured(Flowing(d), d.setting.preformatted);
    WroteSays(d, f);
    WroteLeavesBlocks(d, f);
  }

  lemma WroteLeavesBlocks(d: Draft, f: Flow)
    requires Wrote(d, f).Success?
    ensures Wrote(d, f).value.setting.blocks == d.setting.blocks
  {
  }

  /** A bar between two cells, with a space before it where one is due. */
  ghost function BarFor(d: Draft): Text {
    if d.setting.preformatted then Encode(" | ") else (if d.setting.atBlockStart then [] else [SPACE]) + [0x7C]
  }

  lemma BarIsPoured(f: Flow, pre: bool)
    ensures Pour(f, pre, " | ").out
         == f.out + if pre then Encode(" | ") else (if f.atStart then [] else [SPACE]) + [0x7C]
  {
    if pre {
      PreKeepsText(f, " | ");
      PlainTextIsKept(" | ");
    } else {
      BarIsCollapsed(f);
    }
  }

  lemma BarIsCollapsed(f: Flow)
    ensures Pour(f, false, " | ").out == f.out + ((if f.atStart then [] else [SPACE]) + [0x7C])
  {
    var text := " | ";
    assert text[..2] == " |" && " |"[..1] == " " && " "[..0] == "";
    assert f.out + [SPACE] + [0x7C] == f.out + ([SPACE] + [0x7C]);
  }

  /** And its end is the end of a line. */
  lemma NestedEndTagsAreText(d: Draft, name: Name)
    requires InBody(d) && d.grids.table.Some? && d.grids.table.value.nested > 0 && Happened(d, EndTag(name)).Success?
    requires name.TableTag? || name.RowTag? || name.CellTag? || name.GroupTag? || name.CaptionTag?
    ensures var a, t := Happened(d, EndTag(name)).value, d.grids.table.value;
            if name.TableTag? || name.RowTag? then
              && a.copy.text == d.copy.text + [NEWLINE] && a.setting.blocks == d.setting.blocks
              && a.grids.table == Some(t.(nested := if name.TableTag? then t.nested - 1 else t.nested,
                                          nestedCellInRow := name.RowTag? && t.nestedCellInRow))
              && a.grids.tableCells == d.grids.tableCells && a.grids.tables == d.grids.tables
            else a == d
  {
    EndsInTable(d, name);
  }

  // --- the end of the page ------------------------------------------------------------

  /** The end of the page ends everything: nothing is open any more, a label that was covers the text there is,
      and what a textarea, a button or an option held is kept as its own end tag would. */
  lemma PageEndEndsAll(d: Draft)
    requires PageEnded(d).Success?
    ensures var a := PageEnded(d).value;
            && a.setting.openKind.None? && !a.copy.runOpen && a.grids.table.None? && a.rest.labelOpen.None?
            && a.fields.select.None? && a.fields.textarea.None? && a.fields.button.None?
            && a.fields.form == d.fields.form && a.fields == SelectEnded(TextareaEnded(ButtonEnded(d.fields)))
            && a.rest.labels == d.rest.labels
               + if d.rest.labelOpen.None? then []
                 else [Label(d.rest.labelOpen.value.textStart, |a.copy.text|, d.rest.labelOpen.value.targetId)]
  {
    var e := d.(fields := FieldsEnded(d.fields));
    TextEndKeepsFields(e);
    OpenNothing(d.fields);
    if d.rest.labelOpen.Some? {
      LabelIsEnded(e);
    }
    var m := LabelEnded(e).value;
    TableEndKeepsRest(m);
    BlockEndedTurns(TableEnded(m).value);
  }

  lemma OpenNothing(f: Fields)
    ensures var g := FieldsEnded(f); g.select.None? && g.textarea.None? && g.button.None? && g.form == f.form
  {
  }

  lemma TableEndKeepsRest(d: Draft)
    requires TableEnded(d).Success?
    ensures var a := TableEnded(d).value; a.rest == d.rest && a.grids.table.None? && a.copy.text == d.copy.text
  {
  }
}
