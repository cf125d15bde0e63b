/** The flat document of browser/src/document.rs, and the tag events it is built from. */
module DocumentTypes {
  import opened Wrappers
  import opened Basics

  const MAX_TEXT_BYTES := 0x10_0000
  const MAX_ITEMS := 16384
  const MAX_TABLE_COLUMNS := 32
  const MAX_TABLE_SPAN := 32
  const MAX_LINKS := 4096
  const MAX_LINK_URL_BYTES := 0x20_0000
  const MAX_NESTING_DEPTH := 32
  const MAX_IMAGES := 64
  const MAX_INPUT_VALUE_BYTES := 4096
  const MAX_SELECT_OPTIONS := 4096

  datatype Error = TextTooLong | TooManyItems | BadUrl

  // --- characters -----------------------------------------------------------

  /** Stored text, in UTF-8. */
  type Text = seq<Byte>

  const SPACE: Byte := 0x20
  const NEWLINE: Byte := 0x0A

  predicate IsAsciiWhitespace(c: char) {
    c in {' ', '\t', '\n', '\U{C}', '\r'}
  }

  // --- the document -----------------------------------------------------------

  /** A set of style flags, one bit each in the program. */
  datatype Style = Style(bold: bool, italic: bool, code: bool) {
    function With(other: Style): Style {
      Style(bold || other.bold, italic || other.italic, code || other.code)
    }

    function Without(other: Style): Style {
      Style(bold && !other.bold, italic && !other.italic, code && !other.code)
    }

    predicate Meets(other: Style) {
      (bold && other.bold) || (italic && other.italic) || (code && other.code)
    }
  }

  const PLAIN := Style(false, false, false)
  const STYLE_BOLD := Style(true, false, false)
  const STYLE_ITALIC := Style(false, true, false)
  const STYLE_CODE := Style(false, false, true)

  datatype Marker = Bullet | Number(n: nat)

  datatype BlockKind = Paragraph | Heading(level: nat) | ListItem(depth: nat, marker: Marker) | Preformatted | Rule
      | Control(index: nat)

  /** A stretch of text bytes with one style and at most one link. */
  datatype Run = Run(start: nat, end: nat, style: Style, link: Option<nat>)

  datatype Block = Block(kind: BlockKind, firstRun: nat, runCount: nat, firstControl: nat, controlCount: nat)

  type Url = Text

  datatype Image = Image(textOffset: nat, textEnd: nat, link: Option<nat>)

  datatype RowGroup = Head | Body | Foot

  datatype Table = Table(firstCell: nat, cellCount: nat, firstRow: nat, rowCount: nat, columnCount: nat)

  datatype TableRow = TableRow(table: nat, number: nat, group: RowGroup)

  /** The grid squares of a cell. */
  datatype Square = Square(row: nat, column: nat, rowspan: nat, colspan: nat)

  datatype TableCell = TableCell(
    table: nat, block: nat, textStart: nat, textEnd: nat, firstImage: nat, imageCount: nat,
    firstControl: nat, controlCount: nat, square: Square, header: bool)

  datatype Form = Form(action: Url, firstControl: nat, controlCount: nat)

  datatype ControlKind = TextBox | Hidden | Submit | Checkbox | Radio | Textarea | Select | Unsupported

  /** "on" */
  const ON: Text := [0x6F, 0x6E]

  predicate IsCheckable(kind: ControlKind) {
    kind == Checkbox || kind == Radio
  }

  datatype FormControl = FormControl(
    form: Option<nat>, kind: ControlKind, name: Text, initialValue: Text, displayLabel: Text,
    elementId: Text, disabled: bool, checked: bool, valueOverflow: bool, firstOption: nat, optionCount: nat,
    multiple: bool, textOffset: nat)

  datatype SelectOption = SelectOption(control: nat, caption: Text, value: Text, selected: bool, disabled: bool)

  datatype Label = Label(textStart: nat, textEnd: nat, targetId: Text)

  // --- the builder's own records ----------------------------------------------

  /** An open inline element: the bits it added and the link it covers. */
  datatype InlineFrame = InlineFrame(name: Name, added: Style, previousLink: Option<nat>, setsLink: bool)

  datatype ListLevel = ListLevel(ordered: bool, nextNumber: nat)

  /** One counter for each table column. */
  type Occupied = o: seq<nat> | |o| == MAX_TABLE_COLUMNS witness seq(MAX_TABLE_COLUMNS, _ => 0)

  datatype OpenCell = OpenCell(square: Square, header: bool, textStart: nat, firstImage: nat, firstControl: nat)

  datatype TableBuild = TableBuild(
    index: nat, firstCell: nat, firstRow: nat, row: Option<nat>, group: RowGroup, occupied: Occupied,
    openCell: Option<OpenCell>, columns: nat, nested: nat, nestedCellInRow: bool)

  datatype OptionBuild = OptionBuild(index: nat, text: Text, pendingSpace: bool, hasValue: bool)

  datatype SelectBuild = SelectBuild(control: nat, groupDisabled: bool, option: Option<OptionBuild>)

  datatype TextareaBuild = TextareaBuild(control: nat, text: Text, atStart: bool, afterCr: bool, overflow: bool)

  datatype ButtonBuild = ButtonBuild(control: nat, text: Text, pendingSpace: bool, suppressedControls: nat)

  datatype LabelBuild = LabelBuild(targetId: Text, textStart: nat)

  // --- tags ---------------------------------------------------------------------

  /** Element names, told apart as far as the builder does. Inline elements and plain blocks keep their
      own name; headings their level; lists whether they are ordered. */
  datatype Name =
    | TableTag | CaptionTag | GroupTag(group: RowGroup) | RowTag | CellTag(header: bool)
    | FormTag | InputTag | ButtonTag | TextareaTag | SelectTag | OptionGroupTag | OptionTag | LabelTag
    | TitleTag | BreakTag | RuleTag | ImageTag | PreTag | ListTag(ordered: bool) | ItemTag | AnchorTag
    | HeadingTag(level: nat) | InlineTag(element: InlineElement) | BlockTag(name: string) | OtherTag(name: string)

  datatype InlineElement = Strong | B | Em | I | Code | Kbd | Samp | Tt | Var

  function InlineStyle(element: InlineElement): Style {
    match element
    case Strong => STYLE_BOLD
    case B => STYLE_BOLD
    case Em => STYLE_ITALIC
    case I => STYLE_ITALIC
    case _ => STYLE_CODE
  }

  /** Elements that end the block being filled. */
  predicate IsBlock(name: Name) {
    name.BlockTag? || name.FormTag? || name.TableTag? || name.CaptionTag? || name.GroupTag? || name.RowTag?
        || name.CellTag?
  }

  /** What the `type` attribute selects, compared without case. */
  datatype TypeAttribute = TypeHidden | TypeSubmit | TypeCheckbox | TypeRadio | TypeOther

  /** A start tag, with the attributes the builder acts on. Spans are given as parsed numbers. */
  datatype Tag = Tag(
    name: Name, id: Option<Text>, nameAttribute: Option<Text>, href: Option<Text>, alt: Option<string>,
    action: Option<Text>, value: Option<Text>, labelFor: Option<Text>, typeAttribute: Option<TypeAttribute>,
    rowspan: Option<nat>, colspan: Option<nat>, disabled: bool, checked: bool, selected: bool, multiple: bool)

  datatype Event = Characters(text: string) | StartTag(tag: Tag) | EndTag(name: Name)

  function InputKind(attribute: Option<TypeAttribute>): ControlKind {
    match attribute
    case Some(TypeHidden) => Hidden
    case Some(TypeSubmit) => Submit
    case Some(TypeCheckbox) => Checkbox
    case Some(TypeRadio) => Radio
    case _ => TextBox
  }

  function ButtonKind(attribute: Option<TypeAttribute>): ControlKind {
    if attribute.None? || attribute.value.TypeSubmit? then Submit else Unsupported
  }

  function ParseSpan(value: Option<nat>): (span: nat)
    ensures 1 <= span <= MAX_TABLE_SPAN
  {
    if value.None? || value.value == 0 then 1
    else if value.value < MAX_TABLE_SPAN then value.value else MAX_TABLE_SPAN
  }
}
