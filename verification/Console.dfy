/**
The fixed-size text console of src/console.rs. The cell grid is its state and
the framebuffer is a view of it that is never redrawn when a smaller repaint
will do; `InSync` says that the view is nevertheless what a redraw would show.
*/
module Console {
  import opened Wrappers
  import opened Font
  import opened LineEditor

  type Row = seq<Id>

  /** What one cell of the display shows. */
  datatype Paint = Block | Glyph(id: Id) | Leftover(pattern: nat)

  /** The framebuffer, at the grain of console cells. */
  class Screen {
    const rows: nat
    const columns: nat
    const paint: array2<Paint>

    ghost predicate Valid()
    {
      paint.Length0 == rows && paint.Length1 == columns
    }

    constructor (rows: nat, columns: nat)
      ensures Valid() && this.rows == rows && this.columns == columns && fresh(paint)
    {
      this.rows, this.columns := rows, columns;
      paint := new Paint[rows, columns]((_, _) => Leftover(0));
    }

    method Fill(p: Paint)
      requires Valid()
      modifies paint
      ensures forall r, c :: 0 <= r < rows && 0 <= c < columns ==> paint[r, c] == p
    {
      forall r, c | 0 <= r < rows && 0 <= c < columns {
        paint[r, c] := p;
      }
    }

    /** Slides the whole grid up by `distance` cell rows, or fails having left anything at all. */
    method ScrollUp(distance: nat) returns (moved: bool)
      requires Valid() && 0 < distance < rows
      modifies paint
      ensures moved ==> forall r, c :: 0 <= r < rows && 0 <= c < columns ==>
                paint[r, c] == old(paint[if r + distance < rows then r + distance else r, c])
    {
      moved := *;
      if moved {
        forall r, c | 0 <= r < rows - distance && 0 <= c < columns {
          paint[r, c] := paint[r + distance, c];
        }
      } else {
        var debris: int := *;
        Fill(Leftover(if debris < 0 then 0 else debris));
      }
    }
  }

  function BlankRow(columns: nat): (row: Row)
    ensures |row| == columns && forall c :: 0 <= c < columns ==> row[c] == BLANK
  {
    seq(columns, _ => BLANK)
  }

  /** `ids` in the first cells of a row, blanks after them. */
  function Padded(ids: seq<Id>, columns: nat): (row: Row)
    requires |ids| <= columns
    ensures |row| == columns
  {
    ids + BlankRow(columns - |ids|)
  }

  /** A row holding the prompt and a command line. */
  function LineCell(line: string, c: nat): Id {
    if c < |PROMPT| then IdOf(PROMPT[c])
    else if c - |PROMPT| < |line| then IdOf(line[c - |PROMPT|])
    else BLANK
  }

  function LineRow(line: string, columns: nat): (row: Row)
    ensures |row| == columns
  {
    seq(columns, c requires 0 <= c < columns => LineCell(line, c))
  }

  /** One line of output as rows: full rows, then whatever is left over, even when that is nothing. */
  function Wrap(ids: seq<Id>, columns: nat): (rows: seq<Row>)
    requires columns > 0
    ensures |rows| > 0
    ensures forall r :: 0 <= r < |rows| ==> |rows[r]| == columns
    decreases |ids|
  {
    if |ids| < columns then [Padded(ids, columns)]
    else [ids[..columns]] + Wrap(ids[columns..], columns)
  }

  /** The rows hold the line, character by character, and blanks behind it; a line that fills its last row has
      one more. */
  lemma {:induction false} WrapHoldsTheLine(ids: seq<Id>, columns: nat, r: nat, c: nat)
    requires columns > 0 && r < |Wrap(ids, columns)| && c < columns
    ensures (|Wrap(ids, columns)| - 1) * columns <= |ids| < |Wrap(ids, columns)| * columns
    ensures Wrap(ids, columns)[r][c] == if r * columns + c < |ids| then ids[r * columns + c] else BLANK
    decreases |ids|
  {
    if |ids| >= columns {
      WrapHoldsTheLine(ids[columns..], columns, if r > 0 then r - 1 else 0, c);
      OneRowMore(|Wrap(ids[columns..], columns)|, r, columns);
    }
  }

  lemma OneRowMore(rows: nat, r: nat, columns: nat)
    ensures (rows + 1) * columns == rows * columns + columns && r * columns == (r - 1) * columns + columns
    ensures (rows - 1 + 1) * columns == (rows - 1) * columns + columns
  {
  }

  /** Several lines of output, one after the other. */
  function WrapAll(lines: seq<string>, columns: nat): seq<Row>
    requires columns > 0
  {
    if lines == [] then []
    else WrapAll(lines[..|lines| - 1], columns) + Wrap(Ids(lines[|lines| - 1]), columns)
  }

  /** What the foreground loop may ask of a console. */
  datatype Step = Prompt | Typed(key: Key) | Blink | Output(text: string) | Reported(lines: seq<string>) | Cleared

  /** What a console has been told so far: the rows it left behind, the command line if one is open, whether the
      cursor shows, whether the last character was a carriage return, and the line that waits to be taken. */
  datatype Talk = Talk(history: seq<Row>, typing: Option<Editor>, visible: bool, afterReturn: bool,
                       pending: Option<string>)

  /** The screen row in use: the first free one, or the last one once the rows have run out. */
  function RowInUse(t: Talk, rows: nat): (row: nat)
    requires rows > 0
    ensures row < rows
  {
    if |t.history| < rows then |t.history| else rows - 1
  }

  /** Steps out of turn are passed over: a prompt or output while a line is open, a key or a report while none
      is, and an empty line of output that would leave a cursor behind. */
  predicate InTurn(t: Talk, step: Step, rows: nat)
    requires rows > 0
  {
    match step
    case Prompt => t.typing.None?
    case Typed(_) => t.typing.Some?
    case Output(text) => t.typing.None? && (text != "" || !t.visible || RowInUse(t, rows) == rows - 1)
    case Reported(lines) => t.typing.Some? && ("" !in lines || !t.visible)
    case _ => true
  }

  /** What a step adds to the talk. Reports come and go around the open line. */
  function Told(t: Talk, step: Step, rows: nat, columns: nat): (told: Talk)
    requires rows > 0 && columns > |PROMPT| && (t.typing.Some? ==> t.typing.value.Valid(columns - |PROMPT|))
    ensures told.typing.Some? ==> told.typing.value.Valid(columns - |PROMPT|)
  {
    if !InTurn(t, step, rows) then t
    else
      match step
      case Prompt => t.(typing := Some(EMPTY))
      case Blink => t.(visible := !t.visible)
      case Cleared => Talk([], None, true, false, t.pending)
      case Output(text) => t.(history := t.history + Wrap(Ids(text), columns))
      case Reported(lines) => t.(history := t.history + WrapAll(lines, columns), visible := t.visible || lines != [])
      case Typed(key) => KeyTold(t, key, columns)
  }

  function KeyTold(t: Talk, key: Key, columns: nat): (told: Talk)
    requires columns > |PROMPT| && t.typing.Some? && t.typing.value.Valid(columns - |PROMPT|)
    ensures told.typing.Some? ==> told.typing.value.Valid(columns - |PROMPT|)
  {
    var e := t.typing.value;
    var seen := t.(visible := true, afterReturn := if key.Ascii? then key == Ascii('\r') else t.afterReturn);
    PressDoes(e, key, columns - |PROMPT|);
    if IsEnter(key, t.afterReturn) then
      seen.(history := t.history + [LineRow(e.line, columns)], typing := None, pending := Some(e.line))
    else seen.(typing := Some(Press(e, key, columns - |PROMPT|)))
  }

  /** The talk after these steps, from a cleared console on. */
  function Conversation(pending: Option<string>, steps: seq<Step>, rows: nat, columns: nat): (t: Talk)
    requires rows > 0 && columns > |PROMPT|
    ensures t.typing.Some? ==> t.typing.value.Valid(columns - |PROMPT|)
  {
    if steps == [] then Talk([], None, true, false, pending)
    else Told(Conversation(pending, steps[..|steps| - 1], rows, columns), steps[|steps| - 1], rows, columns)
  }

  /** What the display shows in a cell once a console has been told this: the newest rows it left behind, then
      the command line behind its prompt, then nothing; and the cursor where the next character goes. */
  function Display(t: Talk, rows: nat, columns: nat, r: nat, c: nat): Paint
    requires r < rows && c < columns && forall i :: 0 <= i < |t.history| ==> |t.history[i]| == columns
  {
    var row := RowInUse(t, rows);
    var at := if t.typing.None? then 0 else |PROMPT| + t.typing.value.cursor;
    if t.visible && r == row && c == at then Block
    else if r < row then Glyph(t.history[|t.history| - row + r][c])
    else if r == row && t.typing.Some? then Glyph(LineCell(t.typing.value.line, c))
    else Glyph(BLANK)
  }

  /** How many cells of the last wrapped row `length` characters fill. */
  function Remainder(length: nat, columns: nat): (column: nat)
    requires columns > 0
    ensures column < columns
  {
    if length < columns then length else Remainder(length - columns, columns)
  }

  /** One more character goes behind the last one, and completes its row or does not. */
  lemma {:induction false} WrapNext(ids: seq<Id>, id: Id, columns: nat)
    requires columns > 0
    ensures var rows := Wrap(ids, columns);
            var column := Remainder(|ids|, columns);
            var written := rows[..|rows| - 1] + [rows[|rows| - 1][column := id]];
            && Wrap(ids + [id], columns) == (if column + 1 == columns then written + [BlankRow(columns)] else written)
            && Remainder(|ids| + 1, columns) == if column + 1 == columns then 0 else column + 1
    decreases |ids|
  {
    var more := ids + [id];
    if |ids| < columns {
      if |more| == columns {
        assert Padded(ids, columns)[|ids| := id] == more == more[..columns];
        assert Wrap(more[columns..], columns) == [Padded([], columns)];
        assert Padded([], columns) == BlankRow(columns);
      } else {
        assert Padded(ids, columns)[|ids| := id] == Padded(more, columns);
      }
    } else {
      assert more[..columns] == ids[..columns] && more[columns..] == ids[columns..] + [id];
      var rest := Wrap(ids[columns..], columns);
      WrapNext(ids[columns..], id, columns);
      assert Wrap(ids, columns) == [ids[..columns]] + rest;
      assert Wrap(more, columns) == [ids[..columns]] + Wrap(ids[columns..] + [id], columns);
    }
  }

  lemma SplitLast(before: seq<Row>, finished: seq<Row>, current: Row, rows: seq<Row>)
    requires finished + [current] == before + rows && |rows| > 0
    ensures current == rows[|rows| - 1] && finished == before + rows[..|rows| - 1]
  {
    assert (finished + [current])[|finished|] == (before + rows)[|finished|];
    assert (finished + [current])[..|finished|] == finished;
    assert (before + rows)[..|finished|] == before + rows[..|rows| - 1];
  }

  /** The same step seen from the console: finished rows, and the row being filled. */
  lemma WriteNext(before: seq<Row>, finished: seq<Row>, current: Row, ids: seq<Id>, id: Id, columns: nat)
    requires columns > 0 && |current| == columns
    requires finished + [current] == before + Wrap(ids, columns)
    ensures var column := Remainder(|ids|, columns);
            var written := finished + [current[column := id]];
            && before + Wrap(ids + [id], columns)
                == (if column + 1 == columns then written + [BlankRow(columns)] else written)
            && Remainder(|ids| + 1, columns) == if column + 1 == columns then 0 else column + 1
  {
    var rows := Wrap(ids, columns);
    SplitLast(before, finished, current, rows);
    WrapNext(ids, id, columns);
    var first: seq<Row>, last: seq<Row> := rows[..|rows| - 1], [current[Remainder(|ids|, columns) := id]];
    assert before + (first + last) == (before + first) + last;
    assert before + ((first + last) + [BlankRow(columns)]) == ((before + first) + last) + [BlankRow(columns)];
  }

  /** Inserting a character shifts the cells behind it by one; removing one shifts them back. */
  lemma InsertedCells(line: string, k: nat, c: char)
    requires k <= |line|
    ensures var longer := line[..k] + [c] + line[k..];
            forall j: nat {:trigger LineCell(longer, j)} :: LineCell(longer, j) ==
              if j < |PROMPT| + k then LineCell(line, j)
              else if j == |PROMPT| + k then IdOf(c)
              else LineCell(line, j - 1)
  {
  }

  lemma RemovedCells(line: string, k: nat)
    requires k < |line|
    ensures var shorter := line[..k] + line[k + 1..];
            forall j: nat {:trigger LineCell(shorter, j)} :: LineCell(shorter, j) ==
              if j < |PROMPT| + k then LineCell(line, j) else LineCell(line, j + 1)
  {
  }

  class Console {
    const rows: nat
    const columns: nat
    const cells: array2<Id>
    var column: nat
    var row: nat
    var inputEnd: nat
    var previousWasCarriageReturn: bool
    var cursorVisible: bool
    var pendingSubmission: Option<string>
    /** Every row above the current one, including those scrolled off the top. */
    ghost var history: seq<Row>
    /** The command line being edited. */
    ghost var line: string

    // --- what the grid means ------------------------------------------------

    ghost predicate RowIs(r: nat, contents: Row)
      requires cells.Length0 == rows && cells.Length1 == columns && r < rows
      reads cells
    {
      |contents| == columns && forall c :: 0 <= c < columns ==> cells[r, c] == contents[c]
    }

    /** The rows on screen are the newest rows of the history, then the current one, then blanks. */
    ghost predicate Valid()
      reads this, cells
    {
      && cells.Length0 == rows && cells.Length1 == columns
      && rows > 0 && columns > |PROMPT|
      && row < rows && column <= columns && inputEnd <= columns
      && row <= |history| && (row < |history| ==> row == rows - 1)
      && (forall i :: 0 <= i < |history| ==> |history[i]| == columns)
      && (forall r, c :: 0 <= r < row && 0 <= c < columns ==> cells[r, c] == history[|history| - row + r][c])
      && (forall r, c :: row < r < rows && 0 <= c < columns ==> cells[r, c] == BLANK)
    }

    /** Column 0 of a blank row: ready for a prompt or for output. */
    ghost predicate AtBlankRow()
      requires Valid()
      reads this, cells
    {
      column == 0 && inputEnd == 0 && RowIs(row, BlankRow(columns))
    }

    function Capacity(): nat
      requires columns > |PROMPT|
    {
      columns - |PROMPT|
    }

    ghost predicate HoldsLine()
      requires Valid()
      reads this, cells
    {
      forall c :: 0 <= c < columns ==> cells[row, c] == LineCell(line, c)
    }

    /** The current row holds the prompt and the line being edited. */
    ghost predicate Editing()
      requires Valid()
      reads this, cells
    {
      && |PROMPT| <= column <= inputEnd
      && inputEnd == |PROMPT| + |line|
      && (forall i :: 0 <= i < |line| ==> Printable(line[i]))
      && HoldsLine()
    }

    /** The text on either side of the cursor. */
    ghost function Before(): string
      requires Valid() && Editing()
      reads this, cells
    {
      Left(Edited())
    }

    ghost function Behind(): string
      requires Valid() && Editing()
      reads this, cells
    {
      Right(Edited())
    }

    ghost function Edited(): Editor
      requires Valid() && Editing()
      reads this, cells
      ensures Edited().Valid(Capacity())
    {
      Editor(line, column - |PROMPT|)
    }

    /** What a full redraw would put in a cell. */
    ghost function Want(r: nat, c: nat): Paint
      requires Valid() && r < rows && c < columns
      reads this, cells
    {
      if cursorVisible && c == column && r == row then Block else Glyph(cells[r, c])
    }

    ghost predicate Fits(screen: Screen) {
      screen.Valid() && screen.rows == rows && screen.columns == columns
    }

    ghost predicate InSync(screen: Screen)
      requires Valid() && Fits(screen)
      reads this, cells, screen.paint
    {
      forall r, c :: 0 <= r < rows && 0 <= c < columns ==> screen.paint[r, c] == Want(r, c)
    }

    // --- construction -------------------------------------------------------

    constructor (rows: nat, columns: nat)
      requires rows > 0 && columns > |PROMPT|
      ensures this.rows == rows && this.columns == columns && fresh(cells)
      ensures Valid() && Editing() && Edited() == EMPTY && history == []
      ensures pendingSubmission == None
    {
      this.rows, this.columns := rows, columns;
      cells := new Id[rows, columns]((_, _) => BLANK);
      column, row, inputEnd := |PROMPT|, 0, |PROMPT|;
      previousWasCarriageReturn, cursorVisible, pendingSubmission := false, true, None;
      history, line := [], "";
      new;
      for i := 0 to |PROMPT|
        invariant cells.Length0 == rows && cells.Length1 == columns
        invariant forall r, c :: 0 <= r < rows && 0 <= c < columns ==>
                    cells[r, c] == if r == 0 && c < i then IdOf(PROMPT[c]) else BLANK
        modifies cells
      {
        cells[0, i] := IdOf(PROMPT[i]);
      }
    }

    /** Blanks every cell and repaints: the way in, and the way back from a full-screen mode,
        whatever the framebuffer holds. */
    method Clear(screen: Screen)
      requires Valid() && Fits(screen)
      modifies this, cells, screen.paint
      ensures Valid() && AtBlankRow() && InSync(screen)
      ensures history == [] && cursorVisible && !previousWasCarriageReturn
      ensures pendingSubmission == old(pendingSubmission)
    {
      forall r, c | 0 <= r < rows && 0 <= c < columns {
        cells[r, c] := BLANK;
      }
      column, row, inputEnd := 0, 0, 0;
      previousWasCarriageReturn, cursorVisible := false, true;
      history, line := [], "";
      Redraw(screen);
    }

    method TakeSubmission() returns (taken: Option<string>)
      modifies this`pendingSubmission
      ensures taken == old(pendingSubmission) && pendingSubmission == None
    {
      taken := pendingSubmission;
      pendingSubmission := None;
    }

    // --- painting -----------------------------------------------------------

    method RenderCell(screen: Screen, c: nat, r: nat)
      requires Valid() && Fits(screen) && r < rows && c < columns
      modifies screen.paint
      ensures forall i, j :: 0 <= i < rows && 0 <= j < columns ==>
                screen.paint[i, j] == if i == r && j == c then Want(i, j) else old(screen.paint[i, j])
    {
      if cursorVisible && c == column && r == row {
        screen.paint[r, c] := Block;
        return;
      }
      screen.paint[r, c] := Glyph(cells[r, c]);
    }

    /** Repaints columns `start..end` of one row. */
    method DrawSpan(screen: Screen, r: nat, start: nat, end: nat)
      requires Valid() && Fits(screen)
      modifies screen.paint
      ensures forall i, j :: 0 <= i < rows && 0 <= j < columns ==>
                screen.paint[i, j] == if i == r && start <= j < end then Want(i, j) else old(screen.paint[i, j])
    {
      var stop := if end < columns then end else columns;
      if r >= rows || start >= stop {
        return;
      }
      for c := start to stop
        invariant forall i, j :: 0 <= i < rows && 0 <= j < columns ==>
                    screen.paint[i, j] == if i == r && start <= j < c then Want(i, j) else old(screen.paint[i, j])
      {
        RenderCell(screen, c, r);
      }
    }

    method DrawCursor(screen: Screen)
      requires Valid() && Fits(screen)
      modifies screen.paint
      ensures forall i, j :: 0 <= i < rows && 0 <= j < columns ==>
                screen.paint[i, j] == if i == row && j == column then Want(i, j) else old(screen.paint[i, j])
    {
      DrawSpan(screen, row, column, column + 1);
    }

    /** Repaints what an edit touched: its cells, and the cells the cursor left and entered. */
    method DrawEdit(screen: Screen, previousColumn: nat, dirtyEnd: nat)
      requires Valid() && Fits(screen)
      modifies screen.paint
      ensures forall i, j :: 0 <= i < rows && 0 <= j < columns ==>
                if i == row && (j == previousColumn || j == column ||
                    (previousColumn <= j < dirtyEnd) || (column <= j < dirtyEnd))
                then screen.paint[i, j] == Want(i, j)
                else screen.paint[i, j] == old(screen.paint[i, j]) || screen.paint[i, j] == Want(i, j)
    {
      var start := if previousColumn < column then previousColumn else column;
      var last := if previousColumn < column then column else previousColumn;
      DrawSpan(screen, row, start, if dirtyEnd > last + 1 then dirtyEnd else last + 1);
    }

    method Redraw(screen: Screen)
      requires Valid() && Fits(screen)
      modifies screen.paint
      ensures InSync(screen)
    {
      screen.Fill(Glyph(BLANK));
      for r := 0 to rows
        invariant forall i, j :: 0 <= i < rows && 0 <= j < columns ==>
                    screen.paint[i, j] == Glyph(if i < r then cells[i, j] else BLANK)
      {
        for c := 0 to columns
          invariant forall i, j :: 0 <= i < rows && 0 <= j < columns ==>
                      screen.paint[i, j] == Glyph(if i < r || (i == r && j < c) then cells[i, j] else BLANK)
        {
          if cells[r, c] != BLANK {
            screen.paint[r, c] := Glyph(cells[r, c]);
          }
        }
      }
      if cursorVisible && column < columns {
        screen.paint[row, column] := Block;
      }
    }

    /** What the block copy may be trusted with: the rows above `repaintFrom` already show,
        `distance` rows lower, what they should show. */
    ghost predicate Carries(screen: Screen, distance: nat, repaintFrom: nat)
      requires Valid() && Fits(screen) && (repaintFrom > 0 ==> repaintFrom + distance <= rows)
      reads this, cells, screen.paint
    {
      forall r, c :: 0 <= r < repaintFrom && 0 <= c < columns ==> screen.paint[r + distance, c] == Want(r, c)
    }

    /** Brings the view into line with a grid that `distance` rows of cells have moved up in. */
    method ScrollScreen(screen: Screen, distance: nat, repaintFrom: nat)
      requires Valid() && Fits(screen) && distance > 0
      requires repaintFrom > 0 ==> repaintFrom + distance <= rows
      modifies screen.paint
      ensures old(Carries(screen, distance, repaintFrom)) ==> InSync(screen)
    {
      var redraw := distance >= rows || repaintFrom == 0;
      if !redraw {
        var moved := screen.ScrollUp(distance);
        redraw := !moved;
      }
      if redraw {
        Redraw(screen);
        return;
      }
      for r := repaintFrom to rows
        invariant forall i, j :: repaintFrom <= i < r && 0 <= j < columns ==> screen.paint[i, j] == Want(i, j)
        invariant forall i, j :: 0 <= i < repaintFrom && 0 <= j < columns ==>
                    screen.paint[i, j] == old(screen.paint[i + distance, j])
      {
        DrawSpan(screen, r, 0, columns);
      }
    }

    method BlinkCursor(screen: Screen)
      requires Valid() && Fits(screen)
      modifies this`cursorVisible, screen.paint
      ensures Valid() && cursorVisible == !old(cursorVisible)
      ensures old(InSync(screen)) ==> InSync(screen)
    {
      cursorVisible := !cursorVisible;
      DrawCursor(screen);
    }

    method ShowCursor(screen: Screen)
      requires Valid() && Fits(screen)
      modifies this`cursorVisible, screen.paint
      ensures Valid() && cursorVisible
      ensures old(InSync(screen)) ==> InSync(screen)
    {
      if !cursorVisible {
        cursorVisible := true;
        DrawCursor(screen);
      }
    }

    // --- rows ---------------------------------------------------------------

    /** Moves to the next row, scrolling the grid when there is none. Cells only. */
    method AdvanceRow(ghost current: Row) returns (scrolled: bool)
      requires Valid() && RowIs(row, current)
      modifies this`row, this`column, this`inputEnd, this`history, this`line, cells
      ensures Valid() && AtBlankRow() && line == ""
      ensures history == old(history) + [current]
      ensures scrolled == (old(row) + 1 == rows)
      ensures row == if scrolled then old(row) else old(row) + 1
      ensures !scrolled ==> forall r, c :: 0 <= r < rows && 0 <= c < columns ==> cells[r, c] == old(cells[r, c])
    {
      history := history + [current];
      line := "";
      row := row + 1;
      scrolled := row == rows;
      if scrolled {
        ScrollCells();
        row := rows - 1;
      }
      column := 0;
      inputEnd := 0;
    }

    method ScrollCells()
      requires cells.Length0 == rows && cells.Length1 == columns && rows > 0
      modifies cells
      ensures forall i, j :: 0 <= i < rows && 0 <= j < columns ==>
                cells[i, j] == if i == rows - 1 then BLANK else old(cells[i + 1, j])
    {
      for r := 1 to rows
        invariant forall i, j :: 0 <= i < r - 1 && 0 <= j < columns ==> cells[i, j] == old(cells[i + 1, j])
        invariant forall i, j :: r - 1 <= i < rows && 0 <= j < columns ==> cells[i, j] == old(cells[i, j])
      {
        forall i, c | i == r - 1 && 0 <= c < columns {
          cells[i, c] := cells[r, c];
        }
      }
      forall i, c | i == rows - 1 && 0 <= c < columns {
        cells[i, c] := BLANK;
      }
    }

    method SetPromptCells()
      requires Valid() && AtBlankRow()
      modifies this`column, this`inputEnd, this`line, cells
      ensures Valid() && Editing() && Edited() == EMPTY
      ensures forall r, c :: 0 <= r < rows && 0 <= c < columns && (r != row || c >= |PROMPT|) ==>
                cells[r, c] == old(cells[r, c])
    {
      for i := 0 to |PROMPT|
        invariant forall r, c :: 0 <= r < rows && 0 <= c < columns ==>
                    cells[r, c] == if r == row && c < i then IdOf(PROMPT[c]) else old(cells[r, c])
      {
        cells[row, i] := IdOf(PROMPT[i]);
      }
      column, inputEnd, line := |PROMPT|, |PROMPT|, "";
    }

    /** Writes the prompt into the current row, which must be blank, and paints it. */
    method WritePrompt(screen: Screen)
      requires Valid() && AtBlankRow() && Fits(screen)
      modifies this`column, this`inputEnd, this`line, cells, screen.paint
      ensures Valid() && Editing() && Edited() == EMPTY
      ensures old(InSync(screen)) ==> InSync(screen)
    {
      SetPromptCells();
      DrawSpan(screen, row, 0, column + 1);
    }

    /** One character of output: fills a cell, and advances when that completed the row. */
    method WriteCell(c: char, ghost current: Row) returns (scrolled: bool, ghost next: Row)
      requires Valid() && RowIs(row, current) && column < columns
      modifies this`row, this`column, this`inputEnd, this`history, this`line, cells
      ensures Valid() && RowIs(row, next)
      ensures var written := current[old(column) := IdOf(c)];
              if old(column) + 1 == columns
              then column == 0 && next == BlankRow(columns) && history == old(history) + [written]
              else column == old(column) + 1 && next == written && history == old(history)
      ensures scrolled <==> old(column) + 1 == columns && old(row) + 1 == rows
      ensures row == old(row) + if old(column) + 1 == columns && !scrolled then 1 else 0
      ensures !scrolled ==> forall r, k :: 0 <= r < rows && 0 <= k < columns && (r != old(row) || k != old(column)) ==>
                cells[r, k] == old(cells[r, k])
    {
      cells[row, column] := IdOf(c);
      next := current[column := IdOf(c)];
      column := column + 1;
      scrolled := false;
      if column == columns {
        scrolled := AdvanceRow(next);
        next := BlankRow(columns);
      }
    }

    /** The grid's half of writing a line: fills cells and advances rows, and reports how many rows
        scrolled and the widest column any of the line's rows reached. */
    method WriteCells(text: string) returns (scrolledRows: nat, widest: nat)
      requires Valid() && AtBlankRow()
      modifies this`row, this`column, this`inputEnd, this`history, this`line, cells
      ensures Valid() && AtBlankRow() && line == ""
      ensures history == old(history) + Wrap(Ids(text), columns)
      ensures row + scrolledRows == old(row) + |Wrap(Ids(text), columns)|
      ensures scrolledRows > 0 ==> row == rows - 1
      ensures widest <= columns && (text == "" <==> widest == 0)
      ensures scrolledRows == 0 ==> forall r, c :: old(row) <= r < rows && widest <= c < columns ==>
                cells[r, c] == BLANK
    {
      ghost var current;
      scrolledRows, widest, current := FillCells(text);
      var scrolled := AdvanceRow(current);
      scrolledRows := scrolledRows + if scrolled then 1 else 0;
    }

    method FillCells(text: string) returns (scrolledRows: nat, widest: nat, ghost current: Row)
      requires Valid() && AtBlankRow()
      modifies this`row, this`column, this`inputEnd, this`history, this`line, cells
      ensures Valid() && RowIs(row, current)
      ensures history + [current] == old(history) + Wrap(Ids(text), columns)
      ensures row + scrolledRows == old(row) + (|history| - |old(history)|)
      ensures scrolledRows > 0 ==> row == rows - 1
      ensures widest <= columns && (text == "" <==> widest == 0)
      ensures scrolledRows == 0 ==> forall r, c :: old(row) <= r < rows && widest <= c < columns ==>
                cells[r, c] == BLANK
    {
      scrolledRows, widest := 0, 0;
      ghost var ids := Ids(text);
      current := BlankRow(columns);
      assert ids[..0] == [] && Padded([], columns) == current;
      column := 0;
      for n := 0 to |text|
        invariant Valid() && RowIs(row, current)
        invariant column == Remainder(n, columns)
        invariant history + [current] == old(history) + Wrap(ids[..n], columns)
        invariant row + scrolledRows == old(row) + (|history| - |old(history)|)
        invariant scrolledRows > 0 ==> row == rows - 1
        invariant widest <= columns && (n == 0 <==> widest == 0)
        invariant scrolledRows == 0 ==> forall r, c :: old(row) <= r < rows && widest <= c < columns ==>
                    cells[r, c] == BLANK
      {
        WriteNext(old(history), history, current, ids[..n], ids[n], columns);
        assert ids[..n] + [ids[n]] == ids[..n + 1];
        widest := if widest > column + 1 then widest else column + 1;
        var scrolled;
        scrolled, current := WriteCell(text[n], current);
        scrolledRows := scrolledRows + if scrolled then 1 else 0;
      }
      assert ids[..|text|] == ids;
    }

    /** Repaints the first columns of the rows a line of output filled. */
    method DrawRows(screen: Screen, firstRow: nat, widest: nat)
      requires Valid() && Fits(screen) && firstRow <= row && widest <= columns
      modifies screen.paint
      ensures forall i, j :: 0 <= i < rows && 0 <= j < columns ==>
                screen.paint[i, j] == if firstRow <= i < row && 0 <= j < widest then Want(i, j)
                    else old(screen.paint[i, j])
    {
      for r := firstRow to row
        invariant forall i, j :: 0 <= i < rows && 0 <= j < columns ==>
                    screen.paint[i, j] == if firstRow <= i < r && 0 <= j < widest then Want(i, j)
                        else old(screen.paint[i, j])
      {
        DrawSpan(screen, r, 0, widest);
      }
    }

    /** Writes one line of output on the current row, which must be blank, wrapping as it goes. The
        rows it adds are the wrapped line, however many of them scroll off on the way, and the view
        keeps up by repainting no more than the columns the line reached. It fails to keep up in one
        case: an empty line, a visible cursor and no scroll leave the cursor block where it stood. */
    method WriteOutputLine(screen: Screen, text: string)
      requires Valid() && AtBlankRow() && Fits(screen)
      modifies this`row, this`column, this`inputEnd, this`history, this`line, cells, screen.paint
      ensures Valid() && AtBlankRow() && line == ""
      ensures history == old(history) + Wrap(Ids(text), columns)
      ensures old(InSync(screen)) ==>
                (InSync(screen) <==> text != "" || !cursorVisible || old(row) == rows - 1)
    {
      var firstRow := row;
      var scrolledRows, widest := WriteCells(text);
      if scrolledRows > 0 {
        var from := if firstRow >= scrolledRows then firstRow - scrolledRows else 0;
        assert old(InSync(screen)) ==> Carries(screen, scrolledRows, from);
        ScrollScreen(screen, scrolledRows, from);
        return;
      }
      DrawRows(screen, firstRow, widest);
      DrawCursor(screen);
      assert text == "" && old(InSync(screen)) && cursorVisible ==> screen.paint[firstRow, 0] == Block;
    }

    // --- the command line ---------------------------------------------------

    /** What every edit keeps: the row stays a prompt and a line, nothing above it changes, and a
        view that was in step stays in step. */
    twostate predicate Kept(screen: Screen)
      requires old(Valid()) && Valid() && Fits(screen)
      reads this, cells, screen.paint
    {
      && row == old(row) && history == old(history)
      && (old(InSync(screen)) ==> InSync(screen))
    }

    /** Moves the cells from the cursor on one place to the right. */
    method MakeRoom()
      requires Valid() && Editing() && inputEnd < columns
      modifies cells
      ensures forall r, j :: 0 <= r < rows && 0 <= j < columns ==>
                cells[r, j] == if r == row && column < j <= inputEnd then old(cells[r, j - 1]) else old(cells[r, j])
    {
      var index := inputEnd;
      while index > column
        invariant column <= index <= inputEnd
        invariant forall r, j :: 0 <= r < rows && 0 <= j < columns ==>
                    cells[r, j] == if r == row && index < j <= inputEnd then old(cells[r, j - 1]) else old(cells[r, j])
      {
        index := index - 1;
        cells[row, index + 1] := cells[row, index];
      }
    }

    /** Makes room at the cursor and fills it. */
    method InsertAtCursor(c: char)
      requires Valid() && Editing() && inputEnd < columns && Printable(c)
      modifies this`column, this`inputEnd, this`line, cells
      ensures Valid() && Editing()
      ensures line == old(line[..column - |PROMPT|] + [c] + line[column - |PROMPT|..])
      ensures column == old(column) + 1 && inputEnd == old(inputEnd) + 1
      ensures forall r, j :: 0 <= r < rows && 0 <= j < columns && (r != row || j < old(column) || j >= inputEnd) ==>
                cells[r, j] == old(cells[r, j])
    {
      ghost var longer := line[..column - |PROMPT|] + [c] + line[column - |PROMPT|..];
      InsertCell(c);
      line := longer;
      column := column + 1;
      inputEnd := inputEnd + 1;
    }

    method InsertCell(c: char)
      requires Valid() && Editing() && inputEnd < columns && Printable(c)
      modifies cells
      ensures forall j :: 0 <= j < columns ==>
                cells[row, j] == LineCell(line[..column - |PROMPT|] + [c] + line[column - |PROMPT|..], j)
      ensures forall r, j :: 0 <= r < rows && 0 <= j < columns && (r != row || j < column || j > inputEnd) ==>
                cells[r, j] == old(cells[r, j])
    {
      MakeRoom();
      cells[row, column] := IdOf(c);
      InsertedCells(line, column - |PROMPT|, c);
    }

    /** Inserts one character at the cursor; a full row takes no more. */
    method Put(screen: Screen, c: char)
      requires Valid() && Editing() && Fits(screen) && Printable(c)
      modifies this`column, this`inputEnd, this`line, cells, screen.paint
      ensures Valid() && Editing() && Kept(screen)
      ensures Edited() == Insert(old(Edited()), c, Capacity())
    {
      if inputEnd == columns {
        return;
      }
      var previousColumn := column;
      InsertAtCursor(c);
      DrawEdit(screen, previousColumn, inputEnd);
    }

    /** Drops the character under the cursor, closes the gap and blanks the vacated last cell. */
    method RemoveAtCursor()
      requires Valid() && |PROMPT| <= column < inputEnd == |PROMPT| + |line|
      requires HoldsLine()
      requires forall i :: 0 <= i < |line| ==> Printable(line[i])
      modifies this`inputEnd, this`line, cells
      ensures Valid() && Editing()
      ensures line == old(line[..column - |PROMPT|] + line[column - |PROMPT| + 1..]) && inputEnd == old(inputEnd) - 1
      ensures forall r, c :: 0 <= r < rows && 0 <= c < columns && (r != row || c < column || c >= old(inputEnd)) ==>
                cells[r, c] == old(cells[r, c])
    {
      for index := column to inputEnd - 1
        invariant forall r, j :: 0 <= r < rows && 0 <= j < columns && (r != row || j < column || j >= index) ==>
                    cells[r, j] == old(cells[r, j])
        invariant forall j :: column <= j < index ==> cells[row, j] == LineCell(line, j + 1)
        modifies cells
      {
        cells[row, index] := cells[row, index + 1];
      }
      inputEnd := inputEnd - 1;
      cells[row, inputEnd] := BLANK;
      RemovedCells(line, column - |PROMPT|);
      ghost var shorter := line[..column - |PROMPT|] + line[column - |PROMPT| + 1..];
      assert forall j :: 0 <= j < columns ==> cells[row, j] == LineCell(shorter, j);
      line := shorter;
    }

    method EraseBackward(screen: Screen)
      requires Valid() && Editing() && Fits(screen)
      modifies this`column, this`inputEnd, this`line, cells, screen.paint
      ensures Valid() && Editing() && Kept(screen)
      ensures Edited() == Backspace(old(Edited()))
    {
      if column <= |PROMPT| {
        return;
      }
      var previousColumn := column;
      var oldEnd := inputEnd;
      column := column - 1;
      RemoveAtCursor();
      DrawEdit(screen, previousColumn, oldEnd);
    }

    method DeleteForward(screen: Screen)
      requires Valid() && Editing() && Fits(screen)
      modifies this`inputEnd, this`line, cells, screen.paint
      ensures Valid() && Editing() && Kept(screen)
      ensures Edited() == if old(column < inputEnd) then Remove(old(Edited())) else old(Edited())
    {
      if column >= inputEnd {
        return;
      }
      var oldEnd := inputEnd;
      RemoveAtCursor();
      DrawEdit(screen, column, oldEnd);
    }

    method ClearInputLine(screen: Screen)
      requires Valid() && Editing() && Fits(screen)
      modifies this`column, this`inputEnd, this`line, cells, screen.paint
      ensures Valid() && Editing() && Kept(screen)
      ensures Edited() == EMPTY
    {
      if inputEnd == |PROMPT| && column == |PROMPT| {
        return;
      }
      var previousColumn := column;
      var oldEnd := inputEnd;
      for k := |PROMPT| to oldEnd
        invariant forall r, j :: 0 <= r < rows && 0 <= j < columns ==>
                    cells[r, j] == if r == row && |PROMPT| <= j < k then BLANK else old(cells[r, j])
        modifies cells
      {
        cells[row, k] := BLANK;
      }
      column, inputEnd, line := |PROMPT|, |PROMPT|, "";
      DrawEdit(screen, previousColumn, oldEnd);
    }

    method MoveCursor(screen: Screen, target: nat)
      requires Valid() && Editing() && Fits(screen)
      modifies this`column, screen.paint
      ensures Valid() && Editing() && Kept(screen)
      ensures column == if target < |PROMPT| then |PROMPT| else if target > inputEnd then inputEnd else target
    {
      var to := if target < |PROMPT| then |PROMPT| else if target > inputEnd then inputEnd else target;
      if to == column {
        return;
      }
      var previousColumn := column;
      column := to;
      DrawEdit(screen, previousColumn, 0);
    }

    /** Copies the line being edited out of the grid. */
    method ReadLine() returns (text: string)
      requires Valid() && Editing()
      ensures text == line
    {
      text := "";
      for k := |PROMPT| to inputEnd
        invariant text == line[..k - |PROMPT|]
      {
        TypedCharacterSurvives(line[k - |PROMPT|]);
        text := text + [AsciiOf(cells[row, k])];
      }
    }

    /** Moves off the edited row, erasing the cursor block it carries. */
    method LeaveRow(screen: Screen)
      requires Valid() && Editing() && Fits(screen)
      modifies this`row, this`column, this`inputEnd, this`history, this`line, cells, screen.paint
      ensures Valid() && AtBlankRow() && history == old(history) + [LineRow(old(line), columns)]
      ensures old(InSync(screen)) ==> InSync(screen)
    {
      var submittedRow := row;
      var submittedColumn := column;
      var scrolled := AdvanceRow(LineRow(line, columns));
      if scrolled {
        var from := if submittedRow > 0 then submittedRow - 1 else 0;
        assert old(InSync(screen)) ==> Carries(screen, 1, from);
        ScrollScreen(screen, 1, from);
      } else {
        DrawSpan(screen, submittedRow, submittedColumn, submittedColumn + 1);
        DrawCursor(screen);
      }
    }

    /** Enter: captures exactly the line, and moves to a fresh blank row without a prompt. */
    method Submit(screen: Screen)
      requires Valid() && Editing() && Fits(screen)
      modifies this`row, this`column, this`inputEnd, this`history, this`line, this`pendingSubmission, cells,
               screen.paint
      ensures Valid() && AtBlankRow() && pendingSubmission == Some(old(line))
      ensures history == old(history) + [LineRow(old(line), columns)]
      ensures old(InSync(screen)) ==> InSync(screen)
    {
      var text := ReadLine();
      LeaveRow(screen);
      pendingSubmission := Some(text);
    }

    method Tab(screen: Screen)
      requires Valid() && Editing() && Fits(screen)
      modifies this`column, this`inputEnd, this`line, cells, screen.paint
      ensures Valid() && Editing() && Kept(screen)
      ensures Edited() == InsertMany(old(Edited()), ' ', 4 - old(column) % 4, Capacity())
    {
      var spaces := 4 - column % 4;
      for i := 0 to spaces
        invariant Valid() && Editing() && Kept(screen)
        invariant Edited() == InsertMany(old(Edited()), ' ', i, Capacity())
      {
        Put(screen, ' ');
      }
    }

    /** One key on a row that holds a prompt. Enter hands over exactly the edited line; every other
        key does to the cells what `Press` does to the pair of string and cursor. */
    method PushKey(screen: Screen, key: Key)
      requires Valid() && Editing() && Fits(screen)
      modifies this, cells, screen.paint
      ensures Valid() && cursorVisible
      ensures old(InSync(screen)) ==> InSync(screen)
      ensures previousWasCarriageReturn == if key.Ascii? then key == Ascii('\r') else old(previousWasCarriageReturn)
      ensures if key == Ascii('\r') || (key == Ascii('\n') && !old(previousWasCarriageReturn)) then
                && AtBlankRow() && pendingSubmission == Some(old(line))
                && history == old(history) + [LineRow(old(line), columns)]
              else
                && Editing() && Edited() == Press(old(Edited()), key, Capacity())
                && KeyDoes(key, old(Before()), old(Behind()), Before(), Behind(), Capacity())
                && pendingSubmission == old(pendingSubmission) && history == old(history) && row == old(row)
      ensures key.Home? ==> line == old(line) && column == |PROMPT|
      ensures key.End? ==> line == old(line) && column == |PROMPT| + |line|
      ensures key.ArrowLeft? ==> line == old(line) && column == old(if column == |PROMPT| then column else column - 1)
      ensures key.ArrowRight? ==> line == old(line) && column == old(if column == inputEnd then column else column + 1)
      ensures key.Escape? ==> line == "" && column == |PROMPT|
    {
      PressDoes(Edited(), key, Capacity());
      ShowAndStrike(screen, key);
    }

    method ShowAndStrike(screen: Screen, key: Key)
      requires Valid() && Editing() && Fits(screen)
      modifies this, cells, screen.paint
      ensures Valid() && cursorVisible
      ensures old(InSync(screen)) ==> InSync(screen)
      ensures previousWasCarriageReturn == if key.Ascii? then key == Ascii('\r') else old(previousWasCarriageReturn)
      ensures if IsEnter(key, old(previousWasCarriageReturn)) then
                && AtBlankRow() && pendingSubmission == Some(old(line))
                && history == old(history) + [LineRow(old(line), columns)]
              else
                && Editing() && Edited() == Press(old(Edited()), key, Capacity())
                && pendingSubmission == old(pendingSubmission) && history == old(history) && row == old(row)
    {
      ShowCursor(screen);
      Strike(screen, key);
    }

    method Strike(screen: Screen, key: Key)
      requires Valid() && Editing() && Fits(screen)
      modifies this`row, this`column, this`inputEnd, this`history, this`line, this`pendingSubmission,
               this`previousWasCarriageReturn, cells, screen.paint
      ensures Valid()
      ensures old(InSync(screen)) ==> InSync(screen)
      ensures previousWasCarriageReturn == if key.Ascii? then key == Ascii('\r') else old(previousWasCarriageReturn)
      ensures if IsEnter(key, old(previousWasCarriageReturn)) then
                && AtBlankRow() && pendingSubmission == Some(old(line))
                && history == old(history) + [LineRow(old(line), columns)]
              else
                && Editing() && Edited() == Press(old(Edited()), key, Capacity())
                && pendingSubmission == old(pendingSubmission) && history == old(history) && row == old(row)
    {
      match key {
        case Ascii(c) => Push(screen, c);
        case _ => Edit(screen, key);
      }
    }

    /** The keys that are not characters. */
    method Edit(screen: Screen, key: Key)
      requires Valid() && Editing() && Fits(screen) && !key.Ascii?
      modifies this`column, this`inputEnd, this`line, cells, screen.paint
      ensures Valid() && Editing() && Kept(screen)
      ensures Edited() == Press(old(Edited()), key, Capacity())
    {
      match key {
        case Escape => ClearInputLine(screen);
        case ArrowLeft => MoveCursor(screen, if column > |PROMPT| then column - 1 else |PROMPT|);
        case ArrowRight => MoveCursor(screen, if column < inputEnd then column + 1 else inputEnd);
        case Home => MoveCursor(screen, |PROMPT|);
        case End => MoveCursor(screen, inputEnd);
        case Delete => DeleteForward(screen);
        case Inert =>
      }
    }

    /** The characters that edit rather than submit. */
    method Type(screen: Screen, c: char)
      requires Valid() && Editing() && Fits(screen) && c != '\r' && c != '\n'
      modifies this`column, this`inputEnd, this`line, cells, screen.paint
      ensures Valid() && Editing() && Kept(screen)
      ensures Edited() == Press(old(Edited()), Ascii(c), Capacity())
    {
      if c == '\U{8}' || c == '\U{7f}' {
        EraseBackward(screen);
      } else if c == '\t' {
        Tab(screen);
      } else if ' ' <= c <= '~' {
        Put(screen, c);
      }
    }

    method Push(screen: Screen, c: char)
      requires Valid() && Editing() && Fits(screen)
      modifies this`row, this`column, this`inputEnd, this`history, this`line, this`pendingSubmission,
               this`previousWasCarriageReturn, cells, screen.paint
      ensures Valid()
      ensures old(InSync(screen)) ==> InSync(screen)
      ensures previousWasCarriageReturn == (c == '\r')
      ensures if IsEnter(Ascii(c), old(previousWasCarriageReturn)) then
                && AtBlankRow() && pendingSubmission == Some(old(line))
                && history == old(history) + [LineRow(old(line), columns)]
              else
                && Editing() && Edited() == Press(old(Edited()), Ascii(c), Capacity())
                && pendingSubmission == old(pendingSubmission) && history == old(history) && row == old(row)
    {
      if c == '\r' {
        Submit(screen);
        previousWasCarriageReturn := true;
      } else if c == '\n' && previousWasCarriageReturn {
        previousWasCarriageReturn := false;
      } else if c == '\n' {
        Submit(screen);
      } else {
        Type(screen, c);
      }
      if c != '\r' {
        previousWasCarriageReturn := false;
      }
    }

    // --- output in the middle of typing ---------------------------------------

    /** Lifts the edited line off its row, leaving the row blank for output. */
    method TakeInputLine(screen: Screen) returns (saved: Editor)
      requires Valid() && Editing() && Fits(screen)
      modifies this`column, this`inputEnd, this`line, cells, screen.paint
      ensures Valid() && AtBlankRow() && Kept(screen)
      ensures saved == old(Edited())
    {
      var text := ReadLine();
      saved := Editor(text, column - |PROMPT|);
      var painted := if inputEnd > column + 1 then inputEnd else column + 1;
      for k := 0 to inputEnd
        invariant forall r, j :: 0 <= r < rows && 0 <= j < columns ==>
                    cells[r, j] == if r == row && j < k then BLANK else old(cells[r, j])
        modifies cells
      {
        cells[row, k] := BLANK;
      }
      column, inputEnd, line := 0, 0, "";
      DrawSpan(screen, row, 0, painted);
    }

    /** Writes a line behind a fresh prompt, leaving the cursor at its start. */
    method SetLineCells(text: string)
      requires Valid() && Editing() && Edited() == EMPTY && |text| <= Capacity()
      requires forall i :: 0 <= i < |text| ==> Printable(text[i])
      modifies this`inputEnd, this`line, cells
      ensures Valid() && Editing() && Edited() == Editor(text, 0)
      ensures forall r, j :: 0 <= r < rows && 0 <= j < columns && (r != row || j < |PROMPT| || j >= inputEnd) ==>
                cells[r, j] == old(cells[r, j])
    {
      for k := 0 to |text|
        invariant forall r, j :: 0 <= r < rows && 0 <= j < columns && r != row ==> cells[r, j] == old(cells[r, j])
        invariant forall j :: 0 <= j < columns ==>
                    cells[row, j] == if j < |PROMPT| + k then LineCell(text, j) else BLANK
        modifies cells
      {
        cells[row, |PROMPT| + k] := IdOf(text[k]);
      }
      inputEnd := |PROMPT| + |text|;
      line := text;
    }

    /** Puts the prompt and a lifted line back on the current row, which must be blank. */
    method RestoreInputLine(screen: Screen, saved: Editor)
      requires Valid() && AtBlankRow() && Fits(screen)
      requires saved.Valid(Capacity()) && forall i :: 0 <= i < |saved.line| ==> Printable(saved.line[i])
      modifies this`column, this`inputEnd, this`line, this`cursorVisible, cells, screen.paint
      ensures Valid() && Editing() && Kept(screen)
      ensures Edited() == saved && cursorVisible
    {
      SetPromptCells();
      SetLineCells(saved.line);
      column := if |PROMPT| + saved.cursor < inputEnd then |PROMPT| + saved.cursor else inputEnd;
      cursorVisible := true;
      DrawSpan(screen, row, 0, if inputEnd > column + 1 then inputEnd else column + 1);
    }

    /** A report written while a command is being typed: the first line lifts the command out of the
        way, and it comes back behind the last one with its text and cursor unchanged. */
    method Report(screen: Screen, lines: seq<string>)
      requires Valid() && Editing() && Fits(screen)
      modifies this, cells, screen.paint
      ensures Valid() && Editing() && Edited() == old(Edited())
      ensures pendingSubmission == old(pendingSubmission) && previousWasCarriageReturn == old(previousWasCarriageReturn)
      ensures cursorVisible == (old(cursorVisible) || lines != [])
      ensures history == old(history) + WrapAll(lines, columns)
      ensures old(InSync(screen)) && ("" !in lines || !old(cursorVisible)) ==> InSync(screen)
    {
      if lines == [] {
        return;
      }
      ghost var shown := cursorVisible;
      var saved := TakeInputLine(screen);
      for n := 0 to |lines|
        invariant Valid() && AtBlankRow()
        invariant cursorVisible == shown && pendingSubmission == old(pendingSubmission)
        invariant previousWasCarriageReturn == old(previousWasCarriageReturn)
        invariant history == old(history) + WrapAll(lines[..n], columns)
        invariant old(InSync(screen)) && ("" !in lines || !shown) ==> InSync(screen)
      {
        WriteOutputLine(screen, lines[n]);
        assert lines[..n + 1][..n] == lines[..n];
      }
      assert lines[..|lines|] == lines;
      RestoreInputLine(screen, saved);
    }

    // --- whole runs -----------------------------------------------------------

    /** The console is in the state these talks leave. */
    ghost predicate Tells(t: Talk)
      requires Valid()
      reads this, cells
    {
      var ok :=
        && history == t.history && cursorVisible == t.visible && previousWasCarriageReturn == t.afterReturn
        && pendingSubmission == t.pending
        && (if t.typing.Some? then Editing() && Edited() == t.typing.value else AtBlankRow());
      ok
    }

    /** From `Clear` on the view never drifts: whatever prompts, keys, blinks, output lines, reports
        and further clears follow, in any order that respects who owns the row, the console is what it was told,
        and every cell of the display shows it. Steps out of turn are passed over. */
    method Session(screen: Screen, steps: seq<Step>) returns (prompted: bool)
      requires Valid() && Fits(screen)
      modifies this, cells, screen.paint
      ensures Valid() && Tells(Conversation(old(pendingSubmission), steps, rows, columns))
      ensures prompted == Conversation(old(pendingSubmission), steps, rows, columns).typing.Some?
      ensures forall r, c :: 0 <= r < rows && 0 <= c < columns ==>
                screen.paint[r, c]
                  == Display(Conversation(old(pendingSubmission), steps, rows, columns), rows, columns, r, c)
    {
      Clear(screen);
      prompted := false;
      for n := 0 to |steps|
        invariant Valid() && InSync(screen)
        invariant Tells(Conversation(old(pendingSubmission), steps[..n], rows, columns))
        invariant prompted == Conversation(old(pendingSubmission), steps[..n], rows, columns).typing.Some?
      {
        assert steps[..n + 1][..n] == steps[..n];
        prompted := Take(screen, steps[n], prompted, Conversation(old(pendingSubmission), steps[..n], rows, columns));
      }
      assert steps[..|steps|] == steps;
      DisplayIsWanted(screen, Conversation(old(pendingSubmission), steps, rows, columns));
    }

    lemma DisplayIsWanted(screen: Screen, t: Talk)
      requires Valid() && Fits(screen) && InSync(screen) && Tells(t)
      ensures forall r, c :: 0 <= r < rows && 0 <= c < columns ==> screen.paint[r, c] == Display(t, rows, columns, r, c)
    {
    }

    /** One step, if it is in turn. */
    method Take(screen: Screen, step: Step, prompted: bool, ghost t: Talk) returns (nowPrompted: bool)
      requires Valid() && Fits(screen) && InSync(screen) && Tells(t) && prompted == t.typing.Some?
      requires t.typing.Some? ==> t.typing.value.Valid(columns - |PROMPT|)
      modifies this, cells, screen.paint
      ensures Valid() && InSync(screen) && Tells(Told(t, step, rows, columns))
      ensures nowPrompted == Told(t, step, rows, columns).typing.Some?
    {
      nowPrompted := prompted;
      match step {
        case Prompt =>
          if !prompted {
            WritePrompt(screen);
            nowPrompted := true;
          }
        case Typed(key) =>
          if prompted {
            nowPrompted := TakeKey(screen, key, t);
          }
        case Blink =>
          BlinkCursor(screen);
        case Output(text) =>
          if !prompted && (text != "" || !cursorVisible || row == rows - 1) {
            WriteOutputLine(screen, text);
          }
        case Reported(lines) =>
          if prompted && ("" !in lines || !cursorVisible) {
            Report(screen, lines);
          }
        case Cleared =>
          Clear(screen);
          nowPrompted := false;
      }
    }

    method TakeKey(screen: Screen, key: Key, ghost t: Talk) returns (nowPrompted: bool)
      requires Valid() && Fits(screen) && InSync(screen) && Tells(t) && t.typing.Some?
      requires t.typing.value.Valid(columns - |PROMPT|)
      modifies this, cells, screen.paint
      ensures Valid() && InSync(screen) && Tells(KeyTold(t, key, columns))
      ensures nowPrompted == KeyTold(t, key, columns).typing.Some?
    {
      nowPrompted := !IsEnter(key, previousWasCarriageReturn);
      PushKey(screen, key);
    }
  }
}
