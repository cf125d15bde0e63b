/**
What the console's command line is meant to be: a string and a cursor in it.
src/console.rs keeps neither; it edits a row of cells in place.
*/
module LineEditor {

  /** The half-width prompt "> " in front of every command line. */
  const PROMPT := "> "

  datatype Key =
    | Ascii(c: char)
    | Escape
    | ArrowLeft
    | ArrowRight
    | Home
    | End
    | Delete
    | Inert  // Ctrl with a letter, Up, Down, paging, Insert and function keys

  datatype Editor = Editor(line: string, cursor: nat) {
    predicate Valid(capacity: nat) {
      cursor <= |line| <= capacity
    }
  }

  const EMPTY := Editor("", 0)

  function Insert(e: Editor, c: char, capacity: nat): Editor
    requires e.Valid(capacity)
  {
    if |e.line| == capacity then e
    else Editor(e.line[..e.cursor] + [c] + e.line[e.cursor..], e.cursor + 1)
  }

  function InsertMany(e: Editor, c: char, times: nat, capacity: nat): Editor
    requires e.Valid(capacity)
    ensures InsertMany(e, c, times, capacity).Valid(capacity)
  {
    if times == 0 then e else Insert(InsertMany(e, c, times - 1, capacity), c, capacity)
  }

  function Remove(e: Editor): Editor
    requires e.cursor < |e.line|
  {
    e.(line := e.line[..e.cursor] + e.line[e.cursor + 1..])
  }

  function Backspace(e: Editor): Editor
    requires e.cursor <= |e.line|
  {
    if e.cursor == 0 then e else Remove(e.(cursor := e.cursor - 1))
  }

  predicate IsEnter(key: Key, afterReturn: bool) {
    key == Ascii('\r') || (key == Ascii('\n') && !afterReturn)
  }

  /** What a key other than Enter does to the line. Tab pads to the next screen column that is a
      multiple of four, counting the prompt. */
  function Press(e: Editor, key: Key, capacity: nat): Editor
    requires e.Valid(capacity)
  {
    match key
    case Ascii(c) =>
      if c == '\U{8}' || c == '\U{7f}' then Backspace(e)
      else if c == '\t' then InsertMany(e, ' ', 4 - (|PROMPT| + e.cursor) % 4, capacity)
      else if ' ' <= c <= '~' then Insert(e, c, capacity)
      else e
    case Escape => EMPTY
    case ArrowLeft => if e.cursor == 0 then e else e.(cursor := e.cursor - 1)
    case ArrowRight => if e.cursor == |e.line| then e else e.(cursor := e.cursor + 1)
    case Home => e.(cursor := 0)
    case End => e.(cursor := |e.line|)
    case Delete => if e.cursor < |e.line| then Remove(e) else e
    case Inert => e
  }

  // --- what the keys do to the text on either side of the cursor ----------------

  function Left(e: Editor): string
    requires e.cursor <= |e.line|
  {
    e.line[..e.cursor]
  }

  function Right(e: Editor): string
    requires e.cursor <= |e.line|
  {
    e.line[e.cursor..]
  }

  predicate AllSpaces(text: string) {
    forall i :: 0 <= i < |text| ==> text[i] == ' '
  }

  /** A key that erases to the left: the one or the other that terminals send. */
  predicate IsErase(key: Key) {
    key == Ascii('\U{8}') || key == Ascii('\U{7f}')
  }

  predicate IsPrintable(key: Key) {
    key.Ascii? && ' ' <= key.c <= '~'
  }

  /** How much stands before the next tab stop: stops are at multiples of four on the screen. */
  function StopsAfter(left: string): (length: nat)
    ensures |left| < length <= |left| + 4 && (|PROMPT| + length) % 4 == 0
  {
    (|PROMPT| + |left|) / 4 * 4 + 4 - |PROMPT|
  }

  /** From `left` and `right` of the cursor to `newLeft` and `newRight`. Tab goes to the next
      stop, or as far as the row is long. */
  predicate KeyDoes(key: Key, left: string, right: string, newLeft: string, newRight: string, capacity: nat) {
    && (IsPrintable(key) ==>
          newRight == right && newLeft == if |left + right| < capacity then left + [key.c] else left)
    && (IsErase(key) ==> newRight == right && newLeft == if left == "" then "" else left[..|left| - 1])
    && (key.Delete? ==> newLeft == left && newRight == if right == "" then "" else right[1..])
    && (key.ArrowLeft? ==>
          newLeft + newRight == left + right && |newLeft| == if left == "" then 0 else |left| - 1)
    && (key.ArrowRight? ==>
          newLeft + newRight == left + right && |newLeft| == if right == "" then |left| else |left| + 1)
    && (key.Home? ==> newLeft == "" && newRight == left + right)
    && (key.End? ==> newLeft == left + right && newRight == "")
    && (key.Escape? ==> newLeft == "" && newRight == "")
    && (key == Ascii('\t') ==>
          && newRight == right && left <= newLeft && AllSpaces(newLeft[|left|..])
          && |newLeft| == if StopsAfter(left) < capacity - |right| then StopsAfter(left) else capacity - |right|)
    && (key.Inert? || (key.Ascii? && !IsPrintable(key) && !IsErase(key) && key.c != '\t') ==>
          newLeft == left && newRight == right)
  }

  lemma {:induction false} InsertManyPads(e: Editor, times: nat, capacity: nat)
    requires e.Valid(capacity)
    ensures var padded := InsertMany(e, ' ', times, capacity);
            && Right(padded) == Right(e) && Left(e) <= Left(padded) && AllSpaces(Left(padded)[|Left(e)|..])
            && padded.cursor - e.cursor == (if times < capacity - |e.line| then times else capacity - |e.line|)
  {
    if times > 0 {
      InsertManyPads(e, times - 1, capacity);
      var before := InsertMany(e, ' ', times - 1, capacity);
      InsertSides(before, ' ', capacity);
    }
  }

  lemma InsertSides(e: Editor, c: char, capacity: nat)
    requires e.Valid(capacity)
    ensures var typed := Insert(e, c, capacity);
            && typed.Valid(capacity) && Right(typed) == Right(e)
            && Left(typed) == if |e.line| < capacity then Left(e) + [c] else Left(e)
  {
  }

  lemma RemoveSides(e: Editor)
    requires e.cursor < |e.line|
    ensures Left(Remove(e)) == Left(e) && Right(Remove(e)) == Right(e)[1..]
  {
  }

  /** Every key does to the text on either side of the cursor what its name says. */
  lemma PressDoes(e: Editor, key: Key, capacity: nat)
    requires e.Valid(capacity)
    ensures var after := Press(e, key, capacity);
            && after.Valid(capacity) && KeyDoes(key, Left(e), Right(e), Left(after), Right(after), capacity)
  {
    if key == Ascii('\t') {
      TabDoes(e, capacity);
    } else if IsErase(key) {
      EraseDoes(e, key, capacity);
    } else if IsPrintable(key) || key.Delete? {
      TypeDoes(e, key, capacity);
    } else {
      SidesOfMoves(e, key, capacity);
    }
  }

  lemma TabDoes(e: Editor, capacity: nat)
    requires e.Valid(capacity)
    ensures var after := Press(e, Ascii('\t'), capacity);
            && after.Valid(capacity) && KeyDoes(Ascii('\t'), Left(e), Right(e), Left(after), Right(after), capacity)
  {
    InsertManyPads(e, 4 - (|PROMPT| + e.cursor) % 4, capacity);
    assert StopsAfter(Left(e)) == e.cursor + (4 - (|PROMPT| + e.cursor) % 4);
  }

  lemma EraseDoes(e: Editor, key: Key, capacity: nat)
    requires e.Valid(capacity) && IsErase(key)
    ensures var after := Press(e, key, capacity);
            && after.Valid(capacity) && KeyDoes(key, Left(e), Right(e), Left(after), Right(after), capacity)
  {
    if e.cursor > 0 {
      RemoveSides(e.(cursor := e.cursor - 1));
      assert e.line[e.cursor - 1..][1..] == e.line[e.cursor..];
    }
  }

  lemma TypeDoes(e: Editor, key: Key, capacity: nat)
    requires e.Valid(capacity) && (IsPrintable(key) || key.Delete?)
    ensures var after := Press(e, key, capacity);
            && after.Valid(capacity) && KeyDoes(key, Left(e), Right(e), Left(after), Right(after), capacity)
  {
    assert |Left(e) + Right(e)| == |e.line|;
    if key.Ascii? {
      InsertSides(e, key.c, capacity);
    } else if e.cursor < |e.line| {
      RemoveSides(e);
    }
  }

  lemma SidesOfMoves(e: Editor, key: Key, capacity: nat)
    requires e.Valid(capacity) && !IsPrintable(key) && key != Ascii('\t') && !IsErase(key) && !key.Delete?
    ensures var after := Press(e, key, capacity);
            && after.Valid(capacity) && KeyDoes(key, Left(e), Right(e), Left(after), Right(after), capacity)
  {
    var after := Press(e, key, capacity);
    assert Left(e) + Right(e) == e.line && Left(after) + Right(after) == after.line;
  }

  /** Away from the ends of the line, each arrow undoes the other. */
  lemma ArrowsUndo(e: Editor, capacity: nat)
    requires e.Valid(capacity)
    ensures e.cursor > 0 ==> Press(Press(e, ArrowLeft, capacity), ArrowRight, capacity) == e
    ensures e.cursor < |e.line| ==> Press(Press(e, ArrowRight, capacity), ArrowLeft, capacity) == e
  {
  }

  /** Backspace undoes a typed character, and Delete after moving left undoes it too, wherever the
      cursor stands, unless the full line refused the character. */
  lemma EditsUndoInsert(e: Editor, c: char, capacity: nat)
    requires e.Valid(capacity) && ' ' <= c <= '~'
    ensures var typed := Press(e, Ascii(c), capacity);
            && typed.Valid(capacity)
            && (|e.line| < capacity <==> typed != e)
            && (typed != e ==>
                && Press(typed, Ascii('\U{8}'), capacity) == e
                && Press(Press(typed, ArrowLeft, capacity), Delete, capacity) == e)
  {
    var typed := Insert(e, c, capacity);
    if |e.line| < capacity {
      assert |typed.line| == |e.line| + 1;
      assert typed.line[..e.cursor] + typed.line[e.cursor + 1..] == e.line;
    }
  }
}
