/** The console's glyph ids, font/src/console.rs. */
module Font {
  import opened Wrappers

  /** One byte naming the glyph in a cell. */
  type Id = i: nat | i < 256

  const BLANK: Id := 0
  const PLACEHOLDER: Id := 1

  predicate Printable(c: char) {
    ' ' <= c <= '~'
  }

  /** The cell for a character: every scalar takes exactly one. */
  function IdOf(c: char): Id {
    if c == ' ' then BLANK
    else if '!' <= c <= '~' then 2 + (c as int - '!' as int)
    else PLACEHOLDER
  }

  function Character(id: Id): Option<char> {
    if id < 2 || id > 95 then None else Some(('!' as int + (id - 2)) as char)
  }

  /** The byte a cell stands for when a typed line is read back out of the grid. */
  function AsciiOf(id: Id): char {
    if Character(id).Some? then Character(id).value else ' '
  }

  /** Reading a cell back gives the character typed into it exactly when that character was
      printable ASCII: anything else comes back as a space. */
  lemma TypedCharacterSurvives(c: char)
    ensures AsciiOf(IdOf(c)) == c <==> Printable(c)
    ensures !Printable(c) ==> AsciiOf(IdOf(c)) == ' '
    ensures IdOf(c) == BLANK <==> c == ' '
    ensures IdOf(c) == PLACEHOLDER <==> !Printable(c)
  {
  }

  /** Visible ASCII takes the ids 2 to 95, in order. */
  lemma GlyphsAreInOrder(c: char, d: char)
    requires '!' <= c < d <= '~'
    ensures 2 <= IdOf(c) < IdOf(d) <= 95 && IdOf(d) - IdOf(c) == d as int - c as int
  {
  }

  function Ids(text: string): (ids: seq<Id>)
    ensures |ids| == |text|
    ensures forall i :: 0 <= i < |text| ==> ids[i] == IdOf(text[i])
  {
    seq(|text|, i requires 0 <= i < |text| => IdOf(text[i]))
  }
}
