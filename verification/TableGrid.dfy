/**
Placing table cells. The builder keeps one counter per column, the rows a cell
still hangs down from above, instead of the grid itself.
*/
module TableGrid {
  import opened Wrappers
  import opened DocumentTypes

  /** The grid squares under a cell once its spans are expanded. */
  predicate Covers(s: Square, row: nat, column: nat) {
    s.row <= row < s.row + s.rowspan && s.column <= column < s.column + s.colspan
  }

  ghost predicate Apart(a: Square, b: Square) {
    forall row: nat, column: nat :: !(Covers(a, row, column) && Covers(b, row, column))
  }

  predicate InColumns(s: Square) {
    s.rowspan >= 1 && s.colspan >= 1 && s.column + s.colspan <= MAX_TABLE_COLUMNS
  }

  function Clear(): Occupied {
    seq(MAX_TABLE_COLUMNS, _ => 0)
  }

  ghost predicate Taken(squares: set<Square>, row: nat, column: nat) {
    exists s :: s in squares && Covers(s, row, column)
  }

  /** The counters tell, for this row and every row below, exactly which squares are taken. */
  ghost predicate Tracks(occupied: Occupied, row: nat, squares: set<Square>) {
    && (forall s :: s in squares ==> InColumns(s) && s.row <= row)
    && forall r: nat, c: nat :: row <= r && c < MAX_TABLE_COLUMNS ==> (Taken(squares, r, c) <==> r < row + occupied[c])
  }

  /** The counters of the next row. */
  function NextRow(occupied: Occupied): Occupied {
    seq(MAX_TABLE_COLUMNS, c requires 0 <= c < MAX_TABLE_COLUMNS => if occupied[c] == 0 then 0 else occupied[c] - 1)
  }

  lemma NextRowTracks(occupied: Occupied, row: nat, squares: set<Square>)
    requires Tracks(occupied, row, squares)
    ensures Tracks(NextRow(occupied), row + 1, squares)
  {
    forall r: nat, c: nat | row + 1 <= r && c < MAX_TABLE_COLUMNS
      ensures Taken(squares, r, c) <==> r < row + 1 + NextRow(occupied)[c]
    {
      assert Taken(squares, r, c) <==> r < row + occupied[c];
    }
  }

  predicate IsClear(occupied: Occupied) {
    forall c :: 0 <= c < MAX_TABLE_COLUMNS ==> occupied[c] == 0
  }

  lemma ClearTracks(occupied: Occupied)
    requires IsClear(occupied)
    ensures Tracks(occupied, 0, {}) && IsClear(NextRow(occupied)) && Tracks(NextRow(occupied), 0, {})
  {
  }

  /** How many columns a cell may still take at `column`. */
  function Clamped(colspan: nat, column: nat): nat
    requires column <= MAX_TABLE_COLUMNS
  {
    if colspan < MAX_TABLE_COLUMNS - column then colspan else MAX_TABLE_COLUMNS - column
  }

  /** A cell of at most `colspan` columns has room at `column`. */
  ghost predicate Fits(occupied: Occupied, column: nat, colspan: nat) {
    && column < MAX_TABLE_COLUMNS
    && forall c :: column <= c < column + colspan && c < MAX_TABLE_COLUMNS ==> occupied[c] == 0
  }

  /** Where a cell goes: to the least column from `from` on with room for it, its span cut at the right
      edge; or nowhere, exactly when there is no such column. */
  ghost function Spot(occupied: Occupied, wanted: nat, from: nat): (spot: Option<(nat, nat)>)
    requires from <= MAX_TABLE_COLUMNS
    ensures spot.None? <==> forall c :: from <= c ==> !Fits(occupied, c, wanted)
    ensures spot.Some? ==>
              var (column, colspan) := spot.value;
              && from <= column && Fits(occupied, column, wanted)
              && (colspan == wanted || (colspan < wanted && column + colspan == MAX_TABLE_COLUMNS))
              && column + colspan <= MAX_TABLE_COLUMNS
              && forall c :: from <= c < column ==> !Fits(occupied, c, wanted)
    decreases MAX_TABLE_COLUMNS - from
  {
    if from == MAX_TABLE_COLUMNS then None
    else if Fits(occupied, from, wanted) then Some((from, Clamped(wanted, from)))
    else Spot(occupied, wanted, from + 1)
  }

  lemma SpotIsHere(occupied: Occupied, wanted: nat, column: nat)
    requires Fits(occupied, column, wanted) && forall c :: 0 <= c < column ==> !Fits(occupied, c, wanted)
    ensures Spot(occupied, wanted, 0) == Some((column, Clamped(wanted, column)))
  {
    var spot := Spot(occupied, wanted, 0);
    assert spot.value.0 == column;
  }

  /** Finds the cell's place. */
  method Place(occupied: Occupied, wanted: nat) returns (place: Option<(nat, nat)>)
    requires wanted >= 1
    ensures place == Spot(occupied, wanted, 0)
  {
    var column: nat, colspan := 0, wanted;
    while true
      invariant column <= MAX_TABLE_COLUMNS && Clamped(colspan, column) == Clamped(wanted, column)
      invariant forall c :: 0 <= c < column ==> !Fits(occupied, c, wanted)
      decreases MAX_TABLE_COLUMNS - column
    {
      while column < |occupied| && occupied[column] != 0
        invariant column <= MAX_TABLE_COLUMNS && Clamped(colspan, column) == Clamped(wanted, column)
        invariant forall c :: 0 <= c < column ==> !Fits(occupied, c, wanted)
      {
        assert !Fits(occupied, column, wanted);
        column := column + 1;
      }
      if column >= |occupied| {
        return None;
      }
      colspan := Clamped(colspan, column);
      var free := forall c :: column <= c < column + colspan ==> occupied[c] == 0;
      assert free == Fits(occupied, column, wanted);
      if free {
        SpotIsHere(occupied, wanted, column);
        return Some((column, colspan));
      }
      column := column + 1;
    }
  }

  function HangAt(occupied: Occupied, s: Square, c: nat): nat
    requires c < MAX_TABLE_COLUMNS
  {
    if s.column <= c < s.column + s.colspan then s.rowspan else occupied[c]
  }

  /** The counters once a cell hangs there. */
  function Hang(occupied: Occupied, s: Square): Occupied {
    seq(MAX_TABLE_COLUMNS, c requires 0 <= c < MAX_TABLE_COLUMNS => HangAt(occupied, s, c))
  }

  /** A cell placed where it fits overlaps nothing, and the counters go on telling the truth. */
  lemma HangTracks(occupied: Occupied, squares: set<Square>, s: Square, wanted: nat)
    requires Tracks(occupied, s.row, squares)
    requires InColumns(s) && Fits(occupied, s.column, wanted) && s.colspan == Clamped(wanted, s.column)
    ensures Tracks(Hang(occupied, s), s.row, squares + {s})
    ensures forall other :: other in squares ==> Apart(other, s)
  {
    forall r: nat, c: nat
      ensures Taken(squares + {s}, r, c) <==> Taken(squares, r, c) || Covers(s, r, c)
    {
      assert s in squares + {s};
      if Taken(squares, r, c) {
        var x :| x in squares && Covers(x, r, c);
        assert x in squares + {s};
      }
    }
    forall other, r: nat, c: nat | other in squares && Covers(s, r, c)
      ensures !Covers(other, r, c)
    {
      assert Taken(squares, r, c) <==> r < s.row + occupied[c];
    }
    forall r: nat, c: nat | s.row <= r && c < MAX_TABLE_COLUMNS
      ensures Taken(squares + {s}, r, c) <==> r < s.row + Hang(occupied, s)[c]
    {
      assert Taken(squares, r, c) <==> r < s.row + occupied[c];
    }
  }
}
