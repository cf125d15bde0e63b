/**
Tables own stretches of the row and cell lists, one table being built at a time.
Whatever its spans, no cell ever covers a square that another one covers.
*/
module TableList {
  import opened Wrappers
  import opened DocumentTypes
  import opened TableGrid
  import opened RunList

  /** No two cells of one table share a square, and no cell leaves the columns. */
  ghost predicate GridsApart(cells: seq<TableCell>) {
    && (forall i :: 0 <= i < |cells| ==> InColumns(cells[i].square))
    && forall i, j :: 0 <= i < j < |cells| && cells[i].table == cells[j].table ==>
         Apart(cells[i].square, cells[j].square)
  }

  /** A finished table's ranges hold exactly its cells and rows, and its measures contain them. */
  ghost predicate Told(t: nat, table: Table, rows: seq<TableRow>, cells: seq<TableCell>) {
    && table.firstCell + table.cellCount <= |cells| && table.firstRow + table.rowCount <= |rows|
    && (forall i :: 0 <= i < |cells| ==>
          (cells[i].table == t <==> table.firstCell <= i < table.firstCell + table.cellCount))
    && (forall i :: 0 <= i < |rows| ==> (rows[i].table == t <==> table.firstRow <= i < table.firstRow + table.rowCount))
    && (forall i :: 0 <= i < |cells| && cells[i].table == t ==>
          cells[i].square.row < table.rowCount && cells[i].square.column + cells[i].square.colspan <= table.columnCount)
    && (forall i :: 0 <= i < |rows| && rows[i].table == t ==> rows[i].number == i - table.firstRow)
  }

  function CurrentRow(b: TableBuild): nat {
    if b.row.Some? then b.row.value else 0
  }

  /** The table being built owns the last rows and cells; `placed` are the squares of its cells, the
      open one included, and its counters track them. */
  ghost predicate Building(b: TableBuild, rows: seq<TableRow>, cells: seq<TableCell>, placed: set<Square>) {
    && b.firstCell <= |cells| && b.firstRow <= |rows|
    && (forall i :: 0 <= i < |cells| ==> (cells[i].table == b.index <==> b.firstCell <= i))
    && (forall i :: 0 <= i < |rows| ==> (rows[i].table == b.index <==> b.firstRow <= i))
    && (forall i :: b.firstRow <= i < |rows| ==> rows[i].number == i - b.firstRow)
    && b.row == (if |rows| == b.firstRow then None else Some(|rows| - b.firstRow - 1))
    && (b.row.None? ==> placed == {} && IsClear(b.occupied))
    && Tracks(b.occupied, CurrentRow(b), placed)
    && (forall i :: b.firstCell <= i < |cells| ==> cells[i].square in placed)
    && (forall s :: s in placed ==> s.column + s.colspan <= b.columns)
    && (b.openCell.Some? ==>
          && b.row.Some? && b.openCell.value.square in placed
          && forall i :: b.firstCell <= i < |cells| ==> Apart(cells[i].square, b.openCell.value.square))
  }

  ghost predicate AllTold(count: nat, tables: seq<Table>, rows: seq<TableRow>, cells: seq<TableCell>)
    requires count <= |tables|
  {
    forall t :: 0 <= t < count ==> Told(t, tables[t], rows, cells)
  }

  ghost predicate Owned(tables: seq<Table>, rows: seq<TableRow>, cells: seq<TableCell>) {
    && (forall i :: 0 <= i < |cells| ==> cells[i].table < |tables|)
    && (forall i :: 0 <= i < |rows| ==> rows[i].table < |tables|)
  }

  ghost predicate TablesSound(tables: seq<Table>, rows: seq<TableRow>, cells: seq<TableCell>, open: Option<TableBuild>,
                              placed: set<Square>) {
    && GridsApart(cells) && Owned(tables, rows, cells)
    && (open.None? ==> AllTold(|tables|, tables, rows, cells))
    && (open.Some? ==>
          && open.value.index + 1 == |tables| && AllTold(open.value.index, tables, rows, cells)
          && Building(open.value, rows, cells, placed))
  }

  /** A table without rows. */
  function NewTable(index: nat, cells: nat, rows: nat): TableBuild {
    TableBuild(index, cells, rows, None, Body, Clear(), None, 0, 0, false)
  }

  lemma TableOpens(tables: seq<Table>, rows: seq<TableRow>, cells: seq<TableCell>, placed: set<Square>, b: TableBuild)
    requires TablesSound(tables, rows, cells, None, placed)
    requires b.index == |tables| && b.firstCell == |cells| && b.firstRow == |rows| && b.row.None? && b.openCell.None?
    requires IsClear(b.occupied)
    ensures TablesSound(tables + [Table(|cells|, 0, |rows|, 0, 0)], rows, cells, Some(b), {})
  {
    ClearTracks(b.occupied);
    forall t | 0 <= t < |tables|
      ensures Told(t, (tables + [Table(|cells|, 0, |rows|, 0, 0)])[t], rows, cells)
    {
      assert Told(t, tables[t], rows, cells);
    }
  }

  /** A record about one table is still true when another gains a row or a cell. */
  lemma ToldStill(t: nat, table: Table, rows: seq<TableRow>, cells: seq<TableCell>, moreRows: seq<TableRow>,
                  moreCells: seq<TableCell>)
    requires Told(t, table, rows, cells)
    requires forall i :: 0 <= i < |moreRows| ==> moreRows[i].table != t
    requires forall i :: 0 <= i < |moreCells| ==> moreCells[i].table != t
    ensures Told(t, table, rows + moreRows, cells + moreCells)
  {
    var allRows, allCells := rows + moreRows, cells + moreCells;
    forall i | 0 <= i < |allCells|
      ensures allCells[i].table == t <==> table.firstCell <= i < table.firstCell + table.cellCount
      ensures allCells[i].table == t ==>
                allCells[i].square.row < table.rowCount
                    && allCells[i].square.column + allCells[i].square.colspan <= table.columnCount
    {
      assert allCells[i] == if i < |cells| then cells[i] else moreCells[i - |cells|];
    }
    forall i | 0 <= i < |allRows|
      ensures allRows[i].table == t <==> table.firstRow <= i < table.firstRow + table.rowCount
      ensures allRows[i].table == t ==> allRows[i].number == i - table.firstRow
    {
      assert allRows[i] == if i < |rows| then rows[i] else moreRows[i - |rows|];
    }
  }

  /** The builder after `<tr>`. */
  function WithRow(b: TableBuild): TableBuild
  {
    b.(occupied := NextRow(b.occupied), row := Some(if b.row.Some? then b.row.value + 1 else 0))
  }

  lemma RowBegins(tables: seq<Table>, rows: seq<TableRow>, cells: seq<TableCell>, b: TableBuild, placed: set<Square>,
                  row: TableRow)
    requires TablesSound(tables, rows, cells, Some(b), placed) && b.openCell.None?
    requires row.table == b.index && row.number == WithRow(b).row.value
    ensures TablesSound(tables, rows + [row], cells, Some(WithRow(b)), placed)
  {
    forall t | 0 <= t < b.index
      ensures Told(t, tables[t], rows + [row], cells)
    {
      ToldStill(t, tables[t], rows, cells, [row], []);
      assert cells + [] == cells;
    }
    if b.row.Some? {
      NextRowTracks(b.occupied, b.row.value, placed);
    } else {
      ClearTracks(b.occupied);
    }
  }

  /** The builder with a cell hung at `cell.square`. */
  function WithCell(b: TableBuild, cell: OpenCell): TableBuild
  {
    var right := cell.square.column + cell.square.colspan;
    b.(occupied := Hang(b.occupied, cell.square), columns := if b.columns < right then right else b.columns,
       openCell := Some(cell))
  }

  /** Between cells. */
  function Between(b: TableBuild): TableBuild {
    b.(openCell := None)
  }

  /** Between cells, and in a row. */
  function Ready(b: TableBuild): TableBuild
  {
    if b.row.Some? then Between(b) else WithRow(Between(b))
  }

  lemma CellOpens(tables: seq<Table>, rows: seq<TableRow>, cells: seq<TableCell>, b: TableBuild, placed: set<Square>,
                  cell: OpenCell, wanted: nat)
    requires TablesSound(tables, rows, cells, Some(b), placed) && b.openCell.None? && b.row == Some(cell.square.row)
    requires InColumns(cell.square) && Fits(b.occupied, cell.square.column, wanted)
    requires cell.square.colspan == Clamped(wanted, cell.square.column)
    ensures TablesSound(tables, rows, cells, Some(WithCell(b, cell)), placed + {cell.square})
  {
    HangTracks(b.occupied, placed, cell.square, wanted);
  }

  lemma CellCloses(tables: seq<Table>, rows: seq<TableRow>, cells: seq<TableCell>, b: TableBuild, placed: set<Square>,
                   cell: TableCell)
    requires TablesSound(tables, rows, cells, Some(b), placed) && b.openCell.Some?
    requires cell.table == b.index && cell.square == b.openCell.value.square
    ensures TablesSound(tables, rows, cells + [cell], Some(b.(openCell := None)), placed)
  {
    forall t | 0 <= t < b.index
      ensures Told(t, tables[t], rows, cells + [cell])
    {
      ToldStill(t, tables[t], rows, cells, [], [cell]);
      assert rows + [] == rows;
    }
    var more := cells + [cell];
    forall i, j | 0 <= i < j < |more| && more[i].table == more[j].table
      ensures Apart(more[i].square, more[j].square)
    {
      if j == |cells| {
        assert more[i] == cells[i] && cells[i].table == b.index;
      }
    }
  }

  /** The record of a finished table. */
  function Finished(b: TableBuild, cells: nat): Table {
    Table(b.firstCell, SaturatingSub(cells, b.firstCell), b.firstRow, if b.row.Some? then b.row.value + 1 else 0,
          b.columns)
  }

  lemma TableCloses(tables: seq<Table>, rows: seq<TableRow>, cells: seq<TableCell>, b: TableBuild, placed: set<Square>)
    requires TablesSound(tables, rows, cells, Some(b), placed) && b.openCell.None?
    ensures TablesSound(tables[b.index := Finished(b, |cells|)], rows, cells, None, placed)
  {
    forall i | 0 <= i < |cells| && cells[i].table == b.index
      ensures cells[i].square.row <= CurrentRow(b) && cells[i].square.column + cells[i].square.colspan <= b.columns
              && b.row.Some?
    {
      assert cells[i].square in placed;
    }
    var closed := tables[b.index := Finished(b, |cells|)];
    forall t | 0 <= t < |closed|
      ensures Told(t, closed[t], rows, cells)
    {
      if t < b.index {
        assert Told(t, tables[t], rows, cells);
      }
    }
  }

  /** Whatever tables a page holds, expanding all spans puts at most one cell on each square. */
  lemma SquaresHoldOneCell(tables: seq<Table>, rows: seq<TableRow>, cells: seq<TableCell>, open: Option<TableBuild>,
                           placed: set<Square>, i: nat, j: nat, row: nat, column: nat)
    requires TablesSound(tables, rows, cells, open, placed)
    requires i < |cells| && j < |cells| && cells[i].table == cells[j].table
    requires Covers(cells[i].square, row, column) && Covers(cells[j].square, row, column)
    ensures i == j && column < MAX_TABLE_COLUMNS
  {
    assert i < j ==> Apart(cells[i].square, cells[j].square);
    assert j < i ==> Apart(cells[j].square, cells[i].square);
  }
}
