/**
 * The Reversi board as the server handles it: the disc codes, the 8x8 grid
 * indexed `board[y][x]`, the square records a turn's snapshot is stored as,
 * and the two ways the server writes into a board: replaying a snapshot
 * (last write wins) and placing one disc (nothing is flipped).
 */
module Board {
  import opened Wrappers

  /** Disc codes of a square. */
  const EMPTY: int := 0
  const DARK: int := 1
  const LIGHT: int := 2

  /** One cell of the board; `None` is a cell no record has written (`undefined`). */
  type Cell = Option<int>

  /** A board as a value, rows first: `g[y][x]`. */
  type Grid = seq<seq<Cell>>

  /** Eight rows of eight cells. */
  predicate IsGrid(g: Grid) {
    |g| == 8 && forall y :: 0 <= y < 8 ==> |g[y]| == 8
  }

  predicate OnBoard(x: int, y: int) {
    0 <= x < 8 && 0 <= y < 8
  }

  /** One stored square of a turn's snapshot. */
  datatype SquareRecord = SquareRecord(x: int, y: int, disc: Cell)

  predicate AllOnBoard(records: seq<SquareRecord>) {
    forall i :: 0 <= i < |records| ==> OnBoard(records[i].x, records[i].y)
  }

  /** Two grids that agree on every cell are the same grid. */
  lemma GridExtensionality(a: Grid, b: Grid)
    requires IsGrid(a) && IsGrid(b)
    requires forall y, x :: OnBoard(x, y) ==> a[y][x] == b[y][x]
    ensures a == b
  {
    forall y | 0 <= y < 8
      ensures a[y] == b[y]
    {
      assert forall x :: 0 <= x < 8 ==> a[y][x] == b[y][x];
    }
  }

  /** The freshly created board: eight rows of eight undefined cells. */
  function EmptyGrid(): (g: Grid)
    ensures IsGrid(g)
    ensures forall y, x :: OnBoard(x, y) ==> g[y][x] == None
  {
    seq(8, _ => seq(8, _ => None))
  }

  /** The board a new game starts from. */
  function InitialBoard(): (g: Grid)
    ensures IsGrid(g)
    ensures g[3][3] == Some(DARK) && g[4][4] == Some(DARK)
    ensures g[3][4] == Some(LIGHT) && g[4][3] == Some(LIGHT)
    ensures forall y, x :: OnBoard(x, y) && !(3 <= x <= 4 && 3 <= y <= 4) ==> g[y][x] == Some(EMPTY)
  {
    var E, D, L := Some(EMPTY), Some(DARK), Some(LIGHT);
    [ [E, E, E, E, E, E, E, E],
      [E, E, E, E, E, E, E, E],
      [E, E, E, E, E, E, E, E],
      [E, E, E, D, L, E, E, E],
      [E, E, E, L, D, E, E, E],
      [E, E, E, E, E, E, E, E],
      [E, E, E, E, E, E, E, E],
      [E, E, E, E, E, E, E, E] ]
  }

  /** Writes one cell; every other cell keeps its value (no disc is flipped). */
  function Put(g: Grid, x: int, y: int, c: Cell): (r: Grid)
    requires IsGrid(g) && OnBoard(x, y)
    ensures IsGrid(r)
    ensures r[y][x] == c
    ensures forall j, i :: OnBoard(i, j) && (i != x || j != y) ==> r[j][i] == g[j][i]
  {
    g[y := g[y][x := c]]
  }

  /** The board after writing each record's disc at its square, in order. */
  function Fill(g: Grid, records: seq<SquareRecord>): (r: Grid)
    requires IsGrid(g) && AllOnBoard(records)
    ensures IsGrid(r)
    decreases |records|
  {
    if records == [] then g
    else
      var s := records[|records| - 1];
      Put(Fill(g, records[..|records| - 1]), s.x, s.y, s.disc)
  }

  /** A square holds the disc of the last record written at it. */
  lemma {:induction false} FillLastWriteWins(g: Grid, records: seq<SquareRecord>, k: int)
    requires IsGrid(g) && AllOnBoard(records)
    requires 0 <= k < |records|
    requires forall j :: k < j < |records| ==> records[j].x != records[k].x || records[j].y != records[k].y
    ensures Fill(g, records)[records[k].y][records[k].x] == records[k].disc
  {
    var n := |records| - 1;
    if k < n {
      FillLastWriteWins(g, records[..n], k);
    }
  }

  /** A square that no record names keeps the value it had before. */
  lemma {:induction false} FillUntouched(g: Grid, records: seq<SquareRecord>, x: int, y: int)
    requires IsGrid(g) && AllOnBoard(records) && OnBoard(x, y)
    requires forall j :: 0 <= j < |records| ==> records[j].x != x || records[j].y != y
    ensures Fill(g, records)[y][x] == g[y][x]
  {
    if records != [] {
      FillUntouched(g, records[..|records| - 1], x, y);
    }
  }

  /** The disc that moves after `disc` has been placed. */
  function NextDisc(disc: int): (next: int)
    ensures next == DARK || next == LIGHT
    ensures next != disc
    ensures next == LIGHT <==> disc == DARK
  {
    if disc == DARK then LIGHT else DARK
  }

  /** Between the two colours the turn alternates; any other code hands the turn to DARK. */
  lemma NextDiscAlternates(disc: int)
    ensures disc == DARK || disc == LIGHT ==> NextDisc(NextDisc(disc)) == disc
    ensures disc != DARK && disc != LIGHT ==> NextDisc(NextDisc(disc)) == LIGHT
  {
  }

  /** A snapshot as stored: one record per square, rows first. */
  function Records(g: Grid): (records: seq<SquareRecord>)
    requires IsGrid(g)
    ensures |records| == 64 && AllOnBoard(records)
    ensures forall k :: 0 <= k < 64 ==> records[k].disc == g[records[k].y][records[k].x]
    ensures forall y, x :: OnBoard(x, y) ==> records[8 * y + x].x == x && records[8 * y + x].y == y
  {
    seq(64, k requires 0 <= k < 64 => SquareRecord(k % 8, k / 8, g[k / 8][k % 8]))
  }

  /** The value held by an 8x8 board array. */
  function Contents(board: array2<Cell>): (g: Grid)
    requires board.Length0 == 8 && board.Length1 == 8
    reads board
    ensures IsGrid(g)
    ensures forall y, x :: OnBoard(x, y) ==> g[y][x] == board[y, x]
  {
    seq(8, y requires 0 <= y < 8 reads board => seq(8, x requires 0 <= x < 8 reads board => board[y, x]))
  }

  /** Allocates the 8x8 board with every cell undefined. */
  method NewBoard() returns (board: array2<Cell>)
    ensures fresh(board) && board.Length0 == 8 && board.Length1 == 8
    ensures Contents(board) == EmptyGrid()
  {
    board := new Cell[8, 8]((_, _) => None);
    GridExtensionality(Contents(board), EmptyGrid());
  }

  /** Writes each record's disc into the board at its square, in order. */
  method FillBoard(board: array2<Cell>, records: seq<SquareRecord>)
    requires board.Length0 == 8 && board.Length1 == 8 && AllOnBoard(records)
    modifies board
    ensures Contents(board) == Fill(old(Contents(board)), records)
  {
    ghost var start := Contents(board);
    for i := 0 to |records|
      invariant Contents(board) == Fill(start, records[..i])
    {
      var s := records[i];
      ghost var before := Contents(board);
      board[s.y, s.x] := s.disc;
      assert records[..i + 1][..i] == records[..i];
      GridExtensionality(Contents(board), Put(before, s.x, s.y, s.disc));
    }
    assert records[..|records|] == records;
  }

  /** Places one disc on the board in place. */
  method PlaceDisc(board: array2<Cell>, x: int, y: int, disc: int)
    requires board.Length0 == 8 && board.Length1 == 8 && OnBoard(x, y)
    modifies board
    ensures Contents(board) == Put(old(Contents(board)), x, y, Some(disc))
  {
    ghost var before := Contents(board);
    board[y, x] := Some(disc);
    GridExtensionality(Contents(board), Put(before, x, y, Some(disc)));
  }
}
