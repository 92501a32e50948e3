/**
 The 3x3 tic-tac-toe board.

 The grid is stored as `state[x][y]`, where `x` is the column and `y` the row
 of the board as drawn in `map_position`'s docstring diagram, so position `p`
 (0..8, numbered row by row in that diagram) lives at
 `(x, y) = (p % 3, p / 3)`. (`display` prints `state[x]` as one line, so there
 `x` is the row.) A negative cell is empty,
 `0` is O and `1` is X. The queries are functions over a value copy of the grid
 (`Grid`); the class `Board` holds the array and changes it in place.
 */
module Board {
  import opened Wrappers

  /** Number of rows and of columns. */
  const Dimension := 3

  /** The value every cell starts with. */
  const Empty := -1

  /** Array indices `(x, y)` of a cell. */
  datatype Coord = Coord(x: int, y: int)

  predicate OnBoard(c: Coord)
  {
    0 <= c.x < Dimension && 0 <= c.y < Dimension
  }

  /** Index of a cell when the array is traversed row-major (`x` outer, `y` inner). */
  function StorageIndex(c: Coord): int
  {
    Dimension * c.x + c.y
  }

  /** Cells listed in strictly increasing row-major order (so also without repetition). */
  predicate RowMajor(cs: seq<Coord>)
  {
    forall i, j :: 0 <= i < j < |cs| ==> StorageIndex(cs[i]) < StorageIndex(cs[j])
  }

  /** A value copy of the grid, indexed `g[x][y]`. */
  type Grid = seq<seq<int>>

  predicate IsGrid(g: Grid)
  {
    |g| == Dimension && forall x :: 0 <= x < Dimension ==> |g[x]| == Dimension
  }

  predicate IsEmptyAt(g: Grid, c: Coord)
    requires IsGrid(g)
  {
    OnBoard(c) && g[c.x][c.y] < 0
  }

  ghost predicate HasEmptyCell(g: Grid)
    requires IsGrid(g)
  {
    exists c :: IsEmptyAt(g, c)
  }

  /** The grid of a freshly constructed board: every cell empty. */
  function FreshGrid(): (g: Grid)
    ensures IsGrid(g)
    ensures forall c :: OnBoard(c) ==> IsEmptyAt(g, c) && g[c.x][c.y] == Empty
  {
    [[Empty, Empty, Empty], [Empty, Empty, Empty], [Empty, Empty, Empty]]
  }

  /** Two grids that agree on every cell are equal. */
  lemma GridsEqual(g: Grid, h: Grid)
    requires IsGrid(g) && IsGrid(h)
    requires forall x, y :: 0 <= x < Dimension && 0 <= y < Dimension ==> g[x][y] == h[x][y]
    ensures g == h
  {
    forall x | 0 <= x < Dimension ensures g[x] == h[x] {
      assert forall y :: 0 <= y < Dimension ==> g[x][y] == h[x][y];
    }
  }

  /** The grid with one cell overwritten. */
  function SetCell(g: Grid, c: Coord, v: int): (h: Grid)
    requires IsGrid(g) && OnBoard(c)
  {
    g[c.x := g[c.x][c.y := v]]
  }

  // ---------------------------------------------------------------------------
  // Positions and coordinates
  // ---------------------------------------------------------------------------

  /**
   `map_position`: the coordinates of a position. Position -2 raises
   `ValueError`; 0..8 map onto the board; every other position falls through
   to the last branch and lands on the cell of position 8.
   */
  function MapPosition(position: int): (r: Result<Coord>)
    ensures r.Err? <==> position == -2
    ensures r.Ok? ==> OnBoard(r.value)
    ensures 0 <= position < 9 ==> r == Ok(Coord(position % 3, position / 3))
    ensures r.Ok? && !(0 <= position < 9) ==> r.value == Coord(2, 2)
  {
    if position == -2 then
      Err(InvalidPosition(position))
    else if -1 < position < 3 then
      Ok(Coord(if position == 0 then 0 else if position == 1 then 1 else 2, 0))
    else if 2 < position < 6 then
      Ok(Coord(if position == 3 then 0 else if position == 4 then 1 else 2, 1))
    else
      Ok(Coord(if position == 6 then 0 else if position == 7 then 1 else 2, 2))
  }

  /**
   The position of one coordinate pair, as the loop of `map_coordinates`
   computes it: a `y` or `x` other than 0 or 1 counts as 2.
   */
  function CoordinateToPosition(c: Coord): (p: int)
    ensures 0 <= p < 9
    ensures OnBoard(c) ==> p == Dimension * c.y + c.x
  {
    if c.y == 0 then
      (if c.x == 0 then 0 else if c.x == 1 then 1 else 2)
    else if c.y == 1 then
      (if c.x == 0 then 3 else if c.x == 1 then 4 else 5)
    else
      (if c.x == 0 then 6 else if c.x == 1 then 7 else 8)
  }

  /** Mapping a position to coordinates and back gives the position again. */
  lemma PositionRoundTrip(p: int)
    requires 0 <= p < 9
    ensures MapPosition(p).Ok?
    ensures CoordinateToPosition(MapPosition(p).value) == p
  {
  }

  /** Mapping coordinates to a position and back gives the coordinates again. */
  lemma CoordinateRoundTrip(c: Coord)
    requires OnBoard(c)
    ensures MapPosition(CoordinateToPosition(c)) == Ok(c)
  {
  }

  /**
   `map_coordinates`: the positions of a list of coordinates, in the same
   order; `[]` maps to `[]`.
   */
  method MapCoordinates(coordinates: seq<Coord>) returns (positions: seq<int>)
    ensures |positions| == |coordinates|
    ensures forall i :: 0 <= i < |coordinates| ==> positions[i] == CoordinateToPosition(coordinates[i])
    ensures forall i :: 0 <= i < |coordinates| ==> 0 <= positions[i] < 9
    ensures forall i :: 0 <= i < |coordinates| && OnBoard(coordinates[i]) ==>
              MapPosition(positions[i]) == Ok(coordinates[i])
  {
    positions := [];
    if coordinates == [] {
      return [];
    }
    var i := 0;
    while i < |coordinates|
      invariant 0 <= i <= |coordinates|
      invariant |positions| == i
      invariant forall k :: 0 <= k < i ==> positions[k] == CoordinateToPosition(coordinates[k])
    {
      positions := positions + [CoordinateToPosition(coordinates[i])];
      i := i + 1;
    }
    forall k | 0 <= k < |coordinates| && OnBoard(coordinates[k])
      ensures MapPosition(positions[k]) == Ok(coordinates[k])
    {
      CoordinateRoundTrip(coordinates[k]);
    }
  }

  // ---------------------------------------------------------------------------
  // Legal moves
  // ---------------------------------------------------------------------------

  /** Every cell of the board, in row-major order of the stored array. */
  function AllCells(): (cs: seq<Coord>)
    ensures forall c :: c in cs <==> OnBoard(c)
    ensures RowMajor(cs)
  {
    [Coord(0, 0), Coord(0, 1), Coord(0, 2),
     Coord(1, 0), Coord(1, 1), Coord(1, 2),
     Coord(2, 0), Coord(2, 1), Coord(2, 2)]
  }

  /** The empty cells among `cs`, keeping their order. */
  function EmptyCellsAmong(g: Grid, cs: seq<Coord>): (r: seq<Coord>)
    requires IsGrid(g)
    ensures forall c :: c in r <==> c in cs && IsEmptyAt(g, c)
    ensures RowMajor(cs) ==> RowMajor(r)
  {
    if cs == [] then
      []
    else
      var rest := EmptyCellsAmong(g, cs[1..]);
      if IsEmptyAt(g, cs[0]) then
        RowMajorPrepend(cs, rest);
        [cs[0]] + rest
      else
        rest
  }

  /** Putting the head of a row-major list in front of cells taken from its tail keeps row-major order. */
  lemma RowMajorPrepend(cs: seq<Coord>, rest: seq<Coord>)
    requires cs != []
    requires forall d :: d in rest ==> d in cs[1..]
    requires RowMajor(cs) ==> RowMajor(rest)
    ensures RowMajor(cs) ==> RowMajor([cs[0]] + rest)
  {
    if RowMajor(cs) {
      var s := [cs[0]] + rest;
      forall i, j | 0 <= i < j < |s| ensures StorageIndex(s[i]) < StorageIndex(s[j]) {
        if i == 0 {
          assert s[j] in cs[1..];
          var k :| 0 <= k < |cs[1..]| && cs[1..][k] == s[j];
          assert cs[k + 1] == s[j];
        } else {
          assert s[i] == rest[i - 1] && s[j] == rest[j - 1];
        }
      }
    }
  }

  /**
   The coordinates `np.where(state < 0)` yields: exactly the empty cells, in
   row-major order of the stored array.
   */
  function LegalCoordinates(g: Grid): (r: seq<Coord>)
    requires IsGrid(g)
    ensures forall c :: c in r <==> IsEmptyAt(g, c)
    ensures RowMajor(r)
  {
    EmptyCellsAmong(g, AllCells())
  }

  /** What `collect_legal_moves` returns: the `(-1, -1)` sentinel, or the list of coordinates. */
  datatype LegalMoves = NoLegalMoves | LegalAt(coordinates: seq<Coord>)

  /** `collect_legal_moves`. */
  function CollectLegalMoves(g: Grid): (r: LegalMoves)
    requires IsGrid(g)
    ensures r.NoLegalMoves? <==> !HasEmptyCell(g)
    ensures r.LegalAt? ==> r.coordinates != [] && RowMajor(r.coordinates)
    ensures r.LegalAt? ==> forall c :: c in r.coordinates <==> IsEmptyAt(g, c)
  {
    var coordinates := LegalCoordinates(g);
    if coordinates == [] then NoLegalMoves
    else
      assert IsEmptyAt(g, coordinates[0]);
      LegalAt(coordinates)
  }

  /**
   `legal_move`: -1 if no cell is empty; 9 if the position is the default -2;
   the position itself if the cell it maps to is empty; -1 otherwise.
   */
  function LegalMove(g: Grid, position: int := -2): (r: int)
    requires IsGrid(g)
    ensures !HasEmptyCell(g) ==> r == -1
    ensures HasEmptyCell(g) && position == -2 ==> r == 9
    ensures HasEmptyCell(g) && position != -2 && IsEmptyAt(g, MapPosition(position).value) ==> r == position
    ensures HasEmptyCell(g) && position != -2 && !IsEmptyAt(g, MapPosition(position).value) ==> r == -1
  {
    match CollectLegalMoves(g)
    case NoLegalMoves => -1
    case LegalAt(coordinates) =>
      if position == -2 then 9
      else if MapPosition(position).value in coordinates then position
      else -1
  }

  /** The default query is negative exactly when the board is full. */
  lemma LegalMoveDefaultIffFull(g: Grid)
    requires IsGrid(g)
    ensures LegalMove(g) < 0 <==> !HasEmptyCell(g)
    ensures LegalMove(g) >= 0 ==> LegalMove(g) == 9
  {
  }

  /** For a position on the board, the query answers the position exactly when its cell is empty. */
  lemma LegalMoveOnBoard(g: Grid, p: int)
    requires IsGrid(g) && 0 <= p < 9
    ensures LegalMove(g, p) == (if g[p % 3][p / 3] < 0 then p else -1)
  {
    if g[p % 3][p / 3] < 0 {
      assert IsEmptyAt(g, Coord(p % 3, p / 3));
    }
  }

  /** On a fresh board every position is legal and the default query answers 9. */
  lemma FreshBoardAllLegal()
    ensures forall p :: 0 <= p < 9 ==> LegalMove(FreshGrid(), p) == p
    ensures LegalMove(FreshGrid()) == 9
  {
  }

  // ---------------------------------------------------------------------------
  // Placing a piece
  // ---------------------------------------------------------------------------

  /** What `add_piece` does to a grid: its outcome (a return value or an exception) and the new grid. */
  datatype Placement = Placement(status: Result<int>, grid: Grid)

  /**
   `add_piece` on a value copy of the grid. It consults `legal_move` first:
   -1 returns 0 and changes nothing; otherwise it maps the position (raising
   for -2) and writes the piece into that one cell, returning 1.
   */
  function Place(g: Grid, piece: int, position: int): (r: Placement)
    requires IsGrid(g)
    ensures IsGrid(r.grid)
    ensures r.status == Ok(0) || r.status == Ok(1) || r.status.Err?
    ensures r.status.Err? <==> position == -2 && HasEmptyCell(g)
    ensures r.status == Ok(1) <==>
              position != -2 && position != -1 && IsEmptyAt(g, MapPosition(position).value)
    ensures r.status != Ok(1) ==> r.grid == g
    ensures r.status == Ok(1) ==>
              var c := MapPosition(position).value;
              r.grid[c.x][c.y] == piece &&
              forall d :: OnBoard(d) && d != c ==> r.grid[d.x][d.y] == g[d.x][d.y]
  {
    var legalPosition := LegalMove(g, position);
    if legalPosition == -1 then
      Placement(Ok(0), g)
    else
      match MapPosition(position)
      case Err(e) => Placement(Err(e), g)
      case Ok(c) => Placement(Ok(1), SetCell(g, c, piece))
  }

  /** The three outcomes of `Place`, one per branch, for use inside the method that updates the array. */
  lemma PlaceSteps(g: Grid, piece: int, position: int)
    requires IsGrid(g)
    ensures LegalMove(g, position) == -1 ==> Place(g, piece, position) == Placement(Ok(0), g)
    ensures LegalMove(g, position) != -1 && position == -2 ==>
              Place(g, piece, position) == Placement(Err(InvalidPosition(-2)), g)
    ensures LegalMove(g, position) != -1 && position != -2 ==>
              Place(g, piece, position) == Placement(Ok(1), SetCell(g, MapPosition(position).value, piece))
  {
  }

  /**
   On a position 0..8: an empty target receives the piece at
   `(p % 3, p / 3)`, every other position keeps its value, and 1 is returned;
   an occupied target returns 0 and leaves the grid as it was.
   */
  lemma PlaceOnBoard(g: Grid, piece: int, p: int)
    requires IsGrid(g) && 0 <= p < 9
    ensures g[p % 3][p / 3] < 0 ==>
              Place(g, piece, p).status == Ok(1) &&
              Place(g, piece, p).grid[p % 3][p / 3] == piece &&
              forall q :: 0 <= q < 9 && q != p ==>
                Place(g, piece, p).grid[q % 3][q / 3] == g[q % 3][q / 3]
    ensures g[p % 3][p / 3] >= 0 ==> Place(g, piece, p) == Placement(Ok(0), g)
  {
  }

  /**
   Any position outside 0..8 other than -1 and -2 behaves exactly like
   position 8: it is mapped onto the bottom-right cell.
   */
  lemma PlaceOutOfRangeActsAsLastCell(g: Grid, piece: int, position: int)
    requires IsGrid(g)
    requires position >= 9 || position <= -3
    ensures Place(g, piece, position) == Place(g, piece, 8)
  {
  }

  /** Position -1 never places anything: the query returns -1 whether or not the mapped cell is empty. */
  lemma PlaceMinusOneNeverWrites(g: Grid, piece: int)
    requires IsGrid(g)
    ensures Place(g, piece, -1) == Placement(Ok(0), g)
  {
  }

  /** Position -2 raises `ValueError` while a cell is empty, and returns 0 on a full board. */
  lemma PlaceUnspecified(g: Grid, piece: int)
    requires IsGrid(g)
    ensures Place(g, piece, -2) ==
              if HasEmptyCell(g) then Placement(Err(InvalidPosition(-2)), g) else Placement(Ok(0), g)
  {
  }

  // ---------------------------------------------------------------------------
  // Display label
  // ---------------------------------------------------------------------------

  /** `piece`: the label of a cell value: blank for empty, X for positive, O for 0. */
  function Piece(value: int): (s: string)
    ensures |s| == 1
    ensures s == " " <==> value < 0
    ensures s == "X" <==> value > 0
    ensures s == "O" <==> value == 0
  {
    if value < 0 then " "
    else if value > 0 then "X"
    else "O"
  }

  /** A cell is drawn blank exactly when it is a legal target. */
  lemma PieceBlankIffEmpty(g: Grid, c: Coord)
    requires IsGrid(g) && OnBoard(c)
    ensures Piece(g[c.x][c.y]) == " " <==> IsEmptyAt(g, c)
  {
  }

  // ---------------------------------------------------------------------------
  // The board object
  // ---------------------------------------------------------------------------

  class Board {
    /** The 3x3 grid, updated in place. */
    var state: array2<int>

    ghost predicate Valid()
      reads this
    {
      state.Length0 == Dimension && state.Length1 == Dimension
    }

    /** A value copy of the array. */
    function Cells(): (g: Grid)
      requires Valid()
      reads this, state
      ensures IsGrid(g)
      ensures forall x, y :: 0 <= x < Dimension && 0 <= y < Dimension ==> g[x][y] == state[x, y]
    {
      [[state[0, 0], state[0, 1], state[0, 2]],
       [state[1, 0], state[1, 1], state[1, 2]],
       [state[2, 0], state[2, 1], state[2, 2]]]
    }

    /** `Board()`: a 3x3 array with every cell set to -1. */
    constructor ()
      ensures Valid() && fresh(state)
      ensures Cells() == FreshGrid()
    {
      state := new int[Dimension, Dimension]((x, y) => Empty);
    }

    /** Stores `piece` in one cell of the array; the grid changes in that cell only. */
    method WriteCell(c: Coord, piece: int)
      requires Valid() && OnBoard(c)
      modifies state
      ensures Valid()
      ensures Cells() == SetCell(old(Cells()), c, piece)
    {
      ghost var before := Cells();
      state[c.x, c.y] := piece;
      ghost var after := SetCell(before, c, piece);
      forall x, y | 0 <= x < Dimension && 0 <= y < Dimension
        ensures Cells()[x][y] == after[x][y]
      {
        if x != c.x || y != c.y {
          assert state[x, y] == old(state[x, y]) == before[x][y];
        }
      }
      GridsEqual(Cells(), after);
    }

    /** `add_piece`: the array afterwards is the grid `Place` computes. */
    method AddPiece(piece: int, position: int) returns (r: Result<int>)
      requires Valid()
      modifies state
      ensures Valid()
      ensures r == Place(old(Cells()), piece, position).status
      ensures Cells() == Place(old(Cells()), piece, position).grid
    {
      ghost var before := Cells();
      PlaceSteps(before, piece, position);
      var legalPosition := LegalMove(Cells(), position);
      if legalPosition == -1 {
        return Ok(0);
      }
      match MapPosition(position)
      case Err(e) =>
        r := Err(e);
      case Ok(c) =>
        WriteCell(c, piece);
        r := Ok(1);
    }

    /**
     `random_legal_move`: -1 exactly when no cell is empty; otherwise some
     position 0..8 whose cell is empty (which one is not specified).
     */
    method RandomLegalMove() returns (p: int)
      requires Valid()
      ensures p == -1 <==> !HasEmptyCell(Cells())
      ensures p != -1 ==> 0 <= p < 9 && IsEmptyAt(Cells(), MapPosition(p).value)
    {
      match CollectLegalMoves(Cells())
      case NoLegalMoves =>
        p := -1;
      case LegalAt(coordinates) =>
        var positions := MapCoordinates(coordinates);
        if positions == [] {
          p := -1;
        } else {
          assert positions[0] in positions;
          p :| p in positions;
        }
    }
  }
}
