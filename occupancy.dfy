/**
 * The occupancy grid (com.mygdx.map.Map and com.mygdx.matrix.Map): one int
 * per cell, 0 for free and 1 for taken, addressed by pixel coordinates; a
 * coordinate off the map reads as 2 and a write there is ignored.
 *
 * `Board` is the value view used in specifications; `Grid` is the class over
 * a two-dimensional array that the game mutates.
 */
module Occupancy {
  import opened Settings

  const FREE: int := 0
  const TAKEN: int := 1
  const OUT_OF_MAP: int := 2

  datatype Board = Board(rows: nat, cols: nat, cells: seq<seq<int>>)
  {
    /** rows lists of cols cells each, as `new int[rows][cols]` allocates. */
    predicate Shaped()
    {
      |cells| == rows && forall i :: 0 <= i < rows ==> |cells[i]| == cols
    }

    /** The pixel point lies on the map: `0 <= x < MAP_WIDTH` and `0 <= y < MAP_HEIGHT`. */
    predicate InMap(x: int, y: int)
    {
      0 <= x < rows * CELL_SIZE && 0 <= y < cols * CELL_SIZE
    }

    /** Two in-map points address the same cell. */
    predicate SameCell(x: int, y: int, x': int, y': int)
    {
      x / CELL_SIZE == x' / CELL_SIZE && y / CELL_SIZE == y' / CELL_SIZE
    }

    /** Map.get: the cell holding the point, or 2 off the map. */
    function Read(x: int, y: int): int
      requires Shaped()
    {
      if InMap(x, y) then cells[x / CELL_SIZE][y / CELL_SIZE] else OUT_OF_MAP
    }

    /** Map.set: the board with the point's cell overwritten; unchanged off the map. */
    function Write(x: int, y: int, v: int): (b: Board)
      requires Shaped()
      ensures b.Shaped() && b.rows == rows && b.cols == cols
    {
      if InMap(x, y) then
        var i, j := x / CELL_SIZE, y / CELL_SIZE;
        Board(rows, cols, cells[i := cells[i][j := v]])
      else this
    }

    /** Every cell is free or taken, as map/Map.java's assertion on set keeps it. */
    predicate Binary()
      requires Shaped()
    {
      forall i, j :: 0 <= i < rows && 0 <= j < cols ==> cells[i][j] == FREE || cells[i][j] == TAKEN
    }
  }

  /** A freshly allocated board: every cell free. */
  function Empty(rows: nat, cols: nat): (b: Board)
    ensures b.Shaped() && b.rows == rows && b.cols == cols
    ensures forall x, y :: b.InMap(x, y) ==> b.Read(x, y) == FREE
    ensures forall x, y :: !b.InMap(x, y) ==> b.Read(x, y) == OUT_OF_MAP
  {
    Board(rows, cols, seq(rows, _ => seq(cols, _ => FREE)))
  }

  /** Reading after writing: the written cell holds the value, every other point reads as before. */
  lemma ReadAfterWrite(b: Board, x: int, y: int, v: int, x': int, y': int)
    requires b.Shaped()
    ensures b.Write(x, y, v).Read(x', y') ==
              if b.InMap(x, y) && b.InMap(x', y') && b.SameCell(x, y, x', y') then v else b.Read(x', y')
  {
  }

  /** A write off the map changes nothing. */
  lemma WriteOffMapIsNoop(b: Board, x: int, y: int, v: int)
    requires b.Shaped() && !b.InMap(x, y)
    ensures b.Write(x, y, v) == b
  {
  }

  /** On a board of free and taken cells, a read is 0, 1 or 2; writing 0 or 1 keeps the board so. */
  lemma BinaryReadsAndWrites(b: Board, x: int, y: int, v: int)
    requires b.Shaped() && b.Binary()
    ensures b.Read(x, y) in {FREE, TAKEN, OUT_OF_MAP}
    ensures v == FREE || v == TAKEN ==> b.Write(x, y, v).Binary()
  {
  }

  // ---------------------------------------------------------------- occupied cells

  function CountTaken(row: seq<int>): nat
  {
    if row == [] then 0 else (if row[0] == TAKEN then 1 else 0) + CountTaken(row[1..])
  }

  /** The number of taken cells on the board. */
  function Occupied(cells: seq<seq<int>>): nat
  {
    if cells == [] then 0 else CountTaken(cells[0]) + Occupied(cells[1..])
  }

  function Indicator(v: int): int { if v == TAKEN then 1 else 0 }

  lemma {:induction false} CountTakenUpdate(row: seq<int>, j: nat, v: int)
    requires j < |row|
    ensures CountTaken(row[j := v]) == CountTaken(row) - Indicator(row[j]) + Indicator(v)
  {
    if j > 0 {
      CountTakenUpdate(row[1..], j - 1, v);
      assert row[j := v][1..] == row[1..][j - 1 := v];
    }
  }

  lemma {:induction false} OccupiedUpdate(cells: seq<seq<int>>, i: nat, j: nat, v: int)
    requires i < |cells| && j < |cells[i]|
    ensures Occupied(cells[i := cells[i][j := v]]) == Occupied(cells) - Indicator(cells[i][j]) + Indicator(v)
  {
    if i == 0 {
      CountTakenUpdate(cells[0], j, v);
      assert cells[i := cells[i][j := v]][1..] == cells[1..];
    } else {
      OccupiedUpdate(cells[1..], i - 1, j, v);
      assert cells[i := cells[i][j := v]][1..] == cells[1..][i - 1 := cells[i][j := v]];
    }
  }

  /** Writing v over an in-map point changes the taken count by the cell's old and new value. */
  lemma OccupiedAfterWrite(b: Board, x: int, y: int, v: int)
    requires b.Shaped() && b.InMap(x, y)
    ensures Occupied(b.Write(x, y, v).cells) == Occupied(b.cells) - Indicator(b.Read(x, y)) + Indicator(v)
  {
    OccupiedUpdate(b.cells, x / CELL_SIZE, y / CELL_SIZE, v);
  }

  /**
   * A character's step from a taken cell to a free one (free the old cell,
   * then take the new one) leaves the number of taken cells unchanged.
   */
  lemma StepKeepsOccupied(b: Board, x: int, y: int, x': int, y': int)
    requires b.Shaped()
    requires b.Read(x, y) == TAKEN && b.Read(x', y') == FREE
    ensures Occupied(b.Write(x, y, FREE).Write(x', y', TAKEN).cells) == Occupied(b.cells)
  {
    var b1 := b.Write(x, y, FREE);
    OccupiedAfterWrite(b, x, y, FREE);
    ReadAfterWrite(b, x, y, FREE, x', y');
    OccupiedAfterWrite(b1, x', y', TAKEN);
  }

  /** The cases MapTest checks on a default 10 by 10 map. */
  lemma DefaultMapReads()
    ensures Empty(10, 10).Read(0, 0) == FREE
    ensures Empty(10, 10).Read(9 * CELL_SIZE, 9 * CELL_SIZE) == FREE
    ensures Empty(10, 10).Read(-CELL_SIZE, -CELL_SIZE) == OUT_OF_MAP
    ensures Empty(10, 10).Read(10 * CELL_SIZE, 10 * CELL_SIZE) == OUT_OF_MAP
    ensures Empty(10, 10).Write(0, 0, TAKEN).Read(0, 0) == TAKEN
  {
  }

  // ---------------------------------------------------------------- the mutable grid

  class Grid {
    const rows: nat
    const cols: nat
    const matrix: array2<int>
    /** The cells as a value, kept equal to the array's contents. */
    ghost var cells: seq<seq<int>>

    ghost predicate Valid()
      reads this, matrix
    {
      && matrix.Length0 == rows && matrix.Length1 == cols
      && Board(rows, cols, cells).Shaped()
      && forall i, j :: 0 <= i < rows && 0 <= j < cols ==> matrix[i, j] == cells[i][j]
    }

    ghost function Contents(): Board
      reads this
    {
      Board(rows, cols, cells)
    }

    /** The Map constructor: a rows by cols matrix with every cell set to 0. */
    constructor (rows: nat, cols: nat)
      ensures Valid() && fresh(matrix)
      ensures this.rows == rows && this.cols == cols
      ensures Contents() == Empty(rows, cols)
    {
      var m := new int[rows, cols];
      var i := 0;
      while i < rows
        invariant 0 <= i <= rows
        invariant forall a, c :: 0 <= a < i && 0 <= c < cols ==> m[a, c] == FREE
      {
        var j := 0;
        while j < cols
          invariant 0 <= j <= cols
          invariant forall a, c :: 0 <= a < i && 0 <= c < cols ==> m[a, c] == FREE
          invariant forall c :: 0 <= c < j ==> m[i, c] == FREE
        {
          m[i, j] := FREE;
          j := j + 1;
        }
        i := i + 1;
      }
      this.rows := rows;
      this.cols := cols;
      matrix := m;
      cells := Empty(rows, cols).cells;
    }

    /** matrix/Map.get: the cell under the point, 2 off the map. */
    method Get(x: int, y: int) returns (v: int)
      requires Valid()
      ensures v == Contents().Read(x, y)
    {
      if x < 0 || x >= rows * CELL_SIZE || y < 0 || y >= cols * CELL_SIZE {
        return OUT_OF_MAP;
      }
      v := matrix[x / CELL_SIZE, y / CELL_SIZE];
    }

    /** matrix/Map.set: overwrites the cell under the point; does nothing off the map. */
    method Set(x: int, y: int, v: int)
      requires Valid()
      modifies this, matrix
      ensures Valid()
      ensures Contents() == old(Contents()).Write(x, y, v)
    {
      if x < 0 || x >= rows * CELL_SIZE || y < 0 || y >= cols * CELL_SIZE {
        return;
      }
      var i, j := x / CELL_SIZE, y / CELL_SIZE;
      matrix[i, j] := v;
      cells := cells[i := cells[i][j := v]];
    }

    /** map/Map.get: the same read, for points on cell corners only; on a binary board it is 0, 1 or 2. */
    method GetAligned(x: int, y: int) returns (v: int)
      requires Valid()
      requires x % CELL_SIZE == 0 && y % CELL_SIZE == 0
      ensures v == Contents().Read(x, y)
      ensures Contents().Binary() ==> v == FREE || v == TAKEN || v == OUT_OF_MAP
    {
      v := Get(x, y);
      if Contents().Binary() {
        BinaryReadsAndWrites(Contents(), x, y, FREE);
      }
    }

    /** map/Map.set: the same write, for cell corners and the values 0 and 1 only; a binary board stays binary. */
    method SetAligned(x: int, y: int, v: int)
      requires Valid()
      requires x % CELL_SIZE == 0 && y % CELL_SIZE == 0
      requires v == FREE || v == TAKEN
      modifies this, matrix
      ensures Valid()
      ensures Contents() == old(Contents()).Write(x, y, v)
      ensures old(Contents()).Binary() ==> Contents().Binary()
    {
      if Contents().Binary() {
        BinaryReadsAndWrites(Contents(), x, y, v);
      }
      Set(x, y, v);
    }
  }
}
