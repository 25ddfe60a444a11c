/**
  The 4x4 board grid as a value: four rows of four cells, numpy-style index
  normalisation, single-cell update and the number of occupied cells.
*/
module Grid {
  import opened Wrappers
  import opened Pieces

  /** The board is of shape Size x Size. */
  const Size: int := 4

  /** Four rows of four cells each. */
  predicate WellFormed(g: seq<seq<Cell>>)
  {
    |g| == Size && forall i :: 0 <= i < Size ==> |g[i]| == Size
  }

  /** The grid `np.zeros((4, 4))` starts out as: every field empty. */
  function EmptyGrid(): (g: seq<seq<Cell>>)
    ensures WellFormed(g)
    ensures forall i, j :: 0 <= i < Size && 0 <= j < Size ==> g[i][j] == Empty
  {
    seq(Size, _ => seq(Size, _ => Empty))
  }

  /** The value of a 4x4 array, row by row. */
  function Snapshot(a: array2<Cell>): (g: seq<seq<Cell>>)
    reads a
    requires a.Length0 == Size && a.Length1 == Size
    ensures WellFormed(g)
    ensures forall i, j :: 0 <= i < Size && 0 <= j < Size ==> g[i][j] == a[i, j]
  {
    [[a[0, 0], a[0, 1], a[0, 2], a[0, 3]],
     [a[1, 0], a[1, 1], a[1, 2], a[1, 3]],
     [a[2, 0], a[2, 1], a[2, 2], a[2, 3]],
     [a[3, 0], a[3, 1], a[3, 2], a[3, 3]]]
  }

  /** Two grids are equal when they agree on every cell. */
  lemma Extensional(g: seq<seq<Cell>>, h: seq<seq<Cell>>)
    requires WellFormed(g) && WellFormed(h)
    requires forall i, j :: 0 <= i < Size && 0 <= j < Size ==> g[i][j] == h[i][j]
    ensures g == h
  {
    forall i | 0 <= i < Size
      ensures g[i] == h[i]
    {
      assert forall j :: 0 <= j < Size ==> g[i][j] == h[i][j];
    }
  }

  /**
    How numpy resolves one integer index into an axis of length Size:
    -Size..-1 count from the end, anything outside -Size..Size-1 is an IndexError.
  */
  function NumpyIndex(k: int): (r: Option<nat>)
    ensures r.Some? <==> -Size <= k < Size
    ensures r.Some? ==> r.value < Size && r.value == k % Size
  {
    if 0 <= k < Size then Some(k)
    else if -Size <= k < 0 then Some(k + Size)
    else None
  }

  /** `g` with the cell in row `i`, column `j` replaced by `c`. */
  function Place(g: seq<seq<Cell>>, i: nat, j: nat, c: Cell): (h: seq<seq<Cell>>)
    requires WellFormed(g) && i < Size && j < Size
    ensures WellFormed(h) && h[i][j] == c
    ensures forall i', j' :: 0 <= i' < Size && 0 <= j' < Size && (i' != i || j' != j) ==> h[i'][j'] == g[i'][j']
  {
    g[i := g[i][j := c]]
  }

  /** Number of non-empty cells in one row. */
  function CountInRow(row: seq<Cell>): (n: nat)
    ensures n <= |row|
  {
    if row == [] then 0
    else (if row[0].Empty? then 0 else 1) + CountInRow(row[1..])
  }

  /** Number of non-empty cells in the grid. */
  function Count(g: seq<seq<Cell>>): (n: nat)
    ensures (forall i :: 0 <= i < |g| ==> |g[i]| <= Size) ==> n <= Size * |g|
  {
    if g == [] then 0
    else CountInRow(g[0]) + Count(g[1..])
  }

  lemma {:induction false} CountInEmptyRow(row: seq<Cell>)
    requires forall j :: 0 <= j < |row| ==> row[j].Empty?
    ensures CountInRow(row) == 0
  {
    if row != [] {
      CountInEmptyRow(row[1..]);
    }
  }

  lemma {:induction false} CountInEmptyRows(g: seq<seq<Cell>>)
    requires forall i, j :: 0 <= i < |g| && 0 <= j < |g[i]| ==> g[i][j].Empty?
    ensures Count(g) == 0
  {
    if g != [] {
      CountInEmptyRow(g[0]);
      CountInEmptyRows(g[1..]);
    }
  }

  /** A fresh grid holds no piece at all. */
  lemma EmptyGridHasNoPieces()
    ensures Count(EmptyGrid()) == 0
  {
    CountInEmptyRows(EmptyGrid());
  }

  /** Filling one empty cell of a row raises its count by one. */
  lemma {:induction false} CountInRowAfterFill(row: seq<Cell>, j: nat, c: Cell)
    requires j < |row| && row[j].Empty? && !c.Empty?
    ensures CountInRow(row[j := c]) == CountInRow(row) + 1
  {
    if j > 0 {
      assert row[j := c][1..] == row[1..][j - 1 := c];
      CountInRowAfterFill(row[1..], j - 1, c);
    }
  }

  /** Replacing row `i` changes the grid count by the difference of the two row counts. */
  lemma {:induction false} CountAfterRowUpdate(g: seq<seq<Cell>>, i: nat, row: seq<Cell>)
    requires i < |g|
    ensures Count(g[i := row]) + CountInRow(g[i]) == Count(g) + CountInRow(row)
  {
    if i > 0 {
      assert g[i := row][1..] == g[1..][i - 1 := row];
      CountAfterRowUpdate(g[1..], i - 1, row);
    }
  }

  /** Putting a piece on an empty cell raises the number of occupied cells by exactly one. */
  lemma CountAfterPlace(g: seq<seq<Cell>>, i: nat, j: nat, c: Cell)
    requires WellFormed(g) && i < Size && j < Size
    requires g[i][j].Empty? && !c.Empty?
    ensures Count(Place(g, i, j, c)) == Count(g) + 1
  {
    CountInRowAfterFill(g[i], j, c);
    CountAfterRowUpdate(g, i, g[i][j := c]);
  }
}
