/**
  The earlier board class: the same 4x4 grid of fields and the same text
  rendering, without a placement operation.
*/
module BasicBoard {
  import opened Pieces
  import Grid
  import Rendering

  class Board {
    /** `_board_state`: the 4x4 array of fields. */
    const boardState: array2<Cell>

    predicate Valid()
    {
      boardState.Length0 == Grid.Size && boardState.Length1 == Grid.Size
    }

    /** The grid's current contents, row by row. */
    function Rows(): (g: seq<seq<Cell>>)
      reads boardState
      requires Valid()
      ensures Grid.WellFormed(g)
    {
      Grid.Snapshot(boardState)
    }

    /** `np.zeros((4, 4), dtype=Piece)`: a board with every field empty. */
    constructor ()
      ensures Valid() && fresh(boardState)
      ensures Rows() == Grid.EmptyGrid()
    {
      boardState := new Cell[Grid.Size, Grid.Size]((_, _) => Empty);
      new;
      Grid.Extensional(Rows(), Grid.EmptyGrid());
    }

    /** `__repr__`: the board drawn as text, row by row; reads the board and changes nothing. */
    method Repr() returns (s: string)
      requires Valid()
      ensures s == Rendering.Render(Rows())
    {
      var b := "";
      var sep := Rendering.Separator();
      ghost var rows := Rows();
      ghost var lines := Rendering.RowLines(rows);
      for i := 0 to Grid.Size
        invariant b == Rendering.Body(lines[..i], sep)
      {
        if i != 0 {
          b := b + sep;
        }
        ghost var prefix := b;
        var row := [boardState[i, 0], boardState[i, 1], boardState[i, 2], boardState[i, 3]];
        b := b + " ";
        b := b + Rendering.Join(Rendering.CellTexts(row), " | ");
        b := b + "\n";
        Rendering.AppendRowLine(prefix, row);
        assert row == rows[i];
        Rendering.BodyStep(lines, sep, i);
      }
      assert lines[..Grid.Size] == lines;
      s := Rendering.Header + b;
    }

    /** Rendering is read-only: two renderings with nothing in between give the same text. */
    method ReprTwice() returns (first: string, second: string)
      requires Valid()
      ensures first == second
    {
      first := Repr();
      second := Repr();
    }
  }
}
