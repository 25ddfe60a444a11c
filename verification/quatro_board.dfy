/**
  The Quatro board: a 4x4 grid of fields, each empty or holding a piece. A
  piece goes onto an empty field through `PutPiece`, which checks its
  arguments in a fixed order and writes nothing unless every check passes;
  a placed piece is never overwritten or moved.
*/
module QuatroBoard {
  import opened Wrappers
  import opened Pieces
  import Grid
  import Rendering
  import Misc

  /** A Python object given as a coordinate: an `int`, or an object of some other type. */
  datatype Value = Int(n: int) | NonInt

  /** The `pos` argument: an object that is not a tuple, or a tuple of objects. */
  datatype PosArg = NonTuple | Tuple(items: seq<Value>)

  /** The `piece` argument: a `Piece` instance, or an object of some other type. */
  datatype PieceArg = PieceObj(piece: Piece) | NonPiece

  /**
    How a `put_piece` call ends: normally, or with the exception it raises
    (`Occupied` is the RuntimeError for a field that already holds a piece).
  */
  datatype Outcome = Ok | TypeErr | ValueErr | Occupied | IndexErr

  /** The outcome of a placement together with the grid it leaves behind. */
  datatype Placement = Placement(outcome: Outcome, grid: seq<seq<Cell>>)

  /** The exception each outcome raises; `put_piece` itself returns `None`, here `()`. */
  function AsCall(o: Outcome): Misc.Call<()>
  {
    match o
    case Ok => Misc.Returned(())
    case TypeErr => Misc.Raised(Misc.TypeError)
    case ValueErr => Misc.Raised(Misc.ValueError)
    case Occupied => Misc.Raised(Misc.RuntimeError)
    case IndexErr => Misc.Raised(Misc.IndexError)
  }

  /** A tuple of exactly two ints. */
  predicate IsIntPair(pos: PosArg)
  {
    pos.Tuple? && |pos.items| == 2 && pos.items[0].Int? && pos.items[1].Int?
  }

  /** The two coordinates of a pair of ints, as given. */
  function Coordinates(pos: PosArg): (int, int)
    requires IsIntPair(pos)
  {
    (pos.items[0].n, pos.items[1].n)
  }

  /** The objects a placement may change: the piece, when it is one. */
  function Objects(piece: PieceArg): set<object>
  {
    if piece.PieceObj? then {piece.piece} else {}
  }

  /**
    The effect of `put_piece(piece, pos)` on grid `g`: the checks in the
    order the source makes them, then the write to the selected field.
  */
  function PutPieceResult(g: seq<seq<Cell>>, piece: PieceArg, pos: PosArg): (p: Placement)
    requires Grid.WellFormed(g)
    ensures Grid.WellFormed(p.grid)
    ensures p.outcome != Ok ==> p.grid == g
    ensures p.outcome == Ok ==> IsIntPair(pos) && piece.PieceObj?
  {
    if !pos.Tuple? then Placement(TypeErr, g)
    else if |pos.items| != 2 || exists v :: v in pos.items && !v.Int? then Placement(ValueErr, g)
    else if !piece.PieceObj? then Placement(TypeErr, g)
    else
      assert pos.items[0] in pos.items && pos.items[1] in pos.items;
      match (Grid.NumpyIndex(pos.items[0].n), Grid.NumpyIndex(pos.items[1].n))
      case (Some(i), Some(j)) =>
        if !g[i][j].Empty? then Placement(Occupied, g)
        else Placement(Ok, Grid.Place(g, i, j, Holds(piece.piece)))
      case _ => Placement(IndexErr, g)
  }

  /** Both coordinates of a pair of ints lie in -4..3, the indices numpy accepts on a 4x4 array. */
  predicate InRange(pos: PosArg)
    requires IsIntPair(pos)
  {
    var (r, c) := Coordinates(pos);
    -Grid.Size <= r < Grid.Size && -Grid.Size <= c < Grid.Size
  }

  /** The field an in-range pair selects: negative coordinates count from the far edge. */
  function Field(pos: PosArg): (nat, nat)
    requires IsIntPair(pos) && InRange(pos)
  {
    var (r, c) := Coordinates(pos);
    (r % Grid.Size, c % Grid.Size)
  }

  /** A `pos` that is not a tuple is a TypeError whatever `piece` is, and nothing changes. */
  lemma NonTupleIsTypeError(g: seq<seq<Cell>>, piece: PieceArg, pos: PosArg)
    requires Grid.WellFormed(g) && !pos.Tuple?
    ensures PutPieceResult(g, piece, pos) == Placement(TypeErr, g)
  {
  }

  /**
    A tuple is a ValueError exactly when it is not a pair of ints, whatever
    `piece` is (this check comes before the piece check), and nothing changes.
  */
  lemma MalformedPosIsValueError(g: seq<seq<Cell>>, piece: PieceArg, pos: PosArg)
    requires Grid.WellFormed(g) && pos.Tuple?
    ensures PutPieceResult(g, piece, pos).outcome == ValueErr <==> !IsIntPair(pos)
    ensures !IsIntPair(pos) ==> PutPieceResult(g, piece, pos).grid == g
  {
  }

  /**
    With a pair of ints, the result is a TypeError exactly when `piece` is not
    a Piece; this check comes before the index and occupancy checks.
  */
  lemma NonPieceIsTypeError(g: seq<seq<Cell>>, piece: PieceArg, pos: PosArg)
    requires Grid.WellFormed(g) && IsIntPair(pos)
    ensures PutPieceResult(g, piece, pos).outcome == TypeErr <==> !piece.PieceObj?
  {
  }

  /**
    With a pair of ints and a Piece, the result is an IndexError exactly when
    a coordinate lies outside -4..3 (the grid is then unchanged, by
    `PutPieceResult`'s contract).
  */
  lemma OutOfRangeIsIndexError(g: seq<seq<Cell>>, p: Piece, pos: PosArg)
    requires Grid.WellFormed(g) && IsIntPair(pos)
    ensures PutPieceResult(g, PieceObj(p), pos).outcome == IndexErr <==> !InRange(pos)
  {
  }

  /**
    With valid arguments, the result is the RuntimeError for an occupied field
    exactly when the selected field already holds a piece.
  */
  lemma OccupiedFieldIsRejected(g: seq<seq<Cell>>, p: Piece, pos: PosArg)
    requires Grid.WellFormed(g) && IsIntPair(pos) && InRange(pos)
    ensures var (i, j) := Field(pos);
      PutPieceResult(g, PieceObj(p), pos).outcome == Occupied <==> !g[i][j].Empty?
  {
  }

  /**
    A placement succeeds exactly when every check passes and the selected
    field is empty. It then puts the piece on that field, leaves the other 15
    fields as they were and raises the number of occupied fields by one.
    Whether the same piece already stands elsewhere plays no part.
  */
  lemma SuccessfulPlacement(g: seq<seq<Cell>>, piece: PieceArg, pos: PosArg)
    requires Grid.WellFormed(g)
    ensures var p := PutPieceResult(g, piece, pos);
      p.outcome == Ok <==>
        IsIntPair(pos) && piece.PieceObj? && InRange(pos) && g[Field(pos).0][Field(pos).1].Empty?
    ensures var p := PutPieceResult(g, piece, pos);
      p.outcome == Ok ==>
        var (i, j) := Field(pos);
        && p.grid[i][j] == Holds(piece.piece)
        && (forall i', j' :: 0 <= i' < Grid.Size && 0 <= j' < Grid.Size && (i', j') != (i, j) ==>
              p.grid[i'][j'] == g[i'][j'])
        && Grid.Count(p.grid) == Grid.Count(g) + 1
  {
    if IsIntPair(pos) {
      assert forall v :: v in pos.items ==> v.Int?;
      if piece.PieceObj? && InRange(pos) && g[Field(pos).0][Field(pos).1].Empty? {
        var (i, j) := Field(pos);
        Grid.CountAfterPlace(g, i, j, Holds(piece.piece));
      }
    }
  }

  /** Once placed, a piece is never overwritten or moved by a later placement. */
  lemma PlacedPieceStays(g: seq<seq<Cell>>, piece: PieceArg, pos: PosArg, i: nat, j: nat)
    requires Grid.WellFormed(g) && i < Grid.Size && j < Grid.Size && !g[i][j].Empty?
    ensures PutPieceResult(g, piece, pos).grid[i][j] == g[i][j]
  {
  }

  /**
    There is no check against reusing a piece: the same piece goes onto two
    fields of a fresh board, and both placements succeed.
  */
  lemma SamePieceTwice(p: Piece)
    ensures var first := PutPieceResult(Grid.EmptyGrid(), PieceObj(p), Tuple([Int(0), Int(0)]));
      var second := PutPieceResult(first.grid, PieceObj(p), Tuple([Int(1), Int(1)]));
      && first.outcome == Ok && second.outcome == Ok
      && second.grid[0][0] == Holds(p) && second.grid[1][1] == Holds(p)
  {
  }

  /**
    A negative row `r` and the row `r + 4` select the same field: once a piece
    is on it through one, placing through the other finds the field occupied.
  */
  lemma NegativeRowSelectsSameField(g: seq<seq<Cell>>, p: Piece, q: Piece, r: int, c: int)
    requires Grid.WellFormed(g) && -Grid.Size <= r < 0 && -Grid.Size <= c < Grid.Size
    ensures var first := PutPieceResult(g, PieceObj(p), Tuple([Int(r), Int(c)]));
      first.outcome == Ok ==>
        PutPieceResult(first.grid, PieceObj(q), Tuple([Int(r + Grid.Size), Int(c)])).outcome == Occupied
  {
  }

  /** Every way `put_piece` can fail raises a class the decorator catches, so its caller always gets `None`. */
  lemma DecoratedPutPieceNeverRaises(o: Outcome)
    ensures Misc.Wrap(AsCall(o), ()) == Misc.Returns(())
  {
  }

  class Board {
    /** `_board_state`: the 4x4 array of fields. */
    const boardState: array2<Cell>

    predicate Valid()
    {
      boardState.Length0 == Grid.Size && boardState.Length1 == Grid.Size
    }

    /** The grid's current contents, row by row. */
    function Rows(): (g: seq<seq<Cell>>)
      reads boardState
      requires Valid()
      ensures Grid.WellFormed(g)
    {
      Grid.Snapshot(boardState)
    }

    /** `np.zeros((4, 4), dtype=Piece)`: a board with every field empty. */
    constructor ()
      ensures Valid() && fresh(boardState)
      ensures Rows() == Grid.EmptyGrid()
    {
      boardState := new Cell[Grid.Size, Grid.Size]((_, _) => Empty);
      new;
      Grid.Extensional(Rows(), Grid.EmptyGrid());
    }

    /** `__repr__`: the board drawn as text, row by row; reads the board and changes nothing. */
    method Repr() returns (s: string)
      requires Valid()
      ensures s == Rendering.Render(Rows())
    {
      var b := "";
      var sep := Rendering.Separator();
      ghost var rows := Rows();
      ghost var lines := Rendering.RowLines(rows);
      for i := 0 to Grid.Size
        invariant b == Rendering.Body(lines[..i], sep)
      {
        if i != 0 {
          b := b + sep;
        }
        ghost var prefix := b;
        var row := [boardState[i, 0], boardState[i, 1], boardState[i, 2], boardState[i, 3]];
        b := b + " ";
        b := b + Rendering.Join(Rendering.CellTexts(row), " | ");
        b := b + "\n";
        Rendering.AppendRowLine(prefix, row);
        assert row == rows[i];
        Rendering.BodyStep(lines, sep, i);
      }
      assert lines[..Grid.Size] == lines;
      s := Rendering.Header + b;
    }

    /** Rendering is read-only: two renderings with nothing in between give the same text. */
    method ReprTwice() returns (first: string, second: string)
      requires Valid()
      ensures first == second
    {
      first := Repr();
      second := Repr();
    }

    /**
      `put_piece`: validate the arguments and, if all checks pass, put the
      piece on the selected field and record `pos` as its position. The
      decorator turns every failure into a `None` return (see
      `DecoratedPutPieceNeverRaises`); the outcome says which one occurred.
    */
    method PutPiece(piece: PieceArg, pos: PosArg) returns (outcome: Outcome)
      requires Valid()
      modifies boardState, Objects(piece)
      ensures outcome == PutPieceResult(old(Rows()), piece, pos).outcome
      ensures Rows() == PutPieceResult(old(Rows()), piece, pos).grid
      ensures piece.PieceObj? ==>
        piece.piece.position == if outcome == Ok then Some(Coordinates(pos)) else old(piece.piece.position)
    {
      if !pos.Tuple? {
        return TypeErr;
      }
      if |pos.items| != 2 || exists v :: v in pos.items && !v.Int? {
        return ValueErr;
      }
      if !piece.PieceObj? {
        return TypeErr;
      }
      assert pos.items[0] in pos.items && pos.items[1] in pos.items;
      var r, c := pos.items[0].n, pos.items[1].n;
      var i, j := Grid.NumpyIndex(r), Grid.NumpyIndex(c);
      if i.None? || j.None? {
        return IndexErr;
      }
      if !boardState[i.value, j.value].Empty? {
        return Occupied;
      }
      ghost var before := Rows();
      boardState[i.value, j.value] := Holds(piece.piece);
      piece.piece.position := Some((r, c));
      Grid.Extensional(Rows(), Grid.Place(before, i.value, j.value, Holds(piece.piece)));
      return Ok;
    }
  }
}
