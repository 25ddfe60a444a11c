# Quatro board model

A Dafny model of the Quatro game board of `quattuor-quinque-sex`: a 4x4
grid of fields, each empty or holding a game piece, with one validated
placement operation and a fixed text rendering.

- `QuatroBoard` (quatro/quatro_board.py) holds the class `Board` with its
  4x4 array `boardState`, the constructor, `Repr` (the `__repr__` loop) and
  `PutPiece` (`put_piece`). `PutPiece` is proved against the pure function
  `PutPieceResult`. That function makes the same checks in the same order:
  `pos` is a tuple, `pos` is a pair of ints, `piece` is a Piece, numpy accepts
  the index, the field is empty. Only then does it write. The lemmas beside it
  characterise each outcome both ways and prove that a failed call changes
  nothing, that a success fills exactly one field, and that a placed piece
  never moves.
- `BasicBoard` (quatro/board.py) is the earlier class: the same grid,
  constructor and rendering, with no placement.
- `Grid` gives the grid as a value: four rows of four `Cell`s, numpy's index
  normalisation (-4..-1 count from the far edge, anything outside -4..3 is an
  IndexError), a single-field update and the number of occupied fields.
- `Rendering` gives the text as a function of the rows: the header
  `"Game board state: \n"`, then one line per row (a blank, the four cell
  texts joined by `" | "`, a newline), with the rule
  `"------ ------ ------ ------\n"` before rows 1, 2 and 3.
- `Misc` is the `log_exceptions` decorator. It catches TypeError,
  ValueError, RuntimeError and IndexError and returns `None`. `put_piece`
  raises nothing else, so its callers always get `None`. The model's
  `PutPiece` still reports which outcome occurred.
- `Pieces` holds the piece: its 4-character `code` and the mutable
  `position` that a successful placement overwrites. `Cell` is `Empty` (the
  0 that `np.zeros` puts there) or `Holds(piece)`.

Arguments are modelled by their Python shape. `pos` is `NonTuple` or
`Tuple` of values, and each value is an `Int` or `NonInt`. `piece` is
`PieceObj` or `NonPiece`. This makes every `isinstance` branch reachable.

The model follows the code as written; in particular:

- There is no board-full check and no check against reusing a piece. The same
  piece can go onto two fields, and its `position` is overwritten.
- Coordinates -4..-1 are accepted, because numpy wraps them.
- Failures are the Python exceptions TypeError, ValueError, RuntimeError and
  IndexError, and the decorator swallows them.
- `piece.position` receives `pos` exactly as it was passed, negative
  coordinates included. It is not the normalised field index.
- There is no piece catalog, no scoring, no sets of available or taken
  pieces, and no probing, because none of them exist in the board code.

## Model

| member | source | states |
|---|---|---|
| Pieces.Piece.constructor | quatro/piece.py:9 | a piece carries its 4-character type code |
| Grid.EmptyGrid | quatro/quatro_board.py:14-15 | the initial grid is 4x4 and every one of its 16 fields is empty |
| Grid.EmptyGridHasNoPieces | quatro/quatro_board.py:14-15 | a fresh grid has zero occupied fields |
| Grid.NumpyIndex | quatro/quatro_board.py:42 | an index is accepted exactly when it lies in -4..3, and it selects position k mod 4 of the axis |
| Grid.Place | quatro/quatro_board.py:45 | after writing one field, that field holds the new cell and the other 15 fields are as before |
| Grid.CountAfterPlace | quatro/quatro_board.py:42-45 | putting a piece on an empty field raises the number of occupied fields by exactly one |
| QuatroBoard.Board.constructor | quatro/quatro_board.py:14-15 | a new board owns a fresh 4x4 array whose fields are all empty |
| QuatroBoard.Board.Repr | quatro/quatro_board.py:17-29 | the row loop that appends to `b` produces exactly the rendering of the current grid, and changes nothing |
| QuatroBoard.Board.ReprTwice | quatro/quatro_board.py:17-29 | two renderings with no change in between are identical |
| QuatroBoard.Board.PutPiece | quatro/quatro_board.py:31-46 | the outcome and the new grid are those of `PutPieceResult` on the old grid; only the selected field and the piece change; on success the piece's position is `pos` as given, otherwise it is untouched |
| QuatroBoard.PutPieceResult | quatro/quatro_board.py:32-46 | every outcome other than success leaves the grid unchanged, so placement is all-or-nothing; success needs a pair of ints and a Piece |
| QuatroBoard.NonTupleIsTypeError | quatro/quatro_board.py:33-34 | a `pos` that is not a tuple gives TypeError whatever `piece` is, and the grid is unchanged |
| QuatroBoard.MalformedPosIsValueError | quatro/quatro_board.py:36-37 | a tuple gives ValueError exactly when it is not a pair of ints, whatever `piece` is (this check comes before the piece check); the grid is unchanged |
| QuatroBoard.NonPieceIsTypeError | quatro/quatro_board.py:39-40 | with a pair of ints, the result is TypeError exactly when `piece` is not a Piece, before any index or occupancy check |
| QuatroBoard.OutOfRangeIsIndexError | quatro/quatro_board.py:42 | with a pair of ints and a Piece, the result is IndexError exactly when a coordinate lies outside -4..3 |
| QuatroBoard.OccupiedFieldIsRejected | quatro/quatro_board.py:42-43 | with valid arguments, the result is the occupied-field RuntimeError exactly when the selected field already holds a piece |
| QuatroBoard.SuccessfulPlacement | quatro/quatro_board.py:45-46 | success happens exactly when all checks pass and the selected field (r mod 4, c mod 4) is empty; then that field holds the piece, the other 15 fields are unchanged and the occupied count rises by one |
| QuatroBoard.PlacedPieceStays | quatro/quatro_board.py:10-11 | no placement, whatever its arguments, overwrites or moves a piece already on the board |
| QuatroBoard.SamePieceTwice | quatro/quatro_board.py:45-46 | reusing one piece is not rejected: on a fresh board, the same piece put on (0,0) and then on (1,1) succeeds both times |
| QuatroBoard.NegativeRowSelectsSameField | quatro/quatro_board.py:42-45 | a negative row r and the row r+4 select the same field, so once one has been filled the other is reported occupied |
| QuatroBoard.DecoratedPutPieceNeverRaises | quatro/game/misc.py:13-18 | each failure raises a class the decorator catches, so a caller of the decorated `put_piece` always gets `None` |
| Misc.Wrap | quatro/game/misc.py:9-18 | a normal return passes through; a caught exception class yields `None`; only an exception outside the four listed classes escapes, and it is the one the call raised |
| Rendering.Repeat | quatro/quatro_board.py:19 | `n * c` is n copies of the character c |
| Rendering.Separator | quatro/quatro_board.py:19 | the row separator is 28 characters long: four runs of six dashes, three blanks and a newline |
| Rendering.SeparatorText | quatro/quatro_board.py:19 | the row separator is exactly `"------ ------ ------ ------\n"` |
| Rendering.Blank | quatro/quatro_board.py:26 | an empty field is drawn as four spaces |
| Rendering.CellText | quatro/quatro_board.py:26 | every field is drawn with exactly 4 characters: its piece code, or the blank |
| Rendering.CellTexts | quatro/quatro_board.py:26 | the row's cell texts are those of its cells, in order |
| Rendering.JoinFour | quatro/quatro_board.py:26 | joining four parts puts the separator between each neighbouring pair and nowhere else |
| Rendering.Render | quatro/quatro_board.py:29 | every rendering starts with the header `"Game board state: \n"` |
| Rendering.RowLineLayout | quatro/quatro_board.py:25-27 | a row line is a blank, the four cell texts separated by space, bar, space, and a newline, 27 characters in all |
| Rendering.RowLines | quatro/quatro_board.py:21-26 | the loop visits the rows top to bottom and makes one line per row |
| Rendering.AppendRowLine | quatro/quatro_board.py:25-27 | the three appends for one row add exactly that row's line to the accumulator |
| Rendering.BodyStep | quatro/quatro_board.py:21-27 | one more loop iteration appends the separator (except for row 0) and then the row's line |
| Rendering.BodyOfFour | quatro/quatro_board.py:21-27 | after four rows the accumulator is row 0, then rows 1, 2 and 3 each preceded by the separator |
| Rendering.RenderLayout | quatro/quatro_board.py:17-29 | the rendering is the header, then four row lines with exactly three separators between them and none before row 0 |
| Rendering.RenderLength | quatro/quatro_board.py:17-29 | every rendering of a 4x4 board has length 19 + 4*27 + 3*28 |
| Rendering.EmptyRowLine | quatro/board.py:25 | a row of four empty fields is drawn as six blanks, a bar, six blanks, a bar, six blanks, a bar, five blanks and a newline |
| Rendering.EmptyBoardText | quatro/board.py:13-28 | the rendering of a fresh board is the header followed by four all-blank rows and the three separators |
| BasicBoard.Board.constructor | quatro/board.py:13-14 | a new board owns a fresh 4x4 array whose fields are all empty |
| BasicBoard.Board.Repr | quatro/board.py:16-28 | the row loop produces exactly the rendering of the current grid, and changes nothing |
| BasicBoard.Board.ReprTwice | quatro/board.py:16-28 | two renderings with no change in between are identical |

## Left out

- Logging in quatro/game/misc.py (`logging`, `coloredlogs`, the message text of each exception) is output. Only its effect is modelled: which exceptions are caught, and what the wrapper returns.
- Pieces.Piece.constructor: the model starts `position` at `None`, because the real class's initial value of that attribute is not shown.
- quatro/quatro_player.py is not part of this model. Its moves use `random.choice`, and it reads `piece_codes_available` and `board_fields_available`, which the board does not define.
- The real `Piece` class comes from a `quatro_piece` module that is not part of this model. Its constructor (`Piece(0, 1, 0, 0)`) and its truthiness are assumed, not modelled. The model's constructor takes the code directly. A stored piece is taken to be truthy, so the occupancy test means "the field is not empty".
- quatro/board.py imports its `Piece` from quatro/piece.py, which has no `code` attribute. Both boards are modelled with the same `Piece`. board.py never stores a piece, so its renderings in practice show only blanks.
- Python's `bool` is a subclass of `int`, so `isinstance(True, int)` holds and a bool coordinate passes the shape check. numpy then treats a bool as a mask, not as an index. `Value` has no bool case, so this path is not modelled.
- An int coordinate beyond numpy's 64-bit index range is modelled as an IndexError. numpy's exact exception for such values is not modelled.
- Element types other than piece-or-zero are not modelled, and neither are the other numpy dtype details.
- The `__main__` demo blocks are not modelled. They are output.
