/**
  Game pieces and the contents of one board cell.

  The `Piece` class that the board stores comes from a module that is not
  part of this model; only the two attributes the board touches are kept:
  the four-letter type `code` that rendering prints, and the `position`
  attribute that a successful placement overwrites.
*/
module Pieces {
  import opened Wrappers

  /** A piece type code: four characters, the initials of the four property values. */
  type Code = s: string | |s| == 4 witness "    "

  class Piece {
    /** The piece type code, e.g. "TBCH". */
    const code: Code
    /** The coordinates the piece was last placed at, exactly as they were passed in. */
    var position: Option<(int, int)>

    constructor (code: Code)
      ensures this.code == code && position == None
    {
      this.code := code;
      position := None;
    }
  }

  /**
    One field of the 4x4 board. The source fills the grid with the integer 0
    (falsy) and stores piece objects (truthy) on top of it; `Empty` is that 0.
  */
  datatype Cell = Empty | Holds(piece: Piece)
}
