/**
  The text `Board.__repr__` produces, as a function of the grid's rows: a
  header line, then one line per row with a dashed rule between consecutive
  rows.
*/
module Rendering {
  import opened Pieces
  import Grid

  /** Python's `sep.join(parts)`. */
  function Join(parts: seq<string>, sep: string): string
  {
    if |parts| == 0 then ""
    else if |parts| == 1 then parts[0]
    else parts[0] + sep + Join(parts[1..], sep)
  }

  /** Joining four parts puts the separator between each neighbouring pair and nowhere else. */
  lemma JoinFour(a: string, b: string, c: string, d: string, sep: string)
    ensures Join([a, b, c, d], sep) == a + sep + b + sep + c + sep + d
  {
    assert [a, b, c, d][1..] == [b, c, d];
    assert [b, c, d][1..] == [c, d];
    assert [c, d][1..] == [d];
    assert Join([c, d], sep) == c + sep + d;
    assert Join([b, c, d], sep) == b + sep + (c + sep + d);
  }

  /** Python's `n * c` for a one-character string `c`. */
  function Repeat(c: char, n: nat): (s: string)
    ensures |s| == n && forall k :: 0 <= k < n ==> s[k] == c
  {
    seq(n, _ => c)
  }

  /** The first line of every rendering. */
  const Header: string := "Game board state: \n"

  /** `' '.join(4*(6*'-',)) + '\n'`: the rule drawn between two rows. */
  function Separator(): (s: string)
    ensures |s| == 28
  {
    var dashes := Repeat('-', 6);
    JoinFour(dashes, dashes, dashes, dashes, " ");
    Join([dashes, dashes, dashes, dashes], " ") + "\n"
  }

  /** The rule is four runs of six dashes separated by single blanks, then a newline. */
  lemma SeparatorText()
    ensures Separator() == "------ ------ ------ ------\n"
  {
  }

  /** `4*' '`: how an empty field is drawn. */
  function Blank(): (s: string)
    ensures s == "    "
  {
    var s := Repeat(' ', 4);
    assert s == "    ";
    s
  }

  /** `p.code if p else 4*' '`: a piece shows its code, an empty field shows blanks. */
  function CellText(c: Cell): (s: string)
    ensures |s| == 4
  {
    match c
    case Empty => Blank()
    case Holds(p) => p.code
  }

  /** The texts of the cells of one row, left to right. */
  function CellTexts(row: seq<Cell>): (ts: seq<string>)
    ensures |ts| == |row| && forall k :: 0 <= k < |row| ==> ts[k] == CellText(row[k])
  {
    seq(|row|, k requires 0 <= k < |row| => CellText(row[k]))
  }

  /** `' ' + ' | '.join(...) + '\n'`: one row of the board. */
  function RowLine(row: seq<Cell>): string
  {
    " " + Join(CellTexts(row), " | ") + "\n"
  }

  /** The line of every row, top to bottom. */
  function RowLines(rows: seq<seq<Cell>>): (ls: seq<string>)
    ensures |ls| == |rows| && forall k :: 0 <= k < |rows| ==> ls[k] == RowLine(rows[k])
  {
    seq(|rows|, k requires 0 <= k < |rows| => RowLine(rows[k]))
  }

  /**
    The accumulator `b` after the loop has appended `lines`: each line,
    preceded by `sep` for every line but the first.
  */
  function Body(lines: seq<string>, sep: string): string
    decreases |lines|
  {
    if lines == [] then ""
    else
      var k := |lines| - 1;
      Body(lines[..k], sep) + (if k == 0 then "" else sep) + lines[k]
  }

  /** `f"Game board state: \n{b}"`. */
  function Render(rows: seq<seq<Cell>>): (s: string)
    ensures |s| >= |Header| && s[..|Header|] == Header
  {
    Header + Body(RowLines(rows), Separator())
  }

  /** A row line is a blank, the four cell texts separated by " | ", and a newline: 27 characters. */
  lemma RowLineLayout(row: seq<Cell>)
    requires |row| == Grid.Size
    ensures RowLine(row) ==
      " " + CellText(row[0]) + " | " + CellText(row[1]) + " | " + CellText(row[2]) + " | " + CellText(row[3]) + "\n"
    ensures |RowLine(row)| == 27
  {
    var ts := CellTexts(row);
    assert ts == [ts[0], ts[1], ts[2], ts[3]];
    JoinFour(ts[0], ts[1], ts[2], ts[3], " | ");
  }

  /** The three appends the row loop makes add exactly one row line. */
  lemma AppendRowLine(b: string, row: seq<Cell>)
    ensures b + " " + Join(CellTexts(row), " | ") + "\n" == b + RowLine(row)
  {
  }

  /** One more line: the separator unless it is the first line, then the line itself. */
  lemma BodyStep(lines: seq<string>, sep: string, k: nat)
    requires k < |lines|
    ensures Body(lines[..k + 1], sep) == Body(lines[..k], sep) + (if k == 0 then "" else sep) + lines[k]
  {
    assert lines[..k + 1][..k] == lines[..k];
  }

  /** Four lines: the first, then each of the other three preceded by the separator. */
  lemma BodyOfFour(a: string, b: string, c: string, d: string, sep: string)
    ensures Body([a, b, c, d], sep) == a + sep + b + sep + c + sep + d
  {
    var lines := [a, b, c, d];
    assert lines[..0] == [] && lines[..4] == lines;
    BodyStep(lines, sep, 0);
    BodyStep(lines, sep, 1);
    BodyStep(lines, sep, 2);
    BodyStep(lines, sep, 3);
  }

  /**
    The whole rendering of a 4-row board: the header, row 0, and then rows 1,
    2 and 3 each preceded by the separator; no separator before row 0 or after row 3.
  */
  lemma RenderLayout(rows: seq<seq<Cell>>)
    requires |rows| == Grid.Size
    ensures Render(rows) ==
      Header + (RowLine(rows[0]) + Separator() + RowLine(rows[1]) + Separator() + RowLine(rows[2])
      + Separator() + RowLine(rows[3]))
  {
    var ls := RowLines(rows);
    assert ls == [RowLine(rows[0]), RowLine(rows[1]), RowLine(rows[2]), RowLine(rows[3])];
    BodyOfFour(RowLine(rows[0]), RowLine(rows[1]), RowLine(rows[2]), RowLine(rows[3]), Separator());
  }

  /**
    Every rendering of a 4x4 board has the same length: the header, four
    27-character row lines and three 28-character separators.
  */
  lemma RenderLength(rows: seq<seq<Cell>>)
    requires Grid.WellFormed(rows)
    ensures |Render(rows)| == |Header| + 4 * 27 + 3 * 28
  {
    RenderLayout(rows);
    assert |Separator()| == 28;
    RowLineLayout(rows[0]);
    RowLineLayout(rows[1]);
    RowLineLayout(rows[2]);
    RowLineLayout(rows[3]);
  }

  /** The line of a row with no piece on it. */
  lemma EmptyRowLine(row: seq<Cell>)
    requires |row| == Grid.Size && forall k :: 0 <= k < Grid.Size ==> row[k] == Empty
    ensures RowLine(row) == "      |      |      |     \n"
  {
    RowLineLayout(row);
  }

  /** The text of a board with no piece on it. */
  lemma EmptyBoardText()
    ensures Render(Grid.EmptyGrid()) ==
      "Game board state: \n"
      + ("      |      |      |     \n"
      + "------ ------ ------ ------\n"
      + "      |      |      |     \n"
      + "------ ------ ------ ------\n"
      + "      |      |      |     \n"
      + "------ ------ ------ ------\n"
      + "      |      |      |     \n")
  {
    var g := Grid.EmptyGrid();
    RenderLayout(g);
    SeparatorText();
    EmptyRowLine(g[0]);
    EmptyRowLine(g[1]);
    EmptyRowLine(g[2]);
    EmptyRowLine(g[3]);
  }
}
