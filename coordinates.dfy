/**
 * The translation between a byte offset into a Vim buffer's text and Vim's
 * 1-based (line, column) addressing, with one byte counted for each line end.
 */
module Coordinates {
  import opened Bytes

  /** A 1-based Vim line number and 1-based byte column. */
  datatype Position = Position(line: int, col: int)

  /** The byte offset in `Join(lines)` at which line `k` (0-based) starts. */
  function LineStart(lines: seq<Text>, k: nat): nat
    requires k <= |lines|
  {
    if k == 0 then 0 else |lines[0]| + 1 + LineStart(lines[1..], k - 1)
  }

  /** A position that names a byte of a line or the end of that line. */
  predicate ValidPosition(lines: seq<Text>, p: Position)
  {
    1 <= p.line <= |lines| && 1 <= p.col <= |lines[p.line - 1]| + 1
  }

  /** The byte offset that position `p` denotes: the bytes of the lines above it, then `col - 1`. */
  function PositionOffset(lines: seq<Text>, p: Position): int
    requires 1 <= p.line <= |lines|
  {
    LineStart(lines, p.line - 1) + p.col - 1
  }

  /**
   * The position that View._offset_to_vim computes for `offset`: the first
   * line whose end (its bytes plus the newline) lies past `offset`, or else the
   * last line, with the column counted from where the scan stopped.
   */
  function VimPosition(lines: seq<Text>, offset: int): (p: Position)
    requires lines != []
    ensures 1 <= p.line <= |lines|
  {
    var width := |lines[0]| + 1;
    if offset < width then Position(1, offset + 1)
    else if |lines| == 1 then Position(1, offset - width + 1)
    else
      var below := VimPosition(lines[1..], offset - width);
      Position(below.line + 1, below.col)
  }

  /** The joined text is one byte shorter than the start of the line after the last. */
  lemma {:induction false} JoinLength(lines: seq<Text>)
    requires lines != []
    ensures |Join(lines)| + 1 == LineStart(lines, |lines|)
  {
    if |lines| > 1 {
      JoinLength(lines[1..]);
    }
  }

  /**
   * For every offset of the text and its end, the position is valid and
   * denotes that offset again: PositionOffset is a left inverse of VimPosition.
   */
  lemma {:induction false} VimPositionInRange(lines: seq<Text>, offset: int)
    requires lines != [] && 0 <= offset <= |Join(lines)|
    ensures ValidPosition(lines, VimPosition(lines, offset))
    ensures PositionOffset(lines, VimPosition(lines, offset)) == offset
  {
    JoinLength(lines);
    var width := |lines[0]| + 1;
    if offset >= width {
      var rest := lines[1..];
      JoinLength(rest);
      VimPositionInRange(rest, offset - width);
      var below := VimPosition(rest, offset - width);
      assert lines[below.line] == rest[below.line - 1];
    }
  }

  /** Every valid position is the one VimPosition assigns to the offset it denotes. */
  lemma {:induction false} VimPositionOfOffset(lines: seq<Text>, p: Position)
    requires ValidPosition(lines, p)
    ensures VimPosition(lines, PositionOffset(lines, p)) == p
  {
    if p.line > 1 {
      var rest := lines[1..];
      var above := Position(p.line - 1, p.col);
      assert rest[above.line - 1] == lines[p.line - 1];
      VimPositionOfOffset(rest, above);
    }
  }

  /**
   * An offset past the end of the text lands on the last line, at column
   * `offset - len(text)`: the scan has also counted the last line's newline.
   */
  lemma {:induction false} VimPositionPastEnd(lines: seq<Text>, offset: int)
    requires lines != [] && offset > |Join(lines)|
    ensures VimPosition(lines, offset) == Position(|lines|, offset - |Join(lines)|)
  {
    if |lines| > 1 {
      VimPositionPastEnd(lines[1..], offset - |lines[0]| - 1);
    }
  }

  /**
   * The position of a byte of the text names that very byte: a byte of its
   * line, or the column just past the line when the byte is the newline.
   */
  lemma {:induction false} VimPositionNamesByte(lines: seq<Text>, offset: int)
    requires lines != [] && 0 <= offset < |Join(lines)|
    ensures var p := VimPosition(lines, offset);
            var line := lines[p.line - 1];
            || (1 <= p.col <= |line| && Join(lines)[offset] == line[p.col - 1])
            || (p.col == |line| + 1 && p.line < |lines| && Join(lines)[offset] == Newline)
  {
    var width := |lines[0]| + 1;
    if |lines| > 1 {
      var rest := lines[1..];
      assert Join(lines) == lines[0] + [Newline] + Join(rest);
      if offset >= width {
        VimPositionNamesByte(rest, offset - width);
        var below := VimPosition(rest, offset - width);
        assert lines[below.line] == rest[below.line - 1];
      }
    }
  }
}
