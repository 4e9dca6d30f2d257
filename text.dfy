/**
 * Byte strings and the conversion between a whole text and Vim's list of
 * lines: `'\n'.join(lines)` (View.get_text) and `text.split('\n')`
 * (View.set_text).
 */
module Bytes {

  newtype Byte = b: int | 0 <= b < 256

  /** A byte string; Vim buffer lines and shared-buffer contents are both texts. */
  type Text = seq<Byte>

  /** The line terminator `'\n'`, one byte wide. */
  const Newline: Byte := 10

  /** True when no element of `lines` contains a newline, as for the lines of a Vim buffer. */
  predicate NoNewlines(lines: seq<Text>)
  {
    forall i :: 0 <= i < |lines| ==> Newline !in lines[i]
  }

  /** Python's `'\n'.join(lines)`. */
  function Join(lines: seq<Text>): Text
  {
    if |lines| == 0 then []
    else if |lines| == 1 then lines[0]
    else lines[0] + [Newline] + Join(lines[1..])
  }

  /** Python's `t.split('\n')`: the pieces between the newlines of `t`, none holding a newline. */
  function Split(t: Text): (lines: seq<Text>)
    ensures |lines| >= 1
    ensures NoNewlines(lines)
  {
    if t == [] then [[]]
    else
      var rest := Split(t[1..]);
      if t[0] == Newline then [[]] + rest
      else [[t[0]] + rest[0]] + rest[1..]
  }

  /** The number of newlines in `t`. */
  function NewlineCount(t: Text): nat
  {
    if t == [] then 0 else (if t[0] == Newline then 1 else 0) + NewlineCount(t[1..])
  }

  /** `t.split('\n')` has exactly one more piece than `t` has newlines. */
  lemma {:induction false} SplitPieces(t: Text)
    ensures |Split(t)| == NewlineCount(t) + 1
  {
    if t != [] {
      SplitPieces(t[1..]);
    }
  }

  /** Joining the pieces of a split gives back the text: `'\n'.join(t.split('\n')) == t`. */
  lemma {:induction false} JoinSplit(t: Text)
    ensures Join(Split(t)) == t
  {
    if t != [] {
      var tail := t[1..];
      var rest := Split(tail);
      JoinSplit(tail);
      assert t == [t[0]] + tail;
      if t[0] == Newline {
        var lines := [[]] + rest;
        assert Split(t) == lines;
        assert lines[1..] == rest;
        assert Join(lines) == [] + [Newline] + Join(rest);
      } else {
        var first := [t[0]] + rest[0];
        var lines := [first] + rest[1..];
        assert Split(t) == lines;
        if |rest| == 1 {
          assert Join(lines) == first;
        } else {
          assert lines[1..] == rest[1..];
          assert Join(lines) == first + [Newline] + Join(rest[1..]);
          assert Join(rest) == rest[0] + [Newline] + Join(rest[1..]);
        }
      }
    }
  }

  /** Splitting a newline-free prefix onto a text glues it to the text's first piece. */
  lemma {:induction false} SplitAfterLine(line: Text, t: Text)
    requires Newline !in line
    ensures Split(line + t) == [line + Split(t)[0]] + Split(t)[1..]
  {
    if line == [] {
      var pieces := Split(t);
      assert line + t == t && line + pieces[0] == pieces[0];
      assert pieces == [pieces[0]] + pieces[1..];
    } else {
      var tail := line[1..];
      SplitAfterLine(tail, t);
      assert (line + t)[1..] == tail + t;
      assert [line[0]] + (tail + Split(t)[0]) == line + Split(t)[0];
    }
  }

  /** Splitting the join of newline-free lines gives the lines back (at least one line). */
  lemma {:induction false} SplitJoin(lines: seq<Text>)
    requires |lines| >= 1 && NoNewlines(lines)
    ensures Split(Join(lines)) == lines
  {
    if |lines| == 1 {
      SplitAfterLine(lines[0], []);
      assert lines[0] + [] == lines[0];
    } else {
      var rest := lines[1..];
      assert NoNewlines(rest) by {
        forall i | 0 <= i < |rest| ensures Newline !in rest[i] {
          assert rest[i] == lines[i + 1];
        }
      }
      SplitJoin(rest);
      var tail := [Newline] + Join(rest);
      assert Join(lines) == lines[0] + tail;
      assert tail[1..] == Join(rest);
      assert Split(tail) == [[]] + rest;
      SplitAfterLine(lines[0], tail);
      assert lines[0] + [] == lines[0];
    }
  }
}
