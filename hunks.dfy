/**
 * The cursor "ride-along" rule of View.apply_patches: the new text replaces
 * the old one wholesale, and the change hunks only serve to move the cursor
 * by the net length of every hunk that starts strictly before it.
 */
module Hunks {
  import opened Bytes

  /** One `(offset, length, patch_text)` entry of `patches[2]`. */
  datatype Hunk = Hunk(offset: int, length: int, text: Text)

  /** The net length a hunk adds, `len(patch_text) - length`, with `patch_text` measured in bytes (characters only for ASCII text). */
  function Growth(h: Hunk): int
  {
    |h.text| - h.length
  }

  /** The running cursor after one hunk: moved by the hunk's growth only when it starts before the cursor. */
  function Shift(cursor: int, h: Hunk): int
  {
    if cursor > h.offset then cursor + Growth(h) else cursor
  }

  /** The cursor after the hunks, taken one by one in the order given. */
  function RideAlong(cursor: int, hunks: seq<Hunk>): int
    decreases |hunks|
  {
    if hunks == [] then cursor else RideAlong(Shift(cursor, hunks[0]), hunks[1..])
  }

  /** The summed growth of the hunks. */
  function TotalGrowth(hunks: seq<Hunk>): int
  {
    if hunks == [] then 0 else Growth(hunks[0]) + TotalGrowth(hunks[1..])
  }

  /** Hunks are applied in sequence: riding along `a + b` is riding along `a`, then `b`. */
  lemma {:induction false} RideAlongAppend(cursor: int, a: seq<Hunk>, b: seq<Hunk>)
    ensures RideAlong(cursor, a + b) == RideAlong(RideAlong(cursor, a), b)
    decreases |a|
  {
    if a == [] {
      assert a + b == b;
    } else {
      assert (a + b)[1..] == a[1..] + b;
      RideAlongAppend(Shift(cursor, a[0]), a[1..], b);
    }
  }

  /** Hunks that all start at or after the cursor leave it where it is. */
  lemma {:induction false} RideAlongAfterCursor(cursor: int, hunks: seq<Hunk>)
    requires forall i :: 0 <= i < |hunks| ==> hunks[i].offset >= cursor
    ensures RideAlong(cursor, hunks) == cursor
    decreases |hunks|
  {
    if hunks != [] {
      RideAlongAfterCursor(cursor, hunks[1..]);
    }
  }

  /**
   * Hunks that all start before the cursor and none of which shrinks the
   * text each move it, so it ends moved by their total growth.
   */
  lemma {:induction false} RideAlongGrowthBefore(cursor: int, hunks: seq<Hunk>)
    requires forall i :: 0 <= i < |hunks| ==> hunks[i].offset < cursor && Growth(hunks[i]) >= 0
    ensures RideAlong(cursor, hunks) == cursor + TotalGrowth(hunks)
    decreases |hunks|
  {
    if hunks != [] {
      var next := Shift(cursor, hunks[0]);
      assert next == cursor + Growth(hunks[0]);
      RideAlongGrowthBefore(next, hunks[1..]);
    }
  }

  /** A hunk that lies within text `t`. */
  predicate Fits(t: Text, h: Hunk)
  {
    0 <= h.offset && 0 <= h.length && h.offset + h.length <= |t|
  }

  /** Text `t` with the hunk's `length` bytes at `offset` replaced by its text. */
  function ApplyHunk(t: Text, h: Hunk): Text
    requires Fits(t, h)
  {
    t[..h.offset] + h.text + t[h.offset + h.length..]
  }

  /**
   * What the shift rule preserves: when the cursor is not inside the bytes a
   * hunk removes, the shifted cursor sees the same text around it as before —
   * the same text before it when the hunk starts at or after it, the same text
   * after it when the hunk starts before it.
   */
  lemma ShiftKeepsContext(t: Text, h: Hunk, cursor: int)
    requires Fits(t, h) && 0 <= cursor <= |t|
    requires cursor <= h.offset || h.offset + h.length <= cursor
    ensures 0 <= Shift(cursor, h) <= |ApplyHunk(t, h)|
    ensures cursor <= h.offset ==> ApplyHunk(t, h)[..Shift(cursor, h)] == t[..cursor]
    ensures cursor > h.offset ==> ApplyHunk(t, h)[Shift(cursor, h)..] == t[cursor..]
  {
  }

  /** A hunk inserting `"X"` at offset 1 moves a cursor at offset 4 of `"abcdef"` to 5. */
  lemma ExampleInsertBeforeCursor()
    ensures RideAlong(4, [Hunk(1, 0, [88])]) == 5
  {
  }

  /** A hunk inserting `"Y"` at offset 5 leaves a cursor at offset 4 of `"abcdef"` at 4. */
  lemma ExampleInsertAfterCursor()
    ensures RideAlong(4, [Hunk(5, 0, [89])]) == 4
  {
  }

  /** Replacing "e" by "u" at offset 1 of "hello" leaves a cursor at offset 0 where it is. */
  lemma ExampleReplaceAfterCursor()
    ensures RideAlong(0, [Hunk(1, 1, [117])]) == 0
  {
  }
}
