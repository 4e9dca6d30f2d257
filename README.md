# Floobits for Vim: the reconciliation core of `vim_protocol.py`

This project models, in Dafny, the part of the Floobits Vim plugin that keeps
a Vim buffer in step with a shared, remotely edited document
(`plugin/floo/vim_protocol.py`). It covers two classes.

- **`View`** binds a Vim buffer to a shared-buffer record `{id, path, buf}`.
  - `get_text` joins the buffer's lines with `'\n'`. `set_text` splits a text on `'\n'`.
  - `_offset_to_vim` turns a byte offset into Vim's 1-based `(line, col)`.
  - `apply_patches` replaces the whole text with the remote one. It then moves
    the cursor by the net length of every change hunk that starts strictly
    before the running cursor.
- **`Protocol`** owns three things:
  - the registry `FLOO_BUFS` of shared buffers, keyed by id;
  - the outbound queues `BUFS_CHANGED` and `SELECTION_CHANGED`;
  - the `MODIFIED_EVENTS` queue.

  It finds the Vim buffer for a path and the registry entry for a Vim buffer,
  builds views, reports local edits and selection moves, deletes entries and
  writes registry text into views.

Module layout:

- `Bytes` (text.dfy): bytes, `Join` and `Split`.
- `Coordinates` (coordinates.dfy): the offset-to-position translation.
- `Hunks` (hunks.dfy): the cursor ride-along rule.
- `VimProtocol` (vim_protocol.dfy): the classes `VimBuffer`, `Vim`, `View` and `Protocol`.
- `Wrappers` (wrappers.dfy): `Option`.

State that the source changes in place lives in classes:

- a Vim buffer's lines;
- the editor's buffer list and cursor;
- the protocol's registry and queues.

Those methods state their new state with `old(...)`. The pure parts are
functions, with lemmas proving their properties:

- the split/join round trip;
- that the position translation is a bijection on in-range offsets;
- the order and effect of the cursor shifts.

Modelling choices:

- Text is a sequence of bytes: the UTF-8 bytes of the text the source handles.
  For ASCII text this is the text itself; see "## Left out" for other text.
- `vim.buffers` is the field `Vim.buffers`, a sequence of `VimBuffer` objects.
  Each has a number, an optional name and its lines.
- The cursor offset that `get_cursor_offset` reads through `vim.eval` is the
  field `Vim.cursorOffset`.
- `set_cursor_position` stores the `setpos` argument
  `Mark(bufnum, VimPosition(lines, offset))` in `Vim.cursorMark`.
- `utils.is_shared` and `utils.to_rel_path` are function-valued fields of a
  `ProjectPaths` value that the protocol is built with.

Where one might expect idempotent removal, clamping or a real change test,
the model follows the code:

- `delete_buf` of an unknown id raises `KeyError`. It is not a no-op.
- `maybe_buffer_changed` reports a tracked buffer on every call. Line 126
  compares a list of lines with a string, and Python never finds those equal,
  so there is no real "changed?" test.
- `apply_patches` and `_offset_to_vim` do not clamp out-of-range offsets.
  An offset past the end of the text lands on the last line at column
  `offset - len(text)`, because the last line's newline has been counted too
  (`Coordinates.VimPositionPastEnd`). A negative offset gives line 1 and a
  column below 1.

## Model

| member | source | states |
|---|---|---|
| `Bytes.Split` | plugin/floo/vim_protocol.py:47-49 | `text.split('\n')` always yields at least one piece, and no piece holds a newline |
| `Bytes.SplitPieces` | plugin/floo/vim_protocol.py:49 | the split has exactly one more piece than the text has newlines |
| `Bytes.JoinSplit` | plugin/floo/vim_protocol.py:43-49 | joining the pieces of a split gives back the text, so `get_text()` after `set_text(t)` is the UTF-8 bytes of `t` |
| `Bytes.SplitJoin` | plugin/floo/vim_protocol.py:43-49 | splitting the join of at least one newline-free line gives back exactly those lines |
| `Coordinates.VimPosition` | plugin/floo/vim_protocol.py:26-34 | the line `_offset_to_vim` returns is always between 1 and the number of lines, for every integer offset |
| `Coordinates.JoinLength` | plugin/floo/vim_protocol.py:28-32 | the joined text is one byte shorter than the sum of `len(line)+1` over all lines |
| `Coordinates.VimPositionInRange` | plugin/floo/vim_protocol.py:26-34 | for `0 <= offset <= len(text)`: the line is in `[1, #lines]`, the column in `[1, len(line)+1]`, and the `len(l)+1` of the lines above plus `col-1` equals the offset (left inverse) |
| `Coordinates.VimPositionOfOffset` | plugin/floo/vim_protocol.py:26-34 | every valid `(line, col)` is the position assigned to the offset it denotes (right inverse), so the translation is a bijection |
| `Coordinates.VimPositionPastEnd` | plugin/floo/vim_protocol.py:26-34 | an offset past the end lands on the last line at column `offset - len(text)` |
| `Coordinates.VimPositionNamesByte` | plugin/floo/vim_protocol.py:26-34 | the position of a byte of the text is a column of its line that holds that byte, or the column just past the line when the byte is the newline |
| `Hunks.RideAlongAppend` | plugin/floo/vim_protocol.py:57-63 | hunks are applied in the given order: riding along `a + b` is riding along `a` and then `b` |
| `Hunks.RideAlongAfterCursor` | plugin/floo/vim_protocol.py:57-63 | hunks that all start at or after the cursor leave it unchanged |
| `Hunks.RideAlongGrowthBefore` | plugin/floo/vim_protocol.py:57-63 | hunks that all start before the cursor and do not shrink the text move it by their total `len(patch_text) - length` |
| `Hunks.ShiftKeepsContext` | plugin/floo/vim_protocol.py:61-63 | unless the cursor is inside the removed bytes, the shifted cursor has the same text before it (hunk at or after it) or after it (hunk before it) |
| `Hunks.ExampleInsertBeforeCursor` | plugin/floo/vim_protocol.py:57-63 | cursor 4 with hunk `(1, 0, "X")` ends at 5 |
| `Hunks.ExampleInsertAfterCursor` | plugin/floo/vim_protocol.py:57-63 | cursor 4 with hunk `(5, 0, "Y")` stays at 4 |
| `Hunks.ExampleReplaceAfterCursor` | plugin/floo/vim_protocol.py:57-63 | cursor 0 with hunk `(1, 1, "u")` ("hello" to "hullo") stays at 0 |
| `VimProtocol.View.OffsetToVim` | plugin/floo/vim_protocol.py:26-34 | the loop returns exactly `VimPosition(lines, offset)`, for every offset |
| `VimProtocol.View.IsLoading` | plugin/floo/vim_protocol.py:40-41 | a Vim view is never loading |
| `VimProtocol.View.GetText` | plugin/floo/vim_protocol.py:43-45 | the text is `Bytes.Join` of the lines, `'\n'.join`; the joined text splits back into the buffer's lines, and its length is the sum of `len(line)+1` minus one |
| `VimProtocol.View.SetText` | plugin/floo/vim_protocol.py:47-49 | the buffer's lines become `Split(text)`: at least one line, none with a newline, and `GetText()` is `text` |
| `VimProtocol.View.GetCursorOffset` | plugin/floo/vim_protocol.py:83-84 | the editor's cursor as a byte offset, read from the field `Vim.cursorOffset` |
| `VimProtocol.View.GetSelections` | plugin/floo/vim_protocol.py:86-88 | exactly one selection, collapsed at the cursor offset |
| `VimProtocol.View.SetCursorPosition` | plugin/floo/vim_protocol.py:71-75 | stores `Mark(bufnum, VimPosition(lines, offset))`; for an in-range offset that position is valid and denotes the offset |
| `VimProtocol.View.ApplyPatches` | plugin/floo/vim_protocol.py:51-65 | the text becomes `patches[0]`; the cursor read before the change rides along the hunks in order (`RideAlong`), with no hunks it stays put, and it is set at the position of that offset in the new text |
| `VimProtocol.PyEquals` | plugin/floo/vim_protocol.py:126 | Python equality: a list of lines never equals a string; values of one kind are equal when their contents are |
| `VimProtocol.Protocol.FirstNamedFor` | plugin/floo/vim_protocol.py:129-133 | the index of the first buffer with a non-empty name whose relative path is `p`, or the length when there is none |
| `VimProtocol.Protocol.GetVimBufByPath` | plugin/floo/vim_protocol.py:129-133 | returns the first buffer named for `p`; returns none exactly when no buffer is named for `p` |
| `VimProtocol.Protocol.GetView` | plugin/floo/vim_protocol.py:135-142 | none when the id is unknown or no Vim buffer has its path; otherwise a new view of the first such buffer and of that entry |
| `VimProtocol.Protocol.CreateView` | plugin/floo/vim_protocol.py:144-155 | an already open buffer for the path is used and the buffer list is kept; otherwise the buffers are those after `:edit!`, and the result is none exactly when none of them has the path |
| `VimProtocol.Protocol.GetBuf` | plugin/floo/vim_protocol.py:157-172 | none for an unnamed or unshared buffer and exactly when no entry has its relative path; otherwise a registry entry with that path; the registry is not modified |
| `VimProtocol.Protocol.MaybeSelectionChanged` | plugin/floo/vim_protocol.py:108-115 | an untracked buffer leaves `SELECTION_CHANGED` unchanged; a tracked one appends one `[view, False]`, where `view` is none exactly when no Vim buffer has the path |
| `VimProtocol.Protocol.MaybeBufferChanged` | plugin/floo/vim_protocol.py:117-127 | an untracked buffer leaves `BUFS_CHANGED` unchanged; a tracked one appends exactly the id of an entry with its path, on every call, with no deduplication |
| `VimProtocol.Protocol.DeleteBuf` | plugin/floo/vim_protocol.py:181-183 | the id is absent afterwards and every other entry is unchanged; an unknown id gives `KeyError` |
| `VimProtocol.Protocol.UpdateView` | plugin/floo/vim_protocol.py:196-209 | without a view, `MODIFIED_EVENTS` and all buffers are unchanged; with one, exactly one event is queued, the view's lines are `Split(buf['buf'])` and its text is `buf['buf']`, and other buffers are unchanged |

## Left out

- `focus`, `clear_selections`, `highlight`, `rename`, `__repr__`, `__str__`, `native_id`: these are Vim commands and debug logging, with no state of the core.
- `get_cursor_position` and the `line2byte` arithmetic of `get_cursor_offset`: these are calls into Vim. The cursor offset is the field `Vim.cursorOffset`.
- The effect of `setpos` inside Vim is not modelled: no clamping and no check of its return value. `Vim.cursorMark` records the argument only, and `Vim.cursorOffset` is not recomputed from it.
- `save_buf`: a filesystem write and `utils.mkdir`. `create_view` assumes the write happened.
- `:edit!` in `create_view` is a Vim command. Its effect is a parameter: the buffer list after the command.
- `on_room_info`, `chat`, `on_msg` and every `msg.debug` / `msg.log` call: UI and logging.
- `protocol.BaseProtocol` and the `utils` helpers are not part of this model. `is_shared` and `to_rel_path` are parameters.
- `MODIFIED_EVENTS` is a thread-safe queue in the source. It is a sequence here; concurrency is not modelled.
- `apply_patches` does not read its `buf` argument or `patches[1]`, so the model takes only the new text and the hunks.
- VimProtocol.Protocol.GetBuf: when several entries share a path, it says only that one of them is returned, because Python's dict iteration order is not modelled.
- VimProtocol.Protocol.MaybeSelectionChanged: the queued view is described only for a registry whose entries are filed under their own ids (`Protocol.Valid`), because `FLOO_BUFS` is filled outside this model.
- VimProtocol.Protocol.MaybeBufferChanged: the appended id is that of some entry with the buffer's path, for the same reason as `GetBuf`.
- VimProtocol.View.ApplyPatches: the source measures each hunk's text, a Unicode string, with `len`, which counts characters, while the cursor and `_offset_to_vim` count bytes; the model measures hunk texts in bytes, so the two agree only when hunk texts are ASCII (an inserted "é" moves the source's cursor by 1 and the model's by 2). A non-ASCII Python 2 byte string makes `set_text` raise `UnicodeDecodeError` at `.encode('utf-8')`; that error is not modelled.
