/**
 * The Vim side of the collaboration client: a View binds a shared buffer to a
 * Vim buffer and reconciles remote patches into it; the Protocol keeps the
 * registry of shared buffers, resolves Vim buffers and views for them, and
 * queues local changes for upload.
 */
module VimProtocol {
  import opened Wrappers
  import opened Bytes
  import opened Coordinates
  import opened Hunks

  /** A Vim buffer as `vim.buffers` lists it: its number, its file name and its lines. */
  class VimBuffer {
    const number: int
    const name: Option<string>
    var lines: seq<Text>

    /** Vim keeps at least one line in every buffer, and no line holds a newline. */
    ghost predicate Valid()
      reads this
    {
      |lines| >= 1 && NoNewlines(lines)
    }

    constructor (number: int, name: Option<string>, lines: seq<Text>)
      requires |lines| >= 1 && NoNewlines(lines)
      ensures Valid()
      ensures this.number == number && this.name == name && this.lines == lines
    {
      this.number := number;
      this.name := name;
      this.lines := lines;
    }
  }

  /** The argument of `setpos(".", [bufnum, line, col, 0])`: a cursor position in a buffer. */
  datatype Mark = Mark(bufnum: int, pos: Position)

  /** The editor state that the core reads and writes through the `vim` module. */
  class Vim {
    var buffers: seq<VimBuffer>
    /** The cursor as a byte offset, the value of `line2byte(line("."))+col(".")-2`. */
    var cursorOffset: int
    /** The cursor position last handed to `setpos(".", ...)`. */
    var cursorMark: Mark

    constructor (buffers: seq<VimBuffer>, cursorOffset: int, cursorMark: Mark)
      ensures this.buffers == buffers && this.cursorOffset == cursorOffset && this.cursorMark == cursorMark
    {
      this.buffers := buffers;
      this.cursorOffset := cursorOffset;
      this.cursorMark := cursorMark;
    }
  }

  /** A registry entry `{id, path, buf}`: a shared buffer and its last known content. */
  datatype SharedBuf = SharedBuf(id: int, path: string, buf: Text)

  /** The editor's representation of a shared buffer: a Vim buffer bound to a registry entry. */
  class View {
    const vimBuf: VimBuffer
    const buf: SharedBuf
    const vim: Vim

    constructor (vimBuf: VimBuffer, buf: SharedBuf, vim: Vim)
      ensures this.vimBuf == vimBuf && this.buf == buf && this.vim == vim
    {
      this.vimBuf := vimBuf;
      this.buf := buf;
      this.vim := vim;
    }

    /**
     * The 1-based Vim line and column of byte `offset`: the lines are walked,
     * each counting its bytes plus one for its newline, until the next line
     * would start past `offset`.
     */
    method OffsetToVim(offset: int) returns (line: int, col: int)
      requires vimBuf.lines != []
      ensures Position(line, col) == VimPosition(vimBuf.lines, offset)
    {
      var lines := vimBuf.lines;
      var currentOffset := 0;
      var lineNum := 0;
      var i := 0;
      while i < |lines|
        invariant 0 <= i <= |lines|
        invariant 0 < i ==> lineNum == i - 1
        invariant i < |lines| ==>
          var rest := VimPosition(lines[i..], offset - currentOffset);
          VimPosition(lines, offset) == Position(rest.line + i, rest.col)
        invariant i == |lines| ==> VimPosition(lines, offset) == Position(i, offset - currentOffset + 1)
      {
        lineNum := i;
        var nextOffset := |lines[i]| + 1;
        if currentOffset + nextOffset > offset {
          break;
        }
        assert lines[i..][1..] == lines[i + 1..];
        currentOffset := currentOffset + nextOffset;
        i := i + 1;
      }
      line, col := lineNum + 1, offset - currentOffset + 1;
    }

    /** Vim opens buffers synchronously, so a view is never still loading. */
    function IsLoading(): (loading: bool)
      ensures !loading
    {
      false
    }

    /** The buffer's text, its lines joined with newlines; splitting it gives the lines back. */
    function GetText(): (text: Text)
      reads vimBuf
      requires vimBuf.Valid()
      ensures Split(text) == vimBuf.lines
      ensures |text| + 1 == LineStart(vimBuf.lines, |vimBuf.lines|)
    {
      SplitJoin(vimBuf.lines);
      JoinLength(vimBuf.lines);
      Join(vimBuf.lines)
    }

    /** Replaces the buffer's lines by the pieces of `text`; the buffer's text is then `text`. */
    method SetText(text: Text)
      modifies vimBuf
      ensures vimBuf.Valid() && vimBuf.lines == Split(text)
      ensures GetText() == text
    {
      vimBuf.lines := Split(text);
      JoinSplit(text);
    }

    /** The cursor as a byte offset, as Vim reports it; the editor's cursor is the field `Vim.cursorOffset`. */
    function GetCursorOffset(): (offset: int)
      reads vim
      ensures offset == vim.cursorOffset
    {
      vim.cursorOffset
    }

    /** The single selection: the cursor, collapsed. */
    function GetSelections(): (selections: seq<(int, int)>)
      reads vim
      ensures |selections| == 1
      ensures selections[0].0 == selections[0].1 == GetCursorOffset()
    {
      var cursor := GetCursorOffset();
      [(cursor, cursor)]
    }

    /**
     * Moves Vim's cursor to the position of byte `offset`; for an offset of the
     * text or its end that position is valid and denotes `offset` exactly.
     */
    method SetCursorPosition(offset: int)
      requires vimBuf.lines != []
      modifies vim`cursorMark
      ensures vim.cursorMark == Mark(vimBuf.number, VimPosition(vimBuf.lines, offset))
      ensures 0 <= offset <= |Join(vimBuf.lines)| ==>
        ValidPosition(vimBuf.lines, vim.cursorMark.pos) && PositionOffset(vimBuf.lines, vim.cursorMark.pos) == offset
    {
      var line, col := OffsetToVim(offset);
      vim.cursorMark := Mark(vimBuf.number, Position(line, col));
      if 0 <= offset <= |Join(vimBuf.lines)| {
        VimPositionInRange(vimBuf.lines, offset);
      }
    }

    /**
     * Reconciles a remote patch: the text becomes `newText` outright, and the
     * cursor, read before the change, rides along with the hunks in order and
     * is then set at the resulting offset of the new text.
     */
    method ApplyPatches(newText: Text, hunks: seq<Hunk>)
      modifies vimBuf, vim`cursorMark
      ensures vimBuf.Valid() && vimBuf.lines == Split(newText) && GetText() == newText
      ensures vim.cursorMark == Mark(vimBuf.number, VimPosition(vimBuf.lines, RideAlong(vim.cursorOffset, hunks)))
      ensures 0 <= RideAlong(vim.cursorOffset, hunks) <= |newText| ==>
        ValidPosition(vimBuf.lines, vim.cursorMark.pos)
        && PositionOffset(vimBuf.lines, vim.cursorMark.pos) == RideAlong(vim.cursorOffset, hunks)
    {
      var cursorOffset := GetCursorOffset();
      SetText(newText);
      var i := 0;
      while i < |hunks|
        invariant 0 <= i <= |hunks|
        invariant RideAlong(cursorOffset, hunks[i..]) == RideAlong(vim.cursorOffset, hunks)
      {
        assert hunks[i..][1..] == hunks[i + 1..];
        var patch := hunks[i];
        var newOffset := |patch.text| - patch.length;
        if cursorOffset > patch.offset {
          cursorOffset := cursorOffset + newOffset;
        }
        i := i + 1;
      }
      assert hunks[i..] == [];
      JoinSplit(newText);
      SetCursorPosition(cursorOffset);
    }
  }

  /** A non-empty set has an element. */
  lemma HasElement(s: set<int>)
    requires |s| > 0
    ensures exists x :: x in s
  {
    assert (forall x :: x !in s) ==> s == {};
  }

  /** The two kinds of Python value compared at line 126 of the source: a list of lines and a text. */
  datatype PyValue = PyList(items: seq<Text>) | PyStr(bytes: Text)

  /** Python 2 `==`: values of the same kind compare by content, a list never equals a string. */
  function PyEquals(a: PyValue, b: PyValue): (equal: bool)
    ensures a.PyList? != b.PyList? ==> !equal
    ensures a.PyList? == b.PyList? ==> (equal <==> a == b)
  {
    match (a, b)
    case (PyList(x), PyList(y)) => x == y
    case (PyStr(x), PyStr(y)) => x == y
    case _ => false
  }

  /** The path helpers of the project, outside this model: which files are shared, and their relative paths. */
  datatype ProjectPaths = ProjectPaths(isShared: string -> bool, toRelPath: string -> string)

  /** What `delete_buf` ends with: done, or the KeyError Python raises for an unknown id. */
  datatype Outcome = Done | KeyError(key: int)

  /** The Vim protocol: registry `FLOO_BUFS`, outbound queues, and the Vim editor it works on. */
  class Protocol {
    const vim: Vim
    const paths: ProjectPaths
    /** `FLOO_BUFS`: shared buffers by id. */
    var flooBufs: map<int, SharedBuf>
    /** `BUFS_CHANGED`: ids of buffers with local changes to upload. */
    var bufsChanged: seq<int>
    /** `SELECTION_CHANGED`: `[view, False]` pairs to broadcast. */
    var selectionChanged: seq<(View?, bool)>
    /** `MODIFIED_EVENTS`: one `1` per text the protocol itself wrote into Vim. */
    var modifiedEvents: seq<int>

    constructor (vim: Vim, paths: ProjectPaths)
      ensures this.vim == vim && this.paths == paths
      ensures flooBufs == map[] && bufsChanged == [] && selectionChanged == [] && modifiedEvents == []
    {
      this.vim := vim;
      this.paths := paths;
      flooBufs := map[];
      bufsChanged := [];
      selectionChanged := [];
      modifiedEvents := [];
    }

    /** Every registry entry is filed under its own id. */
    ghost predicate Valid()
      reads this`flooBufs
    {
      forall id :: id in flooBufs ==> flooBufs[id].id == id
    }

    /** In a valid registry, an entry is found under its own id. */
    lemma FiledUnderId(entry: SharedBuf)
      requires Valid() && IsEntry(entry)
      ensures entry.id in flooBufs && flooBufs[entry.id] == entry
    {
    }

    /** The project-relative path of a Vim buffer that has a name inside the shared project. */
    function SharedPath(vimBuf: VimBuffer): Option<string>
    {
      match vimBuf.name
      case None => None
      case Some(name) => if paths.isShared(name) then Some(paths.toRelPath(name)) else None
    }

    /** True when `entry` is stored in the registry. */
    ghost predicate IsEntry(entry: SharedBuf)
      reads this`flooBufs
    {
      exists id :: id in flooBufs && flooBufs[id] == entry
    }

    /** True when some registry entry has path `p`. */
    ghost predicate Registered(p: string)
      reads this`flooBufs
    {
      exists id :: id in flooBufs && flooBufs[id].path == p
    }

    /** True when the Vim buffer is one the registry tracks: shared, and registered under its path. */
    ghost predicate Tracks(vimBuf: VimBuffer)
      reads this`flooBufs
    {
      SharedPath(vimBuf).Some? && Registered(SharedPath(vimBuf).value)
    }

    /** Whether `vimBuf` is the Vim buffer of project path `p`: it has a non-empty name mapping to `p`. */
    predicate NamedFor(vimBuf: VimBuffer, p: string)
    {
      vimBuf.name.Some? && vimBuf.name.value != [] && p == paths.toRelPath(vimBuf.name.value)
    }

    /** The index of the first buffer named for `p`, or `|buffers|` when none is. */
    function FirstNamedFor(buffers: seq<VimBuffer>, p: string): (i: nat)
      ensures i <= |buffers|
      ensures forall j :: 0 <= j < i ==> !NamedFor(buffers[j], p)
      ensures i < |buffers| ==> NamedFor(buffers[i], p)
    {
      if buffers == [] then 0
      else if NamedFor(buffers[0], p) then 0
      else 1 + FirstNamedFor(buffers[1..], p)
    }

    /** The first buffer named for `p`, if any. */
    function BufferFor(buffers: seq<VimBuffer>, p: string): Option<VimBuffer>
    {
      var i := FirstNamedFor(buffers, p);
      if i < |buffers| then Some(buffers[i]) else None
    }

    /** The Vim buffer a view of registry entry `bufId` would wrap. */
    ghost function ViewTarget(bufId: int): Option<VimBuffer>
      reads this`flooBufs, vim`buffers
    {
      if bufId in flooBufs then BufferFor(vim.buffers, flooBufs[bufId].path) else None
    }

    /** Linear scan of `vim.buffers` for the first buffer with a name whose relative path is `p`. */
    method GetVimBufByPath(p: string) returns (vimBuf: Option<VimBuffer>)
      ensures vimBuf == BufferFor(vim.buffers, p)
      ensures vimBuf.Some? ==> vimBuf.value in vim.buffers && NamedFor(vimBuf.value, p)
      ensures vimBuf.None? <==> forall j :: 0 <= j < |vim.buffers| ==> !NamedFor(vim.buffers[j], p)
    {
      var buffers := vim.buffers;
      var i := 0;
      while i < |buffers|
        invariant 0 <= i <= |buffers|
        invariant forall j :: 0 <= j < i ==> !NamedFor(buffers[j], p)
      {
        var candidate := buffers[i];
        if candidate.name.Some? && candidate.name.value != [] && p == paths.toRelPath(candidate.name.value) {
          return Some(candidate);
        }
        i := i + 1;
      }
      return None;
    }

    /** The view of registry entry `bufId`: none when the id is unknown or no Vim buffer has its path. */
    method GetView(bufId: int) returns (view: View?)
      ensures view == null <==> ViewTarget(bufId).None?
      ensures view != null ==>
        fresh(view) && view.vimBuf == ViewTarget(bufId).value && view.buf == flooBufs[bufId] && view.vim == vim
    {
      if bufId !in flooBufs {
        return null;
      }
      var buf := flooBufs[bufId];
      var vb := GetVimBufByPath(buf.path);
      if vb.Some? {
        view := new View(vb.value, buf, vim);
        return view;
      }
      return null;
    }

    /**
     * Opens a view for `buf`, whose content has been written to its path: an
     * open Vim buffer for the path is used as it is; otherwise Vim is told to
     * edit the path, after which its buffers are `buffersAfterEdit`, and the
     * buffer for the path is looked up again.
     */
    method CreateView(buf: SharedBuf, buffersAfterEdit: seq<VimBuffer>) returns (view: View?)
      modifies vim`buffers
      ensures old(BufferFor(vim.buffers, buf.path)).Some? ==>
        vim.buffers == old(vim.buffers) && view != null && fresh(view)
        && view.vimBuf == old(BufferFor(vim.buffers, buf.path)).value && view.buf == buf && view.vim == vim
      ensures old(BufferFor(vim.buffers, buf.path)).None? ==>
        vim.buffers == buffersAfterEdit
        && (view == null <==> BufferFor(buffersAfterEdit, buf.path).None?)
        && (view != null ==> fresh(view) && view.vimBuf == BufferFor(buffersAfterEdit, buf.path).value && view.buf == buf && view.vim == vim)
    {
      var vb := GetVimBufByPath(buf.path);
      if vb.Some? {
        view := new View(vb.value, buf, vim);
        return view;
      }
      vim.buffers := buffersAfterEdit;
      vb := GetVimBufByPath(buf.path);
      if vb.None? {
        return null;
      }
      view := new View(vb.value, buf, vim);
    }

    /**
     * The registry entry of a Vim buffer: none for an unnamed or unshared
     * buffer, else an entry whose path is the buffer's relative path, none
     * exactly when no entry has that path.
     */
    method GetBuf(vimBuf: VimBuffer) returns (buf: Option<SharedBuf>)
      ensures buf.None? <==> !Tracks(vimBuf)
      ensures buf.Some? ==> IsEntry(buf.value) && Some(buf.value.path) == SharedPath(vimBuf)
    {
      if vimBuf.name.None? {
        return None;
      }
      if !paths.isShared(vimBuf.name.value) {
        return None;
      }
      var relPath := paths.toRelPath(vimBuf.name.value);
      var unseen := flooBufs.Keys;
      while |unseen| > 0
        invariant unseen <= flooBufs.Keys
        invariant forall id :: id in flooBufs && id !in unseen ==> flooBufs[id].path != relPath
        decreases unseen
      {
        HasElement(unseen);
        var bufId :| bufId in unseen;
        if relPath == flooBufs[bufId].path {
          return Some(flooBufs[bufId]);
        }
        unseen := unseen - {bufId};
      }
      return None;
    }

    /**
     * On a selection change in a tracked Vim buffer, queues `[view, False]`
     * for the view of its registry entry (null when no view is found).
     */
    method MaybeSelectionChanged(vimBuf: VimBuffer)
      modifies this`selectionChanged
      ensures !Tracks(vimBuf) ==> selectionChanged == old(selectionChanged)
      ensures Tracks(vimBuf) ==>
        |selectionChanged| == |old(selectionChanged)| + 1
        && selectionChanged[..|old(selectionChanged)|] == old(selectionChanged)
        && !selectionChanged[|old(selectionChanged)|].1
      ensures Tracks(vimBuf) && Valid() ==>
        var view := selectionChanged[|old(selectionChanged)|].0;
        && (view == null <==> BufferFor(vim.buffers, SharedPath(vimBuf).value).None?)
        && (view != null ==>
              fresh(view) && view.vimBuf == BufferFor(vim.buffers, SharedPath(vimBuf).value).value
              && IsEntry(view.buf) && view.buf.path == SharedPath(vimBuf).value)
    {
      var buf := GetBuf(vimBuf);
      if buf.None? {
        return;
      }
      if Valid() {
        FiledUnderId(buf.value);
      }
      var view := GetView(buf.value.id);
      selectionChanged := selectionChanged + [(view, false)];
    }

    /**
     * On a text change in a tracked Vim buffer, queues the id of its registry
     * entry. The source compares the entry's text with the buffer's list of
     * lines, which Python never finds equal, so every call on a tracked buffer
     * queues the id, and nothing is deduplicated.
     */
    method MaybeBufferChanged(vimBuf: VimBuffer)
      modifies this`bufsChanged
      ensures !Tracks(vimBuf) ==> bufsChanged == old(bufsChanged)
      ensures Tracks(vimBuf) ==>
        exists entry :: IsEntry(entry) && Some(entry.path) == SharedPath(vimBuf)
                        && bufsChanged == old(bufsChanged) + [entry.id]
    {
      var text := PyList(vimBuf.lines);
      var buf := GetBuf(vimBuf);
      if buf.None? {
        return;
      }
      if !PyEquals(PyStr(buf.value.buf), text) {
        bufsChanged := bufsChanged + [buf.value.id];
      }
    }

    /** `del FLOO_BUFS[buf_id]`: the entry is gone and every other one is kept; an unknown id raises. */
    method DeleteBuf(bufId: int) returns (outcome: Outcome)
      modifies this`flooBufs
      ensures outcome == if bufId in old(flooBufs) then Done else KeyError(bufId)
      ensures flooBufs == old(flooBufs) - {bufId}
    {
      if bufId !in flooBufs {
        return KeyError(bufId);
      }
      flooBufs := flooBufs - {bufId};
      return Done;
    }

    /**
     * Writes the registry entry's text into its view (the one given, or else
     * the one resolved for its id): one modification event is queued and the
     * view's buffer then holds exactly `buf.buf`; without a view nothing changes.
     */
    method UpdateView(buf: SharedBuf, view: View?)
      modifies this`modifiedEvents, set b: VimBuffer | b in vim.buffers
      modifies if view != null then {view.vimBuf} else {}
      ensures var target := if view != null then Some(view.vimBuf) else old(ViewTarget(buf.id));
        && (target.None? ==>
              modifiedEvents == old(modifiedEvents)
              && forall b :: b in vim.buffers ==> b.lines == old(b.lines))
        && (target.Some? ==>
              modifiedEvents == old(modifiedEvents) + [1]
              && target.value.Valid() && target.value.lines == Split(buf.buf) && Join(target.value.lines) == buf.buf
              && forall b :: b in vim.buffers && b != target.value ==> b.lines == old(b.lines))
    {
      var target := view;
      if target == null {
        target := GetView(buf.id);
      }
      if target == null {
        return;
      }
      modifiedEvents := modifiedEvents + [1];
      target.SetText(buf.buf);
    }
  }

  /**
   * A cursor at offset 4 of "abcdef" is set at line 1 column 6, the position
   * of offset 5, when "X" is inserted at offset 1. Only the `setpos` argument
   * is modelled: `Vim.cursorOffset` is not recomputed from it.
   */
  method RideAlongScenario()
  {
    var vb := new VimBuffer(1, Some("a.txt"), [[97, 98, 99, 100, 101, 102]]);
    var editor := new Vim([vb], 4, Mark(1, Position(1, 5)));
    var view := new View(vb, SharedBuf(1, "a.txt", [97, 98, 99, 100, 101, 102]), editor);
    view.ApplyPatches([97, 98, 88, 99, 100, 101, 102], [Hunk(1, 0, [88])]);
    assert editor.cursorMark == Mark(1, Position(1, 6));
  }

  /**
   * A tracked buffer is reported on every change notification, twice for two;
   * deleting its entry twice raises KeyError the second time.
   */
  method RegistryScenario()
  {
    var vb := new VimBuffer(1, Some("a.txt"), [[89]]);
    var editor := new Vim([vb], 0, Mark(1, Position(1, 1)));
    var protocol := new Protocol(editor, ProjectPaths(name => true, name => name));
    protocol.flooBufs := map[1 := SharedBuf(1, "a.txt", [88])];
    assert protocol.flooBufs[1].path == "a.txt";
    protocol.MaybeBufferChanged(vb);
    protocol.MaybeBufferChanged(vb);
    assert protocol.bufsChanged == [1, 1];
    var first := protocol.DeleteBuf(1);
    var second := protocol.DeleteBuf(1);
    assert first == Done && second == KeyError(1) && protocol.flooBufs == map[];
  }
}
