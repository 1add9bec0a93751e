/** A log pump writing lines through rotations: the file it writes to is renamed away under it, other
    writers may append to the same files, and it reopens the path when the generation counter moved. */
module LogPump {
  import opened Domain
  import opened LineSplit

  const WRITE_BUF: nat := 64 * 1024

  /** A byte in a file, with the writer it came from. */
  datatype Mark = Mark(writer: nat, b: bv8)

  function Tagged(w: nat, s: seq<bv8>): seq<Mark> {
    seq(|s|, k requires 0 <= k < |s| => Mark(w, s[k]))
  }

  function OwnByte(w: nat, m: Mark): seq<bv8> {
    if m.writer == w then [m.b] else []
  }

  /** What writer `w` contributed. */
  function Own(w: nat, s: seq<Mark>): seq<bv8> {
    if s == [] then [] else OwnByte(w, s[0]) + Own(w, s[1..])
  }

  lemma {:induction false} OwnConcat(w: nat, a: seq<Mark>, b: seq<Mark>)
    ensures Own(w, a + b) == Own(w, a) + Own(w, b)
  {
    if a == [] {
      assert a + b == b;
    } else {
      assert (a + b)[0] == a[0] && (a + b)[1..] == a[1..] + b;
      OwnConcat(w, a[1..], b);
      Reassociate(OwnByte(w, a[0]), Own(w, a[1..]), Own(w, b));
    }
  }

  lemma {:induction false} OwnTagged(w: nat, v: nat, s: seq<bv8>)
    ensures Own(w, Tagged(v, s)) == if v == w then s else []
  {
    if s != [] {
      var t := Tagged(v, s);
      TaggedTail(v, s);
      OwnTagged(w, v, s[1..]);
      if v == w {
        assert Own(w, t) == [s[0]] + s[1..];
      } else {
        assert Own(w, t) == [] + Own(w, Tagged(v, s[1..]));
      }
    }
  }

  lemma TaggedTail(v: nat, s: seq<bv8>)
    requires s != []
    ensures Tagged(v, s) != [] && Tagged(v, s)[0] == Mark(v, s[0]) && Tagged(v, s)[1..] == Tagged(v, s[1..])
  {
  }

  /** What `w` contributed to the inodes `inodes` lists, in that order. */
  function Written(w: nat, files: seq<seq<Mark>>, inodes: seq<nat>): seq<bv8>
    requires forall k :: 0 <= k < |inodes| ==> inodes[k] < |files|
  {
    if inodes == [] then []
    else Written(w, files, inodes[..|inodes| - 1]) + Own(w, files[inodes[|inodes| - 1]])
  }

  lemma {:induction false} WrittenDependsOnOwn(w: nat, files: seq<seq<Mark>>, files': seq<seq<Mark>>, inodes: seq<nat>)
    requires forall k :: 0 <= k < |inodes| ==> inodes[k] < |files| && inodes[k] < |files'|
    requires forall k :: 0 <= k < |inodes| ==> Own(w, files'[inodes[k]]) == Own(w, files[inodes[k]])
    ensures Written(w, files', inodes) == Written(w, files, inodes)
    decreases |inodes|
  {
    if inodes != [] {
      WrittenDependsOnOwn(w, files, files', inodes[..|inodes| - 1]);
    }
  }

  /** The text of the lines as a pump writes it. */
  function Rendered(lines: seq<seq<bv8>>): seq<bv8> {
    if lines == [] then []
    else Rendered(lines[..|lines| - 1]) + lines[|lines| - 1] + [NEWLINE]
  }

  /** Everything read so far is in the inodes the pump opened, in order, or still in its buffer; and it
      wrote nowhere else. */
  ghost predicate Conserved(me: nat, files: seq<seq<Mark>>, inodes: seq<nat>, handle: nat,
                            buffer: seq<bv8>, read: seq<seq<bv8>>)
  {
    && inodes != [] && inodes[|inodes| - 1] == handle
    && (forall k :: 0 <= k < |inodes| ==> inodes[k] < |files|)
    && (forall j, k :: 0 <= j < k < |inodes| ==> inodes[j] < inodes[k])
    && (forall f :: 0 <= f < |files| && f !in inodes ==> Own(me, files[f]) == [])
    && Written(me, files, inodes) + buffer == Rendered(read)
  }

  /** The pump's bytes changed in the open file only. */
  lemma WrittenAtHandle(me: nat, files: seq<seq<Mark>>, files': seq<seq<Mark>>, inodes: seq<nat>, handle: nat)
    requires inodes != [] && inodes[|inodes| - 1] == handle
    requires forall k :: 0 <= k < |inodes| ==> inodes[k] < |files|
    requires forall j, k :: 0 <= j < k < |inodes| ==> inodes[j] < inodes[k]
    requires |files'| == |files| && forall f :: 0 <= f < |files| && f != handle ==> files'[f] == files[f]
    ensures Written(me, files', inodes) == Written(me, files, inodes[..|inodes| - 1]) + Own(me, files'[handle])
  {
    WrittenDependsOnOwn(me, files, files', inodes[..|inodes| - 1]);
  }

  lemma FlushConserves(me: nat, files: seq<seq<Mark>>, inodes: seq<nat>, handle: nat, buffer: seq<bv8>, read: seq<seq<bv8>>)
    requires Conserved(me, files, inodes, handle, buffer, read)
    ensures Conserved(me, files[handle := files[handle] + Tagged(me, buffer)], inodes, handle, [], read)
  {
    var files' := files[handle := files[handle] + Tagged(me, buffer)];
    OwnConcat(me, files[handle], Tagged(me, buffer));
    OwnTagged(me, me, buffer);
    WrittenAtHandle(me, files, files', inodes, handle);
    Reassociate(Written(me, files, inodes[..|inodes| - 1]), Own(me, files[handle]), buffer);
    assert Written(me, files', inodes) + [] == Written(me, files', inodes);
  }

  lemma PassConserves(me: nat, files: seq<seq<Mark>>, files': seq<seq<Mark>>, inodes: seq<nat>, handle: nat,
                      buffer: seq<bv8>, buffer': seq<bv8>, read: seq<seq<bv8>>, line: seq<bv8>)
    requires Conserved(me, files, inodes, handle, buffer, read)
    requires |files'| == |files| && forall f :: 0 <= f < |files| && f != handle ==> files'[f] == files[f]
    requires Own(me, files'[handle]) + buffer' == Own(me, files[handle]) + buffer + (line + [NEWLINE])
    ensures Conserved(me, files', inodes, handle, buffer', read + [line])
  {
    var w := Written(me, files, inodes[..|inodes| - 1]);
    var own, own' := Own(me, files[handle]), Own(me, files'[handle]);
    WrittenAtHandle(me, files, files', inodes, handle);
    assert (read + [line])[..|read|] == read;
    Reassociate(w, own', buffer');
    Reassociate(w, own + buffer, line + [NEWLINE]);
    Reassociate(w, own, buffer);
    Reassociate(Rendered(read), line, [NEWLINE]);
  }

  lemma CreateConserves(me: nat, files: seq<seq<Mark>>, inodes: seq<nat>, handle: nat, buffer: seq<bv8>, read: seq<seq<bv8>>)
    requires Conserved(me, files, inodes, handle, buffer, read)
    ensures Conserved(me, files + [[]], inodes, handle, buffer, read)
  {
    WrittenDependsOnOwn(me, files, files + [[]], inodes);
    assert Own(me, []) == [];
  }

  lemma ReopenConserves(me: nat, files: seq<seq<Mark>>, inodes: seq<nat>, handle: nat, read: seq<seq<bv8>>, inode: nat)
    requires Conserved(me, files, inodes, handle, [], read)
    requires handle < inode < |files|
    ensures Conserved(me, files, inodes + [inode], inode, [], read)
  {
    assert forall k :: 0 <= k < |inodes| ==> inodes[k] <= inodes[|inodes| - 1];
    assert inode !in inodes;
    assert (inodes + [inode])[..|inodes|] == inodes;
    var w := Written(me, files, inodes);
    assert w + [] == w;
  }

  lemma OtherWriteConserves(me: nat, files: seq<seq<Mark>>, inodes: seq<nat>, handle: nat, buffer: seq<bv8>,
                            read: seq<seq<bv8>>, inode: nat, writer: nat, text: seq<bv8>)
    requires Conserved(me, files, inodes, handle, buffer, read) && inode < |files| && writer != me
    ensures Conserved(me, files[inode := files[inode] + Tagged(writer, text)], inodes, handle, buffer, read)
  {
    var files' := files[inode := files[inode] + Tagged(writer, text)];
    OwnConcat(me, files[inode], Tagged(writer, text));
    OwnTagged(me, writer, text);
    var own := Own(me, files[inode]);
    assert own + [] == own;
    WrittenDependsOnOwn(me, files, files', inodes);
  }

  predicate EndsWith(s: seq<bv8>, end: seq<bv8>) {
    |end| <= |s| && s[|s| - |end|..] == end
  }

  lemma EndsWithLast(s: seq<bv8>, end: seq<bv8>)
    ensures EndsWith(s + end, end)
  {
  }

  /** One log path: every inode that was ever at the path, the one there now, and the counter that
      tells pumps to reopen. An inode keeps its contents after it was renamed or unlinked. */
  class LogPath {
    var files: seq<seq<Mark>>
    var current: Option<nat>
    var generation: nat

    /** A path names no inode older than the newest. */
    predicate Valid()
      reads this
    {
      current.Some? ==> current.value + 1 == |files|
    }

    constructor ()
      ensures Valid() && files == [] && current == None && generation == 0
    {
      files, current, generation := [], None, 0;
    }

    /** Open for appending, creating the file when the path is free. */
    method Open() returns (inode: nat)
      requires Valid()
      modifies this`files, this`current
      ensures Valid() && inode + 1 == |files| && current == Some(inode)
      ensures files == if old(current).Some? then old(files) else old(files) + [[]]
    {
      if current.None? {
        files := files + [[]];
        current := Some(|files| - 1);
      }
      inode := current.value;
    }

    method Append(inode: nat, marks: seq<Mark>)
      requires Valid() && inode < |files|
      modifies this`files
      ensures Valid() && files == old(files)[inode := old(files)[inode] + marks]
    {
      files := files[inode := files[inode] + marks];
    }

    /** The rename half of a rotation, or an operator's unlink. */
    method MoveAway()
      requires Valid()
      modifies this`current
      ensures Valid() && current == None
    {
      current := None;
    }

    /** The counter half of a rotation, or a manual reload. */
    method Bump()
      modifies this`generation
      ensures generation == old(generation) + 1
    {
      generation := generation + 1;
    }
  }

  class Pump {
    const dir: LogPath
    const me: nat
    var handle: nat
    var buffer: seq<bv8>
    var generation: nat
    ghost var inodes: seq<nat>
    ghost var read: seq<seq<bv8>>

    ghost predicate Valid()
      reads this, dir
    {
      && dir.Valid() && generation <= dir.generation && |buffer| <= 64 * 1024
      && Conserved(me, dir.files, inodes, handle, buffer, read)
    }

    constructor (dir: LogPath, me: nat)
      requires dir.Valid() && forall f :: 0 <= f < |dir.files| ==> Own(me, dir.files[f]) == []
      modifies dir
      ensures Valid() && read == [] && this.dir == dir && this.me == me
    {
      this.dir := dir;
      this.me := me;
      var inode := dir.Open();
      handle := inode;
      buffer := [];
      generation := dir.generation;
      inodes := [inode];
      read := [];
      new;
      assert inodes[..0] == [];
    }

    /** Hand the buffered bytes to the open file. */
    method Flush()
      requires Valid()
      modifies this`buffer, dir`files
      ensures Valid() && buffer == [] && |dir.files| == |old(dir.files)|
      ensures Own(me, dir.files[handle]) == old(Own(me, dir.files[handle]) + buffer)
      ensures forall f :: 0 <= f < |dir.files| && f != handle ==> dir.files[f] == old(dir.files)[f]
    {
      OwnConcat(me, dir.files[handle], Tagged(me, buffer));
      OwnTagged(me, me, buffer);
      FlushConserves(me, dir.files, inodes, handle, buffer, read);
      dir.Append(handle, Tagged(me, buffer));
      buffer := [];
    }

    /** Open the path, before the old file is let go. */
    method OpenPath() returns (inode: nat)
      requires Valid()
      modifies dir`files, dir`current
      ensures Valid() && dir.current == Some(inode) && handle <= inode < |dir.files|
      ensures old(dir.current).None? ==> handle < inode == |old(dir.files)| && dir.files[inode] == []
    {
      CreateConserves(me, dir.files, inodes, handle, buffer, read);
      inode := dir.Open();
    }

    /** Reopen the path; dropping the old buffered writer flushes it into the old file. */
    method Reopen()
      requires Valid()
      modifies this`buffer, this`handle, this`inodes, dir`files, dir`current
      ensures Valid() && buffer == [] && dir.current == Some(handle)
      ensures old(dir.current).None? ==> handle == |old(dir.files)| && dir.files[handle] == []
    {
      var inode := OpenPath();
      Flush();
      if inode != handle {
        ReopenConserves(me, dir.files, inodes, handle, read, inode);
        inodes := inodes + [inode];
      }
      handle := inode;
    }

    /** A buffered write: flush when it does not fit, bypass the buffer when it is larger than it. */
    method Write(data: seq<bv8>)
      requires dir.Valid() && handle < |dir.files| && |buffer| <= 64 * 1024
      modifies this`buffer, dir`files
      ensures dir.Valid() && |dir.files| == |old(dir.files)| && |buffer| <= 64 * 1024
      ensures forall f :: 0 <= f < |dir.files| && f != handle ==> dir.files[f] == old(dir.files)[f]
      ensures Own(me, dir.files[handle]) + buffer == old(Own(me, dir.files[handle]) + buffer) + data
    {
      if |buffer| + |data| > WRITE_BUF {
        OwnConcat(me, dir.files[handle], Tagged(me, buffer));
        OwnTagged(me, me, buffer);
        dir.Append(handle, Tagged(me, buffer));
        buffer := [];
      }
      if |data| >= WRITE_BUF {
        OwnConcat(me, dir.files[handle], Tagged(me, data));
        OwnTagged(me, me, data);
        dir.Append(handle, Tagged(me, data));
      } else {
        buffer := buffer + data;
      }
    }

    /** Writing a line and its newline are two writes, so a flush may fall between them. */
    method WriteLine(line: seq<bv8>)
      requires dir.Valid() && handle < |dir.files| && |buffer| <= 64 * 1024
      modifies this`buffer, dir`files
      ensures dir.Valid() && |dir.files| == |old(dir.files)| && |buffer| <= 64 * 1024
      ensures forall f :: 0 <= f < |dir.files| && f != handle ==> dir.files[f] == old(dir.files)[f]
      ensures Own(me, dir.files[handle]) + buffer == old(Own(me, dir.files[handle]) + buffer) + (line + [NEWLINE])
    {
      ghost var start := Own(me, dir.files[handle]) + buffer;
      Write(line);
      Write([NEWLINE]);
      Reassociate(start, line, [NEWLINE]);
    }

    /** Reopen the path if the counter moved since it was last read. */
    method ReopenIfMoved()
      requires Valid()
      modifies this`generation, this`buffer, this`handle, this`inodes, dir`files, dir`current
      ensures Valid() && generation == dir.generation
      ensures old(generation) != dir.generation ==> dir.current == Some(handle)
      ensures old(generation) == dir.generation ==> handle == old(handle) && inodes == old(inodes)
      ensures old(generation) != dir.generation && old(dir.current).None? ==>
        handle == |old(dir.files)| && Own(me, dir.files[handle]) + buffer == []
    {
      if dir.generation != generation {
        generation := dir.generation;
        Reopen();
      }
    }

    /** One line of the pump's loop. The path is reopened exactly when the counter moved, and the line goes to
        the file then open, in one piece. `idle` tells that the read buffer ran dry: the line is then on
        disk. */
    method Pass(line: seq<bv8>, idle: bool)
      requires Valid()
      modifies this, dir`files, dir`current
      ensures Valid() && read == old(read) + [line]
      ensures generation == dir.generation
      ensures old(generation) != dir.generation ==> dir.current == Some(handle)
      ensures old(generation) == dir.generation ==> handle == old(handle) && inodes == old(inodes)
      ensures EndsWith(Own(me, dir.files[handle]) + buffer, line + [NEWLINE])
      ensures old(generation) != dir.generation && old(dir.current).None? ==>
        handle == |old(dir.files)| && Own(me, dir.files[handle]) + buffer == line + [NEWLINE]
      ensures idle ==> buffer == []
    {
      ReopenIfMoved();
      ghost var held := Own(me, dir.files[handle]) + buffer;
      EndsWithLast(held, line + [NEWLINE]);
      assert [] + (line + [NEWLINE]) == line + [NEWLINE];
      Put(line, idle);
    }

    /** Write a line to the open file and, when idle, flush it. */
    method Put(line: seq<bv8>, idle: bool)
      requires Valid()
      modifies this`buffer, this`read, dir`files
      ensures Valid() && read == old(read) + [line]
      ensures Own(me, dir.files[handle]) + buffer == old(Own(me, dir.files[handle]) + buffer) + (line + [NEWLINE])
      ensures idle ==> buffer == []
    {
      ghost var files, before := dir.files, buffer;
      WriteLine(line);
      PassConserves(me, files, dir.files, inodes, handle, before, buffer, read, line);
      read := read + [line];
      if idle {
        ghost var own := Own(me, dir.files[handle]) + buffer;
        Flush();
        assert own + [] == own;
      }
    }
  }

  /** A rotation as the worker performs it, rename first and then the counter: the next line is the first this
      pump writes to a new file at the path, and everything before is in the files it had. */
  method NextLineAfterRotation(pump: Pump, line: seq<bv8>)
    requires pump.Valid()
    modifies pump, pump.dir
    ensures pump.Valid() && pump.buffer == []
    ensures pump.handle == |old(pump.dir.files)| && pump.dir.current == Some(pump.handle)
    ensures Own(pump.me, pump.dir.files[pump.handle]) == line + [NEWLINE]
  {
    pump.dir.MoveAway();
    pump.dir.Bump();
    pump.Pass(line, true);
    assert Own(pump.me, pump.dir.files[pump.handle]) + [] == Own(pump.me, pump.dir.files[pump.handle]);
  }

  /** What can happen around a pump. `Renamed` stands for a rename or unlink of the file at the path. */
  datatype Event =
    | Line(line: seq<bv8>, idle: bool)
    | Renamed
    | Bumped
    | OtherOpens
    | OtherWrites(inode: nat, writer: nat, text: seq<bv8>)

  function LinesOf(events: seq<Event>): seq<seq<bv8>> {
    if events == [] then []
    else
      var e := events[|events| - 1];
      LinesOf(events[..|events| - 1]) + if e.Line? then [e.line] else []
  }

  /** One event of the environment, or of the pump itself. */
  method Happen(pump: Pump, e: Event)
    requires pump.Valid()
    modifies pump, pump.dir
    ensures pump.Valid() && pump.read == old(pump.read) + if e.Line? then [e.line] else []
  {
    var dir, me := pump.dir, pump.me;
    match e {
      case Line(line, idle) => pump.Pass(line, idle);
      case Renamed => dir.MoveAway();
      case Bumped => dir.Bump();
      case OtherOpens =>
        CreateConserves(me, dir.files, pump.inodes, pump.handle, pump.buffer, pump.read);
        var _ := dir.Open();
      case OtherWrites(inode, writer, text) =>
        if inode < |dir.files| && writer != me {
          OtherWriteConserves(me, dir.files, pump.inodes, pump.handle, pump.buffer, pump.read, inode, writer, text);
          dir.Append(inode, Tagged(writer, text));
        }
    }
  }

  /** Conservation: through every interleaving of lines, renames, counter bumps, other openers and
      other writers, once the pump ends, the inodes it opened, one after the other, hold every line it
      read, exactly once and in order; and it wrote nowhere else. */
  method Drive(dir: LogPath, me: nat, events: seq<Event>) returns (pump: Pump)
    requires dir.Valid() && forall f :: 0 <= f < |dir.files| ==> Own(me, dir.files[f]) == []
    modifies dir
    ensures pump.Valid() && pump.dir == dir && pump.me == me && pump.buffer == []
    ensures Written(me, dir.files, pump.inodes) == Rendered(LinesOf(events))
    ensures forall f :: 0 <= f < |dir.files| && f !in pump.inodes ==> Own(me, dir.files[f]) == []
  {
    pump := new Pump(dir, me);
    assert events[..0] == [];
    for k := 0 to |events|
      invariant fresh(pump) && pump.Valid() && pump.dir == dir && pump.me == me
      invariant pump.read == LinesOf(events[..k])
    {
      assert events[..k + 1][..k] == events[..k];
      Happen(pump, events[k]);
    }
    assert events[..|events|] == events;
    pump.Flush();
    ghost var written := Written(me, dir.files, pump.inodes);
    assert written + [] == written;
  }
}
