/** Writing the dump so that a crash, or a power loss, at any moment leaves a usable one. */
module DumpFile {
  import opened Domain

  /** The dump's text format, seen as a pair of functions. */
  datatype Codec = Codec(encode: seq<DumpEntry> -> seq<bv8>, decode: seq<bv8> -> Option<seq<DumpEntry>>)

  ghost predicate Inverse(codec: Codec) {
    forall entries :: codec.decode(codec.encode(entries)) == Some(entries)
  }

  type File = Option<seq<bv8>>

  /** The three files of a dump, and what of them a power loss may still undo: data that was never
      synced (`bakDirty`, `tmpDirty`, `dumpDirty`), and renames whose directory was never synced;
      `pending` lists the files these replaced. */
  datatype Disk = Disk(
    dump: File, dumpDirty: bool, pending: seq<File>,
    bak: File, bakDirty: bool,
    tmp: File, tmpDirty: bool)

  function Parsed(codec: Codec, file: File): Option<seq<DumpEntry>> {
    if file.Some? then codec.decode(file.value) else None
  }

  /** The entries `resurrect` reads: the dump, or the backup when the dump is missing or unusable. */
  function Usable(codec: Codec, dump: File, bak: File): Option<seq<DumpEntry>> {
    if Parsed(codec, dump).Some? then Parsed(codec, dump) else Parsed(codec, bak)
  }

  /** What the disk may hold after a crash. Of a file written but not synced anything may be left. */
  predicate MayBecome(d: Disk, dump: File, bak: File) {
    && (dump == d.dump || d.dumpDirty || dump in d.pending)
    && (bak == d.bak || d.bakDirty)
  }

  /** Some crash of `d` leaves these entries to be read, or none. */
  ghost predicate MayRead(codec: Codec, d: Disk, entries: Option<seq<DumpEntry>>) {
    exists dump, bak :: MayBecome(d, dump, bak) && Usable(codec, dump, bak) == entries
  }

  /** The save's promise, for any start: whatever a crash of `d` leaves, a crash before the save could have
      left too, or it is the complete new list. */
  ghost predicate Guarded(codec: Codec, d: Disk, start: Disk, entries: seq<DumpEntry>) {
    forall dump, bak :: MayBecome(d, dump, bak) ==>
      Usable(codec, dump, bak) == Some(entries) || MayRead(codec, start, Usable(codec, dump, bak))
  }

  /** Every file that an unsynced rename replaced is a usable dump. */
  predicate PendingUsable(codec: Codec, d: Disk) {
    forall k :: 0 <= k < |d.pending| ==> Parsed(codec, d.pending[k]).Some?
  }

  // ----- the backup

  /** While the backup is rewritten anything may be left of it. */
  predicate Copying(d: Disk, start: Disk) {
    && d.dump == start.dump && !d.dumpDirty && d.pending == start.pending && d.bakDirty
  }

  lemma CopyingGuarded(codec: Codec, d: Disk, start: Disk, entries: seq<DumpEntry>)
    requires !start.dumpDirty && Parsed(codec, start.dump).Some? && Copying(d, start)
    requires PendingUsable(codec, start) || start.bakDirty
    ensures Guarded(codec, d, start, entries)
  {
    forall dump, bak | MayBecome(d, dump, bak) ensures MayRead(codec, start, Usable(codec, dump, bak)) {
      assert MayBecome(start, dump, if start.bakDirty then bak else start.bak);
    }
  }

  /** A list that `start` can never read: one row longer than any of the finitely many it can. */
  lemma UnreadList(codec: Codec, start: Disk, entries: seq<DumpEntry>, e: DumpEntry) returns (other: seq<DumpEntry>)
    requires !start.dumpDirty && !start.bakDirty
    ensures other != entries && !MayRead(codec, start, Some(other))
  {
    var n := Longest(codec, start.pending);
    var last := if Parsed(codec, start.dump).Some? then |Parsed(codec, start.dump).value| else 0;
    var back := if Parsed(codec, start.bak).Some? then |Parsed(codec, start.bak).value| else 0;
    other := seq(n + last + back + |entries| + 1, _ => e);
    forall dump, bak | MayBecome(start, dump, bak) ensures Usable(codec, dump, bak) != Some(other) {
      if dump in start.pending {
        LongestBounds(codec, start.pending, dump);
      }
    }
  }

  function Longest(codec: Codec, files: seq<File>): nat {
    if files == [] then 0
    else Longest(codec, files[1..]) + if Parsed(codec, files[0]).Some? then |Parsed(codec, files[0]).value| else 0
  }

  lemma {:induction false} LongestBounds(codec: Codec, files: seq<File>, file: File)
    requires file in files
    ensures Parsed(codec, file).Some? ==> |Parsed(codec, file).value| <= Longest(codec, files)
    decreases |files|
  {
    if file != files[0] {
      LongestBounds(codec, files[1..], file);
    }
  }

  lemma CopyingUnguarded(codec: Codec, d: Disk, start: Disk, entries: seq<DumpEntry>, e: DumpEntry)
    requires Inverse(codec) && !start.dumpDirty && !start.bakDirty && Copying(d, start)
    requires !PendingUsable(codec, start)
    ensures !Guarded(codec, d, start, entries)
  {
    var k :| 0 <= k < |start.pending| && Parsed(codec, start.pending[k]).None?;
    var other := UnreadList(codec, start, entries, e);
    var left := Some(codec.encode(other));
    assert MayBecome(d, start.pending[k], left);
    assert Usable(codec, start.pending[k], left) == Some(other);
  }

  /** Rewriting the backup keeps the promise if and only if every pending rename replaced a usable dump, or
      the backup had not been safe before either. */
  lemma CopyingGuardedIff(codec: Codec, d: Disk, start: Disk, entries: seq<DumpEntry>)
    requires Inverse(codec) && !start.dumpDirty && Parsed(codec, start.dump).Some? && Copying(d, start)
    ensures Guarded(codec, d, start, entries) <==> PendingUsable(codec, start) || start.bakDirty
  {
    if PendingUsable(codec, start) || start.bakDirty {
      CopyingGuarded(codec, d, start, entries);
    } else {
      var nobody := AppConfig("", 0, false, false, [], 0, 0, 0, 0, false, "");
      CopyingUnguarded(codec, d, start, entries, DumpEntry(0, 0, nobody));
    }
  }

  /** Put absolutely: while the backup is rewritten every crash leaves a readable list if and only if every
      pending rename replaced a usable dump. */
  lemma CopyingReadableIff(codec: Codec, d: Disk, start: Disk)
    requires !start.dumpDirty && Parsed(codec, start.dump).Some? && Copying(d, start)
    ensures !MayRead(codec, d, None) <==> PendingUsable(codec, start)
  {
    if !PendingUsable(codec, start) {
      var k :| 0 <= k < |start.pending| && Parsed(codec, start.pending[k]).None?;
      assert MayBecome(d, start.pending[k], None) && Usable(codec, start.pending[k], None) == None;
    }
  }

  // ----- the rest of a save

  /** The disk during a save, up to the rename: the dump and the pending renames are the old ones; the
      backup is the old one too, unless it is being rewritten. */
  predicate Undisturbed(d: Disk, start: Disk, copied: bool) {
    && d.dump == start.dump && !d.dumpDirty && d.pending == start.pending
    && (if copied then d.bakDirty else d.bak == start.bak && d.bakDirty == start.bakDirty)
  }

  lemma UndisturbedIsGuarded(codec: Codec, d: Disk, start: Disk, copied: bool, entries: seq<DumpEntry>)
    requires !start.dumpDirty && Undisturbed(d, start, copied)
    requires copied ==> Parsed(codec, start.dump).Some? && (PendingUsable(codec, start) || start.bakDirty)
    ensures Guarded(codec, d, start, entries)
  {
    if copied {
      CopyingGuarded(codec, d, start, entries);
    } else {
      forall dump, bak | MayBecome(d, dump, bak) ensures MayRead(codec, start, Usable(codec, dump, bak)) {
        assert MayBecome(start, dump, bak);
      }
    }
  }

  /** After the rename the new dump is in place; a crash can at most bring an old one back. */
  predicate Installed(codec: Codec, d: Disk, start: Disk, copied: bool, entries: seq<DumpEntry>) {
    && d.dump == Some(codec.encode(entries)) && !d.dumpDirty
    && (d.pending == [] || d.pending == start.pending + [start.dump])
    && (if copied then d.bakDirty else d.bak == start.bak && d.bakDirty == start.bakDirty)
  }

  lemma InstalledIsGuarded(codec: Codec, d: Disk, start: Disk, copied: bool, entries: seq<DumpEntry>)
    requires Inverse(codec) && !start.dumpDirty && Installed(codec, d, start, copied, entries)
    requires copied ==> Parsed(codec, start.dump).Some? && (PendingUsable(codec, start) || start.bakDirty)
    ensures Guarded(codec, d, start, entries)
  {
    forall dump, bak | MayBecome(d, dump, bak)
      ensures Usable(codec, dump, bak) == Some(entries) || MayRead(codec, start, Usable(codec, dump, bak))
    {
      if dump == d.dump {
        assert Parsed(codec, dump) == Some(entries);
      } else {
        var before := d.(dump := start.dump, pending := start.pending);
        UndisturbedIsGuarded(codec, before, start, copied, entries);
        assert MayBecome(before, dump, bak);
      }
    }
  }

  /** The fsync before the rename is what makes the rename safe: had the data not been synced, a crash
      could leave an unreadable dump where a readable one was. */
  lemma UnsyncedRenameIsUnsafe(codec: Codec, start: Disk, entries: seq<DumpEntry>, garbage: seq<bv8>)
    requires Inverse(codec) && codec.decode(garbage) == None && start.pending == [] && !start.dumpDirty
    requires start.bak == None && !start.bakDirty && Parsed(codec, start.dump).Some?
    ensures !Guarded(codec, start.(dump := Some(codec.encode(entries)), dumpDirty := true, pending := [start.dump]),
                     start, entries)
  {
    var d := start.(dump := Some(codec.encode(entries)), dumpDirty := true, pending := [start.dump]);
    assert MayBecome(d, Some(garbage), None);
    assert Usable(codec, Some(garbage), None) == None;
    assert !MayRead(codec, start, None);
  }

  // ----- disks at rest

  /** Nothing a crash could undo matters: no rename is pending, the dump is synced, and so is the backup
      where it is the only usable file. */
  predicate AtRest(codec: Codec, d: Disk) {
    d.pending == [] && !d.dumpDirty && (Parsed(codec, d.dump).Some? || !d.bakDirty)
  }

  /** After any crash, what is read back is one of two complete snapshots. */
  ghost predicate CrashSafe(codec: Codec, d: Disk, before: Option<seq<DumpEntry>>, after: seq<DumpEntry>) {
    forall dump, bak :: MayBecome(d, dump, bak) ==>
      Usable(codec, dump, bak) == before || Usable(codec, dump, bak) == Some(after)
  }

  lemma AtRestReadsOneList(codec: Codec, d: Disk, start: Disk, entries: seq<DumpEntry>)
    requires AtRest(codec, start) && Guarded(codec, d, start, entries)
    ensures CrashSafe(codec, d, Usable(codec, start.dump, start.bak), entries)
  {
  }

  /** The file holds the bytes up to somewhere. */
  predicate PrefixOf(file: File, bytes: seq<bv8>) {
    file.Some? && file.value <= bytes
  }

  // ----- the file system calls

  datatype SaveResult = Saved | NothingToSave | RefusedEmpty | Failed

  /** Which of the calls of one save succeed: opening the backup for the copy and finishing it, creating
      the temporary file, writing and syncing it, the rename, and the sync of the directory. */
  datatype Calls = Calls(copy: bool, copied: bool, create: bool, write: bool, sync: bool, rename: bool, dirSync: bool)

  /** The file system under the daemon's home. `past` records every state the disk went through. */
  class Home {
    var disk: Disk
    ghost var past: seq<Disk>

    constructor (disk: Disk)
      ensures this.disk == disk && past == [disk]
    {
      this.disk := disk;
      past := [disk];
    }

    method Change(d: Disk)
      modifies this
      ensures disk == d && past == old(past) + [d]
    {
      disk := d;
      past := past + [d];
    }

    /** Write `bytes` to the backup or the temporary file, some at a time; unless `ok`, an error stops it
        somewhere. */
    method WriteOut(toBak: bool, bytes: seq<bv8>, ok: bool)
      modifies this
      ensures old(past) < past && disk in past
      ensures forall k :: |old(past)| <= k < |past| ==>
        past[k] == if toBak then old(disk).(bak := past[k].bak, bakDirty := true)
                   else old(disk).(tmp := past[k].tmp, tmpDirty := true)
      ensures disk == if toBak then old(disk).(bak := disk.bak, bakDirty := true)
                      else old(disk).(tmp := disk.tmp, tmpDirty := true)
      ensures ok ==> (if toBak then disk.bak else disk.tmp) == Some(bytes)
      ensures PrefixOf(if toBak then disk.bak else disk.tmp, bytes)
      ensures forall k :: |old(past)| <= k < |past| ==>
        PrefixOf(if toBak then past[k].bak else past[k].tmp, bytes)
    {
      ghost var start := disk;
      var done := 0;
      Change(if toBak then disk.(bak := Some([]), bakDirty := true) else disk.(tmp := Some([]), tmpDirty := true));
      while done < |bytes|
        invariant done <= |bytes|
        invariant old(past) < past && disk == past[|past| - 1]
        invariant forall k :: |old(past)| <= k < |past| ==>
          past[k] == if toBak then start.(bak := past[k].bak, bakDirty := true)
                     else start.(tmp := past[k].tmp, tmpDirty := true)
        invariant (if toBak then disk.bak else disk.tmp) == Some(bytes[..done])
        invariant forall k :: |old(past)| <= k < |past| ==>
          PrefixOf(if toBak then past[k].bak else past[k].tmp, bytes)
      {
        var stop: bool := *;
        if stop && !ok {
          return;
        }
        var count: int := *;
        done := if 0 < count <= |bytes| - done then done + count else |bytes|;
        var part := Some(bytes[..done]);
        Change(if toBak then disk.(bak := part) else disk.(tmp := part));
      }
      assert bytes[..|bytes|] == bytes;
    }

    /** Whether this save rewrites the backup. */
    predicate Copies(codec: Codec, entries: seq<DumpEntry>, calls: Calls)
      reads this
    {
      entries != [] && Parsed(codec, disk.dump).Some? && calls.copy
    }

    /** `save`, on any disk it may find, whichever calls fail. The promise holds in every state it goes
        through if and only if it does not rewrite the backup, or may do so. An empty list is never
        installed. */
    method Save(codec: Codec, entries: seq<DumpEntry>, calls: Calls) returns (r: SaveResult)
      requires Inverse(codec) && !disk.dumpDirty
      modifies this
      ensures !disk.dumpDirty && old(past) <= past
      ensures (forall k :: |old(past)| <= k < |past| ==> Guarded(codec, past[k], old(disk), entries)) <==>
              (old(Copies(codec, entries, calls)) ==> PendingUsable(codec, old(disk)) || old(disk).bakDirty)
      ensures old(Copies(codec, entries, calls)) ==>
        |old(past)| < |past| && Copying(past[|old(past)|], old(disk))
      ensures AtRest(codec, old(disk)) ==> forall k :: |old(past)| <= k < |past| ==>
        CrashSafe(codec, past[k], Usable(codec, old(disk).dump, old(disk).bak), entries)
      ensures r == Saved <==> entries != [] && calls.create && calls.write && calls.sync && calls.rename
      ensures r == Saved ==>
        && disk.dump == Some(codec.encode(entries))
        && disk.pending == (if calls.dirSync then [] else old(disk).pending + [old(disk).dump])
      ensures r != Saved ==> disk.dump == old(disk).dump && disk.pending == old(disk).pending
      ensures disk.bakDirty == (old(disk).bakDirty || old(Copies(codec, entries, calls)))
      ensures !old(Copies(codec, entries, calls)) ==> disk.bak == old(disk).bak
      ensures old(Copies(codec, entries, calls)) && calls.copied ==> disk.bak == old(disk).dump
      ensures old(Copies(codec, entries, calls)) ==>
        forall k :: |old(past)| <= k < |past| ==> PrefixOf(past[k].bak, old(disk).dump.value)
      ensures entries == [] ==>
        disk == old(disk) && past == old(past) && r == if disk.dump.Some? then RefusedEmpty else NothingToSave
    {
      ghost var start, before := disk, past;
      if entries == [] {
        return if disk.dump.Some? then RefusedEmpty else NothingToSave;
      }
      ghost var copies := false;
      ghost var fair := Parsed(codec, start.dump).Some? && calls.copy ==> PendingUsable(codec, start) || start.bakDirty;
      if disk.dump.Some? && codec.decode(disk.dump.value).Some? && calls.copy {
        WriteOut(true, disk.dump.value, calls.copied);
        copies := true;
        CopyingGuardedIff(codec, past[|before|], start, entries);
      }
      r := Install(codec, entries, calls, copies, start);
      StatesGuarded(codec, before, start, copies, entries, fair);
    }

    /** The part of a save after the backup. */
    method Install(codec: Codec, entries: seq<DumpEntry>, calls: Calls, ghost copied: bool, ghost start: Disk)
      returns (r: SaveResult)
      requires Undisturbed(disk, start, copied) && entries != []
      modifies this
      ensures old(past) <= past
      ensures forall k :: |old(past)| <= k < |past| ==>
        Undisturbed(past[k], start, copied) || Installed(codec, past[k], start, copied, entries)
      ensures r == Saved || r == Failed
      ensures r == Saved <==> calls.create && calls.write && calls.sync && calls.rename
      ensures if r == Saved then Installed(codec, disk, start, copied, entries) else Undisturbed(disk, start, copied)
      ensures r == Saved ==> disk.pending == if calls.dirSync then [] else start.pending + [start.dump]
      ensures disk.bak == old(disk).bak && disk.bakDirty == old(disk).bakDirty
      ensures forall k :: |old(past)| <= k < |past| ==> past[k].bak == old(disk).bak
    {
      if !calls.create {
        return Failed;
      }
      WriteOut(false, codec.encode(entries), calls.write);
      if !calls.write || !calls.sync {
        return Failed;
      }
      Change(disk.(tmpDirty := false));
      if !calls.rename {
        return Failed;
      }
      Change(disk.(dump := disk.tmp, dumpDirty := disk.tmpDirty, pending := disk.pending + [disk.dump], tmp := None));
      if calls.dirSync {
        Change(disk.(pending := []));
      }
      r := Saved;
    }

    ghost method StatesGuarded(codec: Codec, before: seq<Disk>, start: Disk, copies: bool, entries: seq<DumpEntry>, fair: bool)
      requires Inverse(codec) && !start.dumpDirty && before <= past
      requires copies ==> Parsed(codec, start.dump).Some?
      requires fair && copies ==> PendingUsable(codec, start) || start.bakDirty
      requires forall k :: |before| <= k < |past| ==>
        Undisturbed(past[k], start, copies) || Installed(codec, past[k], start, copies, entries)
      ensures fair ==> forall k :: |before| <= k < |past| ==> Guarded(codec, past[k], start, entries)
      ensures fair && AtRest(codec, start) ==> forall k :: |before| <= k < |past| ==>
        CrashSafe(codec, past[k], Usable(codec, start.dump, start.bak), entries)
    {
      forall k | fair && |before| <= k < |past| ensures Guarded(codec, past[k], start, entries) {
        if Undisturbed(past[k], start, copies) {
          UndisturbedIsGuarded(codec, past[k], start, copies, entries);
        } else {
          InstalledIsGuarded(codec, past[k], start, copies, entries);
        }
      }
      forall k | fair && AtRest(codec, start) && |before| <= k < |past|
        ensures CrashSafe(codec, past[k], Usable(codec, start.dump, start.bak), entries)
      {
        AtRestReadsOneList(codec, past[k], start, entries);
      }
    }

    /** What `resurrect` starts from. */
    method Load(codec: Codec) returns (entries: Option<seq<DumpEntry>>)
      ensures entries == Usable(codec, disk.dump, disk.bak)
    {
      if disk.dump.Some? {
        entries := codec.decode(disk.dump.value);
        if entries.Some? {
          return;
        }
      }
      if disk.bak.None? {
        return None;
      }
      entries := codec.decode(disk.bak.value);
    }
  }

  /** What the backup is for: once a save has copied the dump, losing the new dump, or finding it corrupt,
      leaves the list that was installed before. */
  method RecoverFromBackup(codec: Codec, home: Home, entries: seq<DumpEntry>, calls: Calls, lost: File)
    returns (list: Option<seq<DumpEntry>>)
    requires Inverse(codec) && !home.disk.dumpDirty
    requires home.Copies(codec, entries, calls) && calls.copied && Parsed(codec, lost).None?
    modifies home
    ensures list == Parsed(codec, old(home.disk).dump) && list.Some?
  {
    var _ := home.Save(codec, entries, calls);
    home.Change(home.disk.(dump := lost));
    list := home.Load(codec);
  }

  /** The failing start is one that `save` itself leaves behind. The dump is missing or corrupt and the
      backup good; a save installs a dump, but the sync of the directory fails. Up to here every crash
      leaves a readable list. The next save, with every call succeeding, goes through a state in which a
      crash may leave none. */
  method FailedDirectorySyncEndangersNextSave(codec: Codec, dump: File, older: seq<DumpEntry>,
                                              newer: seq<DumpEntry>, newest: seq<DumpEntry>)
    returns (home: Home, ghost between: nat, ghost moment: nat)
    requires Inverse(codec) && Parsed(codec, dump).None? && newer != [] && newest != []
    ensures between < moment < |home.past|
    ensures forall k :: 0 <= k <= between ==> !MayRead(codec, home.past[k], None)
    ensures MayRead(codec, home.past[moment], None)
    ensures home.disk.dump == Some(codec.encode(newest)) && home.disk.pending == []
  {
    home := new Home(Disk(dump, false, [], Some(codec.encode(older)), false, None, false));
    ghost var start := home.disk;
    var first := home.Save(codec, newer, Calls(true, true, true, true, true, true, false));
    between := |home.past| - 1;
    ghost var left := home.disk;
    ghost var upTo := home.past;
    forall k | 0 <= k <= between ensures !MayRead(codec, upTo[k], None) {
      assert !MayRead(codec, start, None);
      assert k > 0 ==> Guarded(codec, upTo[k], start, newer);
    }
    assert left.pending[0] == dump;
    var second := home.Save(codec, newest, Calls(true, true, true, true, true, true, true));
    moment := |upTo|;
    CopyingReadableIff(codec, home.past[moment], left);
  }
}
