/** What follows from the refinement for single paths, at any point of any guarded run. */
module Promises {
  import opened Maps
  import opened Posix
  import opened Transfer
  import opened CacheModel
  import opened CloseToOpen

  /** Every state a guarded run can reach, for all paths p, descriptors f and g and inodes i:
      a path has a local copy iff it is open, and then it is open once; a handle's
      descriptor and path lead to the same inode; handles share neither path nor inode; no
      other descriptor and no other inode exists. */
  lemma ReachableInvariant(remote: map<Path, Bytes>, calls: seq<Call>, p: Path, f: Fd, g: Fd, i: Ino)
    requires LegalRun(Start(remote), calls) && CleanRun(calls)
    requires GuardedRun(Spec(remote, map[]), calls)
    ensures var w := Run(Start(remote), calls).0;
            && (p in w.names <==> exists h :: h in w.handles && w.handles[h] == p)
            && (f in w.handles ==> f in w.fds && w.handles[f] in w.names && w.names[w.handles[f]] == w.fds[f].ino)
            && (f in w.handles && g in w.handles && f != g ==>
                  w.handles[f] != w.handles[g] && w.fds[f].ino != w.fds[g].ino)
            && (f in w.fds ==> f in w.handles)
            && (i in w.inodes <==> exists h :: h in w.fds && w.fds[h].ino == i)
  {
    StartInv(remote);
    RunRefines(Start(remote), calls);
    var w := Run(Start(remote), calls).0;
    var owner, home :| InvWith(w, owner, home);
    if f in w.handles && g in w.handles {
      assert HandleOk(w, owner, home, f) && HandleOk(w, owner, home, g);
    }
    HeldOnce(w, owner, home, p, i);
  }

  lemma HeldOnce(w: World, owner: map<Path, Fd>, home: map<Ino, Fd>, p: Path, i: Ino)
    requires InvWith(w, owner, home)
    ensures p in w.names <==> exists h :: h in w.handles && w.handles[h] == p
    ensures i in w.inodes <==> exists h :: h in w.fds && w.fds[h].ino == i
  {
    if p in w.names {
      assert NameOk(w, owner, p);
    }
    if h :| h in w.handles && w.handles[h] == p {
      assert HandleOk(w, owner, home, h);
    }
    if i in w.inodes {
      assert InodeOk(w, home, i);
    }
  }

  /** Opening a file moves its lookup from the server to the cache and no client can tell:
      every path keeps the existence and the size that getattr reports. */
  lemma OpenIsInvisible(w: World, c: Call, q: Path)
    requires Inv(w) && Legal(w, c) && Guarded(Abs(w), c) && Clean(c)
    requires c.Open? && Step(w, c).1.Opened?
    ensures c.path !in w.names && c.path in Step(w, c).0.names
    ensures LookUp(Step(w, c).0, q, true) == LookUp(w, q, true)
  {
    NotHeld(w, c.path);
    OpenEffect(w, c.path, c.local, c.incoming);
    CopyIsInvisible(w, c.path, c.local.fd, c.local.ino, q);
  }

  lemma CopyIsInvisible(w: World, p: Path, fd: Fd, ino: Ino, q: Path)
    requires WellFormed(w) && p !in w.names && p in w.remote && fd !in w.fds && ino !in w.inodes
    ensures LookUp(AddHandle(SetLocal(w, p, ino, w.remote[p]), p, fd, ino, true), q, true) == LookUp(w, q, true)
  {
  }

  /** Nor can any client tell when releasing it moves the lookup back. */
  lemma ReleaseIsInvisible(w: World, c: Call, q: Path)
    requires Inv(w) && Legal(w, c) && c.Release? && Clean(c)
    ensures c.path in w.names && c.path !in Step(w, c).0.names
    ensures Step(w, c).1 == Done
    ensures LookUp(Step(w, c).0, q, true) == LookUp(w, q, true)
  {
    PendingIsSnapshot(w, c.fd);
    PublishedIsInvisible(w, c.path, c.fd, c.outgoing, q);
  }

  lemma PublishedIsInvisible(w: World, p: Path, fd: Fd, outgoing: seq<WriteEvent>, q: Path)
    requires WellFormed(w) && fd in w.handles && p in w.names && CleanWrites(outgoing)
    ensures LookUp(StepRelease(w, p, fd, true, outgoing, true).0, q, true) == LookUp(w, q, true)
  {
    var w' := StepRelease(w, p, fd, true, outgoing, true).0;
    CleanUpload(Pending(w, p), outgoing);
    if q in w'.names {
      assert w'.names[q] == w.names[q];
      assert Referenced(w.names[q], w'.names, w'.fds);
    }
  }

  /** Open followed by release restores the whole state, remote and local, whatever the
      chunks of the download and of the upload were. */
  lemma RoundTrip(w: World, c: Call, outgoing: seq<WriteEvent>)
    requires Inv(w) && Legal(w, c) && Guarded(Abs(w), c) && Clean(c)
    requires c.Open? && Step(w, c).1.Opened? && CleanWrites(outgoing)
    ensures var release := Release(c.path, c.local.fd, true, outgoing, true);
            && Legal(Step(w, c).0, release)
            && Step(Step(w, c).0, release) == (w, Done)
  {
    NotHeld(w, c.path);
    OpenEffect(w, c.path, c.local, c.incoming);
    ReleaseUndoesOpen(w, c.path, c.local.fd, c.local.ino, outgoing);
  }

  lemma ReleaseUndoesOpen(w: World, p: Path, fd: Fd, ino: Ino, outgoing: seq<WriteEvent>)
    requires Inv(w) && p !in w.names && fd !in w.fds && ino !in w.inodes && p in w.remote && CleanWrites(outgoing)
    ensures var w1 := AddHandle(SetLocal(w, p, ino, w.remote[p]), p, fd, ino, true);
            StepRelease(w1, p, fd, true, outgoing, true) == (w, Done)
  {
    var w1 := AddHandle(SetLocal(w, p, ino, w.remote[p]), p, fd, ino, true);
    assert Pending(w1, p) == w.remote[p];
    CleanUpload(w.remote[p], outgoing);
    Unbind(w.names, p, ino);
    Unbind(w.fds, fd, OpenFile(ino, true));
    Unbind(w.handles, fd, p);
    Restate(w.remote, p);
    ExactlyReferenced(w);
    ReapsOnlyTheCopy(w.inodes, w.names, w.fds, ino, w.remote[p]);
  }

  lemma ExactlyReferenced(w: World)
    requires Inv(w)
    ensures forall i :: i in w.inodes <==> Referenced(i, w.names, w.fds)
  {
    forall i | i in w.inodes
      ensures Referenced(i, w.names, w.fds)
    {
      AllOpen(w, i);
    }
  }

  lemma ReapsOnlyTheCopy(inodes: map<Ino, Bytes>, names: map<Path, Ino>, fds: map<Fd, OpenFile>, ino: Ino, data: Bytes)
    requires ino !in inodes && forall i :: i in inodes <==> Referenced(i, names, fds)
    ensures Reap(inodes[ino := data], names, fds) == inodes
  {
    var reaped := Reap(inodes[ino := data], names, fds);
    forall i
      ensures i in reaped <==> i in inodes
      ensures i in inodes ==> reaped[i] == inodes[i]
    {
      assert i in inodes <==> Referenced(i, names, fds);
    }
  }

  /** With failures: a read error during the download passes for the end of the file, and
      nobody looks at what the upload drops, so both calls report success regardless. The
      remote file survives an open and release if and only if the download was not broken
      off before the last byte and no turn of the upload dropped any. */
  lemma OpenReleaseExact(w: World, p: Path, local: LocalOpen, incoming: seq<ReadEvent>, outgoing: seq<WriteEvent>)
    requires WellFormed(w) && FreshLocal(w, local) && local.Local? && p in w.remote
    requires StepOpen(w, p, true, local, incoming).1.Opened?
    ensures var w1 := StepOpen(w, p, true, local, incoming).0;
            && local.fd in w1.handles && w1.handles[local.fd] == p
            && var (w2, r) := StepRelease(w1, p, local.fd, true, outgoing, true);
            && r == Done && p in w2.remote
            && (w2.remote[p] == w.remote[p] <==>
                  !BreaksOff(|w.remote[p]|, incoming) && !Drops(|w.remote[p]|, outgoing))
  {
    var data := w.remote[p];
    var kept := Download(|data|, 0, incoming).kept;
    DownloadExact(|data|, 0, incoming);
    if kept == |data| {
      assert data[..kept] == data;
      UploadExact(data, outgoing);
    } else {
      assert |Upload(data[..kept], outgoing)| < |data|;
    }
  }

  /** Renaming an open file to a free path moves its pending snapshot, not the published
      copy: the old path falls back to what the server has, and the release publishes
      under the new path and leaves the old one alone. */
  lemma RenameMovesSnapshot(w: World, fd: Fd, to: Path, outgoing: seq<WriteEvent>)
    requires Inv(w) && fd in w.handles && to !in w.names && CleanWrites(outgoing)
    ensures var from := w.handles[fd];
            var (w1, r1) := StepRename(w, from, to, true);
            && r1 == Done && w1.remote == w.remote && w1.over == w.over
            && LookUp(w1, to, true) == LookUp(w, from, true)
            && LookUp(w1, from, true) == (if from in w.remote then Size(|w.remote[from]|) else Failed)
            && fd in w1.handles && w1.handles[fd] == to
            && var (w2, r2) := StepRelease(w1, to, fd, true, outgoing, true);
            && r2 == Done && w2.remote == w.remote[to := Abs(w).open[fd].data]
  {
    var from := w.handles[fd];
    PendingIsSnapshot(w, fd);
    RenameAway(w, from, to);
    var w1 := StepRename(w, from, to, true).0;
    assert Pending(w1, to) == Pending(w, from);
    CleanUpload(Pending(w, from), outgoing);
  }

  /** Unlinking a path that is open is outside the guard, and this is why: lookups fall
      back to the old remote file, and a release under the same path then publishes an empty
      file and reports an error. The snapshot survives exactly if it was empty. This is about
      these callbacks in this order; see below for what libfuse 2 makes of an unlink. */
  lemma UnlinkWhileOpen(w: World, fd: Fd, outgoing: seq<WriteEvent>)
    requires Inv(w) && fd in w.handles
    ensures var p := w.handles[fd];
            var w1 := Step(w, Unlink(p, true)).0;
            var release := Release(p, fd, true, outgoing, true);
            && LookUp(w1, p, true) == (if p in w.remote then Size(|w.remote[p]|) else Failed)
            && Legal(w1, release)
            && Step(w1, release).1 == Failed
            && Step(w1, release).0.remote == w.remote[p := []]
            && (Step(w1, release).0.remote[p] == Abs(w).open[fd].data <==> Abs(w).open[fd].data == [])
  {
    PendingIsSnapshot(w, fd);
  }

  /** What libfuse 2 passes to a release whose file has lost its path. */
  const NO_PATH: Path := "-"

  /** With its option `hard_remove`, libfuse 2 passes the unlink on as it is, but forgets the
      path. The release then finds nothing, publishes an empty file elsewhere and reports an
      error: the snapshot is gone, and the unlinked file is still on the server. */
  lemma UnlinkWithoutPath(w: World, fd: Fd, outgoing: seq<WriteEvent>, done: bool)
    requires Inv(w) && fd in w.handles && NO_PATH !in w.names
    ensures var w1 := StepUnlink(w, w.handles[fd], true).0;
            && fd in w1.handles
            && var (w2, r) := StepRelease(w1, NO_PATH, fd, true, outgoing, done);
            r == Failed && w2.remote == w.remote[NO_PATH := []]
  {
    PendingIsSnapshot(w, fd);
    var w1 := StepUnlink(w, w.handles[fd], true).0;
    assert Pending(w1, NO_PATH) == [] && w1.remote == w.remote;
    assert UploadFrom([], 0, [], outgoing) == [];
  }

  /** Without that option the same unlink reaches the callbacks as a rename to a hidden name,
      and an unlink of that name after the release. The server then ends up as it was: the
      unlinked file is still there. */
  lemma UnlinkByRenaming(w: World, fd: Fd, hidden: Path, outgoing: seq<WriteEvent>)
    requires Inv(w) && fd in w.handles && hidden !in w.names && hidden !in w.remote && CleanWrites(outgoing)
    ensures var w1 := StepRename(w, w.handles[fd], hidden, true).0;
            && fd in w1.handles && w1.handles[fd] == hidden
            && var w2 := StepRelease(w1, hidden, fd, true, outgoing, true).0;
            && StepUnlink(w2, hidden, true).1 == Done
            && StepUnlink(w2, hidden, true).0.remote == w.remote
  {
    RenameMovesSnapshot(w, fd, hidden, outgoing);
    var w1 := StepRename(w, w.handles[fd], hidden, true).0;
    var w2 := StepRelease(w1, hidden, fd, true, outgoing, true).0;
    assert hidden !in w2.names;
    Unbind(w.remote, hidden, Abs(w).open[fd].data);
  }

  /** Renaming over a path that is open is outside the guard, too. Both files then have that
      path, and once both are released under it, in whatever order, the server has an empty
      file there: neither snapshot survives. This, too, is about these callbacks in this
      order; libfuse 2 by default renames the file at the target out of the way first. */
  lemma RenameOverOpen(w: World, first: Fd, second: Fd, from: Path, to: Path,
                       outgoing: seq<WriteEvent>, outgoing': seq<WriteEvent>)
    requires Inv(w) && first in w.handles && second in w.handles && from != to
    requires || (w.handles[first] == from && w.handles[second] == to)
             || (w.handles[first] == to && w.handles[second] == from)
    ensures var (w1, r1) := StepRename(w, from, to, true);
            && r1 == Done && first in w1.handles && w1.handles[first] == to
            && second in w1.handles && w1.handles[second] == to
            && var w2 := StepRelease(w1, to, first, true, outgoing, true).0;
            && second in w2.handles && w2.handles[second] == to
            && var (w3, r3) := StepRelease(w2, to, second, true, outgoing', true);
            && r3 == Failed && w3.remote == w.remote[to := []]
  {
    PendingIsSnapshot(w, first);
    PendingIsSnapshot(w, second);
    var w1 := StepRename(w, from, to, true).0;
    SecondIsEmpty(w1, to, first, second, outgoing, outgoing');
  }

  lemma SecondIsEmpty(w: World, p: Path, first: Fd, second: Fd, outgoing: seq<WriteEvent>, outgoing': seq<WriteEvent>)
    requires WellFormed(w) && first in w.handles && second in w.handles && first != second
    ensures var w' := StepRelease(w, p, first, true, outgoing, true).0;
            && second in w'.handles && w'.handles[second] == w.handles[second]
            && StepRelease(w', p, second, true, outgoing', true).1 == Failed
            && StepRelease(w', p, second, true, outgoing', true).0.remote == w.remote[p := []]
  {
    var w' := StepRelease(w, p, first, true, outgoing, true).0;
    assert p !in w'.names && Pending(w', p) == [];
    assert UploadFrom([], 0, [], outgoing') == [];
    Rebind(w.remote, p, Upload(Pending(w, p), outgoing), []);
  }

  // ----- What clients can count on at a handle

  /** The guard, told by the state: opening, creating and unlinking ask that the path has no
      local copy, and renaming that the target has none. */
  lemma GuardMeans(w: World, c: Call)
    requires Inv(w)
    ensures Guarded(Abs(w), c) <==>
            && (c.Create? || c.Open? || c.Unlink? ==> c.path !in w.names)
            && (c.Rename? ==> c.from == c.to || c.to !in w.names)
            && (c.Foreign? && c.done ==> c.path in w.names)
            && !c.Link? && !c.Mknod?
  {
    if c.Create? || c.Open? || c.Unlink? || c.Foreign? {
      NotHeld(w, c.path);
    } else if c.Rename? {
      NotHeld(w, c.to);
    } else {
      assert Guarded(Abs(w), c) <==> !c.Link? && !c.Mknod?;
    }
  }

  /** What a write stored is what a read at the same place returns. */
  lemma ReadYourWrites(w: World, fd: Fd, offset: nat, data: Bytes, accepted: nat)
    requires WellFormed(w) && !w.over && fd in w.handles && w.fds[fd].readable && accepted <= |data|
    ensures var (w', r) := Step(w, Write(fd, offset, data, accepted));
            && r == Count(accepted) && Legal(w', Read(fd, offset, accepted))
            && Step(w', Read(fd, offset, accepted)).1 == Data(data[..accepted])
  {
    ReadBack(Contents(w, fd), offset, data[..accepted]);
  }

  /** The size that fstat reports is the number of bytes there are to read: a read of as many
      from the start returns them all, and one byte further on there is nothing. */
  lemma SizeIsReadable(w: World, fd: Fd)
    requires WellFormed(w) && !w.over && fd in w.handles && w.fds[fd].readable
    ensures var r := Step(w, FGetAttr(fd)).1;
            && r.Size?
            && Step(w, Read(fd, 0, r.size)).1.Data? && |Step(w, Read(fd, 0, r.size)).1.data| == r.size
            && forall size: nat :: Step(w, Read(fd, r.size, size)).1 == Data([])
  {
  }

  /** After a truncation, by the descriptor or by the path, both report the new size. */
  lemma TruncatedSize(w: World, fd: Fd, length: nat, byPath: bool, served: bool)
    requires Inv(w) && fd in w.handles
    ensures var c := if byPath then Truncate(w.handles[fd], length) else FTruncate(fd, length);
            && Legal(w, c)
            && var (w', r) := Step(w, c);
            && r == Done && w'.handles == w.handles && Legal(w', FGetAttr(fd))
            && Step(w', FGetAttr(fd)).1 == Size(length) && LookUp(w', w.handles[fd], served) == Size(length)
  {
    OnlyHandles(w);
    SameInode(w, fd);
    var data := Resize(Contents(w, fd), length);
    ResizedSize(w, fd, data, served);
    if byPath {
      assert StepTruncate(w, w.handles[fd], length) == (SetInode(w, w.fds[fd].ino, data), Done);
    } else {
      assert StepFTruncate(w, fd, length) == (SetInode(w, w.fds[fd].ino, data), Done);
    }
  }

  lemma ResizedSize(w: World, fd: Fd, data: Bytes, served: bool)
    requires WellFormed(w) && !w.over && fd in w.handles
    requires w.handles[fd] in w.names && w.names[w.handles[fd]] == w.fds[fd].ino
    ensures var w' := SetInode(w, w.fds[fd].ino, data);
            && w'.handles == w.handles && Legal(w', FGetAttr(fd))
            && Step(w', FGetAttr(fd)).1 == Size(|data|) && LookUp(w', w.handles[fd], served) == Size(|data|)
  {
  }

  lemma SameInode(w: World, fd: Fd)
    requires Inv(w) && fd in w.handles
    ensures w.handles[fd] in w.names && w.names[w.handles[fd]] == w.fds[fd].ino
  {
    var owner, home :| InvWith(w, owner, home);
    assert HandleOk(w, owner, home, fd);
  }

  /** What an open file reads at first is the file on the server; what create makes is empty
      and cannot be read, and publishes an empty file. */
  lemma FirstRead(w: World, p: Path, local: LocalOpen, incoming: seq<ReadEvent>, size: nat)
    requires WellFormed(w) && FreshLocal(w, local) && local.Local? && p in w.remote && CleanReads(incoming) && !w.over
    ensures var w' := StepOpen(w, p, true, local, incoming).0;
            && Legal(w', Read(local.fd, 0, size))
            && (|w.remote[p]| <= size ==> Step(w', Read(local.fd, 0, size)).1 == Data(w.remote[p]))
  {
    OpenEffect(w, p, local, incoming);
  }

  lemma CreatedFile(w: World, p: Path, local: LocalOpen, offset: int, size: nat, outgoing: seq<WriteEvent>)
    requires WellFormed(w) && FreshLocal(w, local) && local.Local? && !w.over
    ensures var w' := StepCreate(w, p, local).0;
            && Legal(w', Read(local.fd, offset, size)) && Step(w', Read(local.fd, offset, size)).1 == Failed
            && Step(w', FGetAttr(local.fd)).1 == Size(0)
            && StepRelease(w', p, local.fd, true, outgoing, true).0.remote == w.remote[p := []]
  {
    assert UploadFrom([], 0, [], outgoing) == [];
  }
}
