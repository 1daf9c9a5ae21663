/** What holds over all runs, guarded or not, with every failure the environment can
    produce: who may change the server, and where descriptors and pending bytes go. */
module Discipline {
  import opened Maps
  import opened Posix
  import opened Transfer
  import opened CacheModel
  import opened Chunks
  import opened CloseToOpen
  import opened Failures

  // ----- Write-back discipline

  /** The calls that may change what the server has under `q`: a release of `q` the server
      lets in, and an unlink of `q` while there is no local copy. */
  predicate Publishes(w: World, c: Call, q: Path) {
    || (c.Release? && c.path == q && c.served)
    || (c.Unlink? && c.path == q && q !in w.names && c.done)
  }

  predicate SameFile(a: map<Path, Bytes>, b: map<Path, Bytes>, q: Path) {
    (q in a <==> q in b) && (q in a ==> a[q] == b[q])
  }

  lemma StepDiscipline(w: World, c: Call, q: Path)
    requires WellFormed(w) && Legal(w, c)
    ensures !Publishes(w, c, q) ==> SameFile(w.remote, Step(w, c).0.remote, q)
    ensures Publishes(w, c, q) && c.Unlink? ==> q !in Step(w, c).0.remote
    ensures Publishes(w, c, q) && c.Release? ==>
              q in Step(w, c).0.remote && Step(w, c).0.remote[q] == Upload(Pending(w, q), c.outgoing)
  {
    if c.Create? || c.Open? {
      OpeningKeepsServer(w, c);
    } else if !c.Release? && !c.Unlink? {
      OtherKeepsServer(w, c);
    }
  }

  lemma OpeningKeepsServer(w: World, c: Call)
    requires WellFormed(w) && Legal(w, c) && (c.Create? || c.Open?)
    ensures Step(w, c).0.remote == w.remote
  {
  }

  lemma OtherKeepsServer(w: World, c: Call)
    requires WellFormed(w) && Legal(w, c) && !c.Create? && !c.Open? && !c.Release? && !c.Unlink?
    ensures Step(w, c).0.remote == w.remote
  {
  }

  predicate NeverPublishes(w: World, calls: seq<Call>, q: Path)
    requires WellFormed(w) && LegalRun(w, calls)
    decreases |calls|
  {
    calls == [] || (!Publishes(w, calls[0], q) && NeverPublishes(Step(w, calls[0]).0, calls[1..], q))
  }

  /** Reads, writes, opens, renames, failures: nothing else ever reaches the server. */
  lemma {:induction false} WriteBackOnly(w: World, calls: seq<Call>, q: Path)
    requires WellFormed(w) && LegalRun(w, calls) && NeverPublishes(w, calls, q)
    ensures SameFile(w.remote, Run(w, calls).0.remote, q)
    decreases |calls|
  {
    if calls != [] {
      StepDiscipline(w, calls[0], q);
      WriteBackOnly(Step(w, calls[0]).0, calls[1..], q);
    }
  }

  // ----- Conservation of descriptors

  /** Descriptors that are open although no handle is left to close them. */
  function Stranded(w: World): set<Fd> {
    w.fds.Keys - w.handles.Keys
  }

  predicate FailsToPublish(c: Call) {
    c.Release? && !c.served
  }

  function FailedReleases(calls: seq<Call>): nat {
    if calls == [] then 0 else (if FailsToPublish(calls[0]) then 1 else 0) + FailedReleases(calls[1..])
  }

  function Abandoned(calls: seq<Call>): set<Fd> {
    set i | 0 <= i < |calls| && FailsToPublish(calls[i]) :: calls[i].fd
  }

  /** The descriptors that are open before and after lead where they led. */
  predicate SameFds(w: World, w': World) {
    forall f :: f in w.fds && f in w'.fds ==> w'.fds[f] == w.fds[f]
  }

  /** A new descriptor comes with its handle. */
  lemma OpeningStrands(w: World, c: Call)
    requires WellFormed(w) && Legal(w, c) && (c.Create? || c.Open?)
    ensures Stranded(Step(w, c).0) == Stranded(w) && SameFds(w, Step(w, c).0)
  {
  }

  /** A handle goes with its descriptor, unless the server refuses. */
  lemma ReleaseStrands(w: World, c: Call)
    requires WellFormed(w) && Legal(w, c) && c.Release?
    ensures Stranded(Step(w, c).0) == Stranded(w) + if c.served then {} else {c.fd}
    ensures c.fd !in Stranded(w) && SameFds(w, Step(w, c).0)
  {
  }

  lemma UnlinkStrands(w: World, p: Path, done: bool)
    requires WellFormed(w)
    ensures StepUnlink(w, p, done).0.fds == w.fds && StepUnlink(w, p, done).0.handles == w.handles
  {
  }

  lemma RenameStrands(w: World, from: Path, to: Path, done: bool)
    requires WellFormed(w)
    ensures var w' := StepRename(w, from, to, done).0; w'.fds == w.fds && w'.handles.Keys == w.handles.Keys
  {
  }

  lemma EditStrands(w: World, c: Call)
    requires WellFormed(w) && Legal(w, c) && (c.Write? || c.FTruncate? || c.Truncate?)
    ensures Step(w, c).0.fds == w.fds && Step(w, c).0.handles == w.handles
  {
  }

  lemma NameCallStrands(w: World, c: Call)
    requires WellFormed(w) && Legal(w, c) && (c.Unlink? || c.Rename? || c.Link? || c.Mknod?)
    ensures Step(w, c).0.fds == w.fds && Step(w, c).0.handles.Keys == w.handles.Keys
  {
    match c
    case Unlink(p, done) => UnlinkStrands(w, p, done);
    case Rename(from, to, done) => RenameStrands(w, from, to, done);
    case _ =>
  }

  lemma QueryStrands(w: World, c: Call)
    requires WellFormed(w) && Legal(w, c)
    requires c.GetAttr? || c.Read? || c.FGetAttr? || c.Foreign? || c.Forwarded?
    ensures Step(w, c).0.fds == w.fds && Step(w, c).0.handles == w.handles
  {
  }

  lemma StepStrands(w: World, c: Call)
    requires WellFormed(w) && Legal(w, c)
    ensures Stranded(Step(w, c).0) == Stranded(w) + if FailsToPublish(c) then {c.fd} else {}
    ensures FailsToPublish(c) ==> c.fd !in Stranded(w)
    ensures SameFds(w, Step(w, c).0)
  {
    if c.Create? || c.Open? {
      OpeningStrands(w, c);
    } else if c.Release? {
      ReleaseStrands(w, c);
    } else if c.Write? || c.FTruncate? || c.Truncate? {
      EditStrands(w, c);
    } else if c.Unlink? || c.Rename? || c.Link? || c.Mknod? {
      NameCallStrands(w, c);
    } else {
      QueryStrands(w, c);
    }
  }

  /** In every reachable state the open descriptors are the live handles and the
      descriptors of the releases the server refused... */
  lemma {:induction false} DescriptorsConserved(w: World, calls: seq<Call>)
    requires WellFormed(w) && LegalRun(w, calls)
    ensures Stranded(Run(w, calls).0) == Stranded(w) + Abandoned(calls)
    decreases |calls|
  {
    if calls == [] {
      assert Abandoned(calls) == {};
    } else {
      StepStrands(w, calls[0]);
      DescriptorsConserved(Step(w, calls[0]).0, calls[1..]);
      AbandonedCons(calls);
    }
  }

  /** ... each of them once, so that their numbers add up. */
  lemma {:induction false} DescriptorsCounted(w: World, calls: seq<Call>)
    requires WellFormed(w) && LegalRun(w, calls)
    ensures var end := Run(w, calls).0;
            |end.fds| - |end.handles| == |w.fds| - |w.handles| + FailedReleases(calls)
    decreases |calls|
  {
    if calls != [] {
      StepCounts(w, calls[0]);
      DescriptorsCounted(Step(w, calls[0]).0, calls[1..]);
    }
  }

  lemma StepCounts(w: World, c: Call)
    requires WellFormed(w) && Legal(w, c)
    ensures var w' := Step(w, c).0;
            |w'.fds| - |w'.handles| == |w.fds| - |w.handles| + if FailsToPublish(c) then 1 else 0
  {
    StepStrands(w, c);
    Counted(w);
    Counted(Step(w, c).0);
  }

  lemma AbandonedCons(calls: seq<Call>)
    requires calls != []
    ensures Abandoned(calls) == (if FailsToPublish(calls[0]) then {calls[0].fd} else {}) + Abandoned(calls[1..])
  {
    forall f | f in Abandoned(calls[1..])
      ensures f in Abandoned(calls)
    {
      var i :| 0 <= i < |calls[1..]| && FailsToPublish(calls[1..][i]) && calls[1..][i].fd == f;
      assert calls[i + 1].fd == f;
    }
    forall f | f in Abandoned(calls)
      ensures f in (if FailsToPublish(calls[0]) then {calls[0].fd} else {}) + Abandoned(calls[1..])
    {
      var i :| 0 <= i < |calls| && FailsToPublish(calls[i]) && calls[i].fd == f;
      assert i > 0 ==> calls[1..][i - 1].fd == f;
    }
  }

  lemma Counted(w: World)
    requires WellFormed(w)
    ensures |Stranded(w)| == |w.fds| - |w.handles|
  {
    assert w.fds.Keys == Stranded(w) + w.handles.Keys;
  }

  // ----- Pending bytes

  /** The calls that change the bytes of inode `i` as long as something refers to it. */
  predicate WritesInode(w: World, c: Call, i: Ino)
    requires WellFormed(w) && Legal(w, c)
  {
    match c
    case Create(p, local) => local.Local? && p in w.names && w.names[p] == i
    case Open(p, served, local, _) => served && p in w.remote && local.Local? && p in w.names && w.names[p] == i
    case Write(fd, _, _, _) => w.fds[fd].ino == i
    case FTruncate(fd, _) => w.fds[fd].ino == i
    case Truncate(p, _) => p in w.names && w.names[p] == i
    case _ => false
  }

  predicate NeverWrites(w: World, calls: seq<Call>, i: Ino)
    requires WellFormed(w) && LegalRun(w, calls)
    decreases |calls|
  {
    calls == [] || (!WritesInode(w, calls[0], i) && NeverWrites(Step(w, calls[0]).0, calls[1..], i))
  }

  lemma StepKeepsPending(w: World, c: Call, fd: Fd)
    requires WellFormed(w) && Legal(w, c) && fd in Stranded(w) && !WritesInode(w, c, w.fds[fd].ino)
    ensures var w' := Step(w, c).0;
            && fd in Stranded(w') && w'.fds[fd] == w.fds[fd]
            && w'.inodes[w.fds[fd].ino] == w.inodes[w.fds[fd].ino]
  {
    StepStrands(w, c);
    var w' := Step(w, c).0;
    assert fd in Stranded(w') && w'.fds[fd] == w.fds[fd];
    StepKeepsInode(w, c, w.fds[fd].ino);
  }

  /** An inode that is still referred to afterwards and that the call does not write. */
  lemma StepKeepsInode(w: World, c: Call, i: Ino)
    requires WellFormed(w) && Legal(w, c) && !WritesInode(w, c, i)
    requires i in w.inodes && Referenced(i, Step(w, c).0.names, Step(w, c).0.fds)
    ensures i in Step(w, c).0.inodes && Step(w, c).0.inodes[i] == w.inodes[i]
  {
    if c.Create? || c.Open? {
      OpeningKeepsInode(w, c, i);
    } else if c.Release? || c.Unlink? || c.Rename? || c.Link? {
      DroppingKeepsInode(w, c, i);
    } else {
      OtherKeepsInode(w, c, i);
    }
  }

  lemma OpeningKeepsInode(w: World, c: Call, i: Ino)
    requires WellFormed(w) && Legal(w, c) && !WritesInode(w, c, i) && (c.Create? || c.Open?)
    requires i in w.inodes && Referenced(i, Step(w, c).0.names, Step(w, c).0.fds)
    ensures i in Step(w, c).0.inodes && Step(w, c).0.inodes[i] == w.inodes[i]
  {
  }

  lemma DroppingKeepsInode(w: World, c: Call, i: Ino)
    requires WellFormed(w) && Legal(w, c) && (c.Release? || c.Unlink? || c.Rename? || c.Link?)
    requires i in w.inodes && Referenced(i, Step(w, c).0.names, Step(w, c).0.fds)
    ensures i in Step(w, c).0.inodes && Step(w, c).0.inodes[i] == w.inodes[i]
  {
  }

  lemma OtherKeepsInode(w: World, c: Call, i: Ino)
    requires WellFormed(w) && Legal(w, c) && !WritesInode(w, c, i) && i in w.inodes
    requires !c.Create? && !c.Open? && !c.Release? && !c.Unlink? && !c.Rename? && !c.Link?
    ensures i in Step(w, c).0.inodes && Step(w, c).0.inodes[i] == w.inodes[i]
  {
  }

  /** The bytes of a refused release stay where they were for as long as no call writes
      that inode, whatever else happens. */
  lemma {:induction false} PendingBytesKept(w: World, calls: seq<Call>, fd: Fd)
    requires WellFormed(w) && LegalRun(w, calls) && fd in Stranded(w) && NeverWrites(w, calls, w.fds[fd].ino)
    ensures var end := Run(w, calls).0;
            && fd in Stranded(end) && end.fds[fd] == w.fds[fd]
            && end.inodes[w.fds[fd].ino] == w.inodes[w.fds[fd].ino]
    decreases |calls|
  {
    if calls != [] {
      StepKeepsPending(w, calls[0], fd);
      PendingBytesKept(Step(w, calls[0]).0, calls[1..], fd);
    }
  }

  /** Opening the path again is such a write, exactly if the server has the file and lets
      the open in. It does not have a file made with create and never published: such a path
      stays visible with the size of its last snapshot, and opening it fails. */
  lemma ReopenExact(w: World, fd: Fd, served: bool, local: LocalOpen, incoming: seq<ReadEvent>)
    requires Tidy(w) && fd in w.handles && FreshLocal(w, local)
    ensures var p, i, data := w.handles[fd], w.fds[fd].ino, Contents(w, fd);
            var w1 := StepRelease(w, p, fd, false, [], true).0;
            var (w2, r) := StepOpen(w1, p, served, local, incoming);
            && LookUp(w1, p, true) == Size(|data|)
            && fd in Stranded(w2) && w2.fds[fd] == w.fds[fd] && i in w2.inodes && w2.remote == w.remote
            && w2.inodes[i] == (if p in w.remote && served && local.Local?
                                then w.remote[p][..Download(|w.remote[p]|, 0, incoming).kept] else data)
            && (p !in w.remote || !served ==> (w2, r) == (w1, Failed))
  {
    OpenOnce(w, fd);
    var p := w.handles[fd];
    Reopened(w.(handles := w.handles - {fd}), p, served, local, incoming);
  }

  /** Any open of a path that has a local copy. */
  lemma Reopened(w: World, p: Path, served: bool, local: LocalOpen, incoming: seq<ReadEvent>)
    requires WellFormed(w) && FreshLocal(w, local) && p in w.names
    ensures var w' := StepOpen(w, p, served, local, incoming).0;
            && w'.remote == w.remote && w'.names == w.names
            && w'.inodes[w.names[p]] == (if p in w.remote && served && local.Local?
                                         then w.remote[p][..Download(|w.remote[p]|, 0, incoming).kept]
                                         else w.inodes[w.names[p]])
            && forall f :: f in w.fds ==>
                 f in w'.fds && w'.fds[f] == w.fds[f] && (f in w'.handles <==> f in w.handles)
  {
    if p in w.remote && served && local.Local? {
      var data := w.remote[p][..Download(|w.remote[p]|, 0, incoming).kept];
      var filled := SetLocal(w, p, local.ino, data);
      assert filled.names == w.names;
      assert Referenced(w.names[p], filled.names, filled.fds);
    }
  }

  /** Where it is, the client's edits are lost: open, refused release, open again, release
      leaves the server as it was, and the stranded descriptor sees the server's bytes in
      place of its own. */
  lemma ReopenLosesPending(w: World, fd: Fd, local: LocalOpen, incoming: seq<ReadEvent>, outgoing: seq<WriteEvent>)
    requires Tidy(w) && fd in w.handles && w.handles[fd] in w.remote && FreshLocal(w, local) && local.Local?
    requires CleanReads(incoming) && CleanWrites(outgoing)
    ensures var p := w.handles[fd];
            var w1 := StepRelease(w, p, fd, false, [], true).0;
            var w2 := StepOpen(w1, p, true, local, incoming).0;
            && fd in Stranded(w2) && w2.inodes[w2.fds[fd].ino] == w.remote[p]
            && local.fd in w2.handles
            && StepRelease(w2, p, local.fd, true, outgoing, true).0.remote == w.remote
  {
    var p := w.handles[fd];
    OpenOnce(w, fd);
    var w1 := w.(handles := w.handles - {fd});
    OpenEffect(w1, p, local, incoming);
    ReleaseRestores(w1, p, local.fd, local.ino, outgoing);
  }

  lemma ReleaseRestores(w: World, p: Path, fd: Fd, ino: Ino, outgoing: seq<WriteEvent>)
    requires WellFormed(w) && p in w.remote && fd !in w.fds && ino !in w.inodes && CleanWrites(outgoing)
    ensures var w' := AddHandle(SetLocal(w, p, ino, w.remote[p]), p, fd, Target(w, p, ino), true);
            StepRelease(w', p, fd, true, outgoing, true).0.remote == w.remote
  {
    var w' := AddHandle(SetLocal(w, p, ino, w.remote[p]), p, fd, Target(w, p, ino), true);
    assert Pending(w', p) == w.remote[p];
    CleanUpload(w.remote[p], outgoing);
    Restate(w.remote, p);
  }

  // ----- Failing calls

  /** When a call fails. */
  predicate Fails(w: World, c: Call)
    requires WellFormed(w) && Legal(w, c)
  {
    match c
    case GetAttr(p, served) => p !in w.names && (p !in w.remote || !served)
    case Create(_, local) => local.NoLocal?
    case Open(p, served, local, incoming) =>
      p !in w.remote || !served || local.NoLocal? || FallsShort(|w.remote[p]|, incoming)
    case Read(fd, offset, _) => offset < 0 || !w.fds[fd].readable
    case Write(_, offset, _, accepted) => offset < 0 || accepted < 0
    case FTruncate(_, length) => length < 0
    case FGetAttr(_) => false
    case Release(p, _, served, _, done) => !served || !done || p !in w.names
    case Unlink(p, done) => !done || (p !in w.names && p !in w.remote)
    case Truncate(p, length) => length < 0 || p !in w.names
    case Rename(from, _, done) => !done || from !in w.names
    case Link(from, to) => from !in w.names || to in w.names
    case Mknod(p, _) => p in w.names
    case Foreign(p, done) => !done || p in w.names
    case Forwarded(answer) => answer == Failed
  }

  lemma PathCallFails(w: World, c: Call)
    requires WellFormed(w) && Legal(w, c) && (c.GetAttr? || c.Unlink? || c.Truncate? || c.Rename? || c.Foreign?)
    ensures Step(w, c).1 == Failed <==> Fails(w, c)
    ensures Fails(w, c) ==> Step(w, c).0 == w
  {
  }

  lemma NewNameFails(w: World, c: Call)
    requires WellFormed(w) && Legal(w, c) && (c.Create? || c.Link? || c.Mknod? || c.Forwarded?)
    ensures Step(w, c).1 == Failed <==> Fails(w, c)
    ensures Fails(w, c) ==> Step(w, c).0 == w
  {
  }

  lemma FileCallFails(w: World, c: Call)
    requires WellFormed(w) && Legal(w, c) && (c.Read? || c.Write? || c.FTruncate? || c.FGetAttr?)
    ensures Step(w, c).1 == Failed <==> Fails(w, c)
    ensures Fails(w, c) ==> Step(w, c).0 == w
  {
  }

  lemma ReleaseFails(w: World, c: Call)
    requires WellFormed(w) && Legal(w, c) && c.Release?
    ensures Step(w, c).1 == Failed <==> Fails(w, c)
  {
  }

  lemma OpenFails(w: World, c: Call)
    requires WellFormed(w) && Legal(w, c) && c.Open?
    ensures Step(w, c).1 == Failed <==> Fails(w, c)
    ensures c.path !in w.remote || !c.served ==> Step(w, c).0 == w
    ensures Fails(w, c) && c.path in w.remote && c.served ==> Step(w, c).0.over
  {
    if c.path in w.remote && c.local.Local? {
      OpensUnlessShort(w, c.path, c.local, c.incoming);
    }
  }

  /** A call fails exactly in these cases, and one that fails changes nothing at all, but for
      a release and for an open that ends the session. */
  lemma FailedChangesNothing(w: World, c: Call)
    requires WellFormed(w) && Legal(w, c)
    ensures Step(w, c).1 == Failed <==> Fails(w, c)
    ensures Fails(w, c) && !c.Release? && !Step(w, c).0.over ==> Step(w, c).0 == w
  {
    if c.Open? {
      OpenFails(w, c);
    } else if c.Release? {
      ReleaseFails(w, c);
    } else if c.Create? || c.Link? || c.Mknod? || c.Forwarded? {
      NewNameFails(w, c);
    } else if c.Read? || c.Write? || c.FTruncate? || c.FGetAttr? {
      FileCallFails(w, c);
    } else {
      PathCallFails(w, c);
    }
  }
}
