/** Close-to-open semantics: what the cache promises its users. An open file is a private
    snapshot; closing it publishes the snapshot whole. Nothing here knows of names,
    inodes, descriptors or chunks. */
module CloseToOpen {
  import opened Maps
  import opened Posix
  import opened CacheModel
  import opened Transfer

  datatype Snapshot = Snapshot(path: Path, data: Bytes, readable: bool)

  datatype Spec = Spec(published: map<Path, Bytes>, open: map<Fd, Snapshot>)

  /** The open files on `p`. */
  function Holders(s: Spec, p: Path): set<Fd> {
    set f | f in s.open && s.open[f].path == p
  }

  ghost function Pick(fds: set<Fd>): (f: Fd)
    requires fds != {}
    ensures f in fds
  {
    var f :| f in fds;
    f
  }

  /** An open file on `p`; under the guard there is never more than one. */
  ghost function Holder(s: Spec, p: Path): (f: Fd)
    requires Holders(s, p) != {}
    ensures f in s.open && s.open[f].path == p
  {
    Pick(Holders(s, p))
  }

  ghost function SpecLookUp(s: Spec, p: Path, served: bool): Reply {
    if Holders(s, p) != {} then Size(|s.open[Holder(s, p)].data|)
    else if p in s.published && served then Size(|s.published[p]|)
    else Failed
  }

  function Edit(s: Spec, fd: Fd, data: Bytes): Spec
    requires fd in s.open
  {
    s.(open := s.open[fd := s.open[fd].(data := data)])
  }

  /** The open files on `from` carry the path `to` from now on. */
  function Move(open: map<Fd, Snapshot>, from: Path, to: Path): (moved: map<Fd, Snapshot>)
    ensures moved.Keys == open.Keys
    ensures forall f :: f in open ==> moved[f] == if open[f].path == from then open[f].(path := to) else open[f]
  {
    map f | f in open :: if open[f].path == from then open[f].(path := to) else open[f]
  }

  ghost function SpecStep(s: Spec, c: Call): (Spec, Reply) {
    match c
    case GetAttr(p, served) => (s, SpecLookUp(s, p, served))
    case Create(p, Local(fd, _)) => (s.(open := s.open[fd := Snapshot(p, [], false)]), Opened(fd))
    case Open(p, served, Local(fd, _), _) =>
      if p in s.published && served
      then (s.(open := s.open[fd := Snapshot(p, s.published[p], true)]), Opened(fd))
      else (s, Failed)
    case Read(fd, offset, size) =>
      if fd in s.open && s.open[fd].readable && 0 <= offset
      then (s, Data(ReadAt(s.open[fd].data, offset, size)))
      else (s, Failed)
    case Write(fd, offset, data, accepted) =>
      if fd in s.open && 0 <= offset && 0 <= accepted <= |data|
      then (Edit(s, fd, Overwrite(s.open[fd].data, offset, data[..accepted])), Count(accepted))
      else (s, Failed)
    case FTruncate(fd, length) =>
      if fd in s.open && 0 <= length
      then (Edit(s, fd, Resize(s.open[fd].data, length)), Done)
      else (s, Failed)
    case FGetAttr(fd) => (s, if fd in s.open then Size(|s.open[fd].data|) else Failed)
    case Release(p, fd, _, _, _) =>
      if fd in s.open
      then (Spec(s.published[p := s.open[fd].data], s.open - {fd}), Done)
      else (s, Failed)
    case Unlink(p, done) =>
      if p in s.published && done then (s.(published := s.published - {p}), Done) else (s, Failed)
    case Truncate(p, length) =>
      if Holders(s, p) != {} && 0 <= length
      then (Edit(s, Holder(s, p), Resize(s.open[Holder(s, p)].data, length)), Done)
      else (s, Failed)
    case Rename(from, to, done) =>
      if Holders(s, from) != {} && done
      then (s.(open := Move(s.open, from, to)), Done)
      else (s, Failed)
    case Forwarded(answer) => (s, answer)
    case _ => (s, Failed)
  }

  /** What clients must do for all this to be true: never have one path open twice, and
      neither unlink nor rename over a path while it is open. Hard links, device nodes,
      directories and symbolic links are outside the promise. */
  predicate Guarded(s: Spec, c: Call) {
    match c
    case Create(p, _) => Holders(s, p) == {}
    case Open(p, _, _, _) => Holders(s, p) == {}
    case Unlink(p, _) => Holders(s, p) == {}
    case Rename(from, to, _) => from == to || Holders(s, to) == {}
    case Link(_, _) => false
    case Mknod(_, _) => false
    case Foreign(p, done) => done ==> Holders(s, p) != {}
    case _ => true
  }

  /** No failure of the transport or of the cache directory. The server may still refuse
      to open, stat or unlink, and pwrite may still store less than it was given. */
  predicate Clean(c: Call) {
    match c
    case Open(_, _, local, incoming) => local.Local? && CleanReads(incoming)
    case Release(_, _, served, outgoing, done) => served && done && CleanWrites(outgoing)
    case _ => true
  }

  ghost predicate GuardedRun(s: Spec, calls: seq<Call>)
    decreases |calls|
  {
    calls == [] || (Guarded(s, calls[0]) && GuardedRun(SpecStep(s, calls[0]).0, calls[1..]))
  }

  predicate CleanRun(calls: seq<Call>) {
    forall i :: 0 <= i < |calls| ==> Clean(calls[i])
  }

  ghost function SpecRun(s: Spec, calls: seq<Call>): (Spec, seq<Reply>)
    decreases |calls|
  {
    if calls == [] then
      (s, [])
    else
      var (s', reply) := SpecStep(s, calls[0]);
      var (end, replies) := SpecRun(s', calls[1..]);
      (end, [reply] + replies)
  }

  /** The state of the specification after the first `k` calls. */
  ghost function SpecAt(s: Spec, calls: seq<Call>, k: nat): Spec
    requires k <= |calls|
    decreases k
  {
    if k == 0 then s else SpecAt(SpecStep(s, calls[0]).0, calls[1..], k - 1)
  }

  /** The guard is asked of every call in the state it meets, and the specification takes one
      step after the other. */
  lemma {:induction false} SpecRunIs(calls: seq<Call>, states: seq<Spec>, replies: seq<Reply>)
    requires |states| == |calls| + 1 && |replies| == |calls|
    requires forall k :: 0 <= k < |calls| ==> SpecStep(states[k], calls[k]) == (states[k + 1], replies[k])
    ensures SpecRun(states[0], calls) == (states[|calls|], replies)
    ensures GuardedRun(states[0], calls) <==> forall k :: 0 <= k < |calls| ==> Guarded(states[k], calls[k])
    decreases |calls|
  {
    if calls != [] {
      assert SpecStep(states[0], calls[0]) == (states[1], replies[0]);
      SpecRunIs(calls[1..], states[1..], replies[1..]);
      assert [replies[0]] + replies[1..] == replies;
      assert forall k :: 1 <= k < |calls| ==> calls[k] == calls[1..][k - 1] && states[k] == states[1..][k - 1];
      if forall k :: 0 <= k < |calls| ==> Guarded(states[k], calls[k]) {
        assert Guarded(states[0], calls[0]);
      }
    }
  }

  // ----- The cache refines the specification

  /** A handle's descriptor and path lead to the same inode, and nobody else's. */
  predicate HandleOk(w: World, owner: map<Path, Fd>, home: map<Ino, Fd>, f: Fd)
    requires f in w.handles && f in w.fds
  {
    var p, i := w.handles[f], w.fds[f].ino;
    p in w.names && w.names[p] == i && p in owner && owner[p] == f && i in home && home[i] == f
  }

  predicate NameOk(w: World, owner: map<Path, Fd>, p: Path) {
    p in owner && owner[p] in w.handles && w.handles[owner[p]] == p
  }

  predicate InodeOk(w: World, home: map<Ino, Fd>, i: Ino) {
    i in home && home[i] in w.fds && w.fds[home[i]].ino == i
  }

  /** `owner` finds the open file of a local copy by its path, `home` by its inode. */
  ghost predicate InvWith(w: World, owner: map<Path, Fd>, home: map<Ino, Fd>) {
    && WellFormed(w) && !w.over
    && w.fds.Keys == w.handles.Keys
    && (forall f :: f in w.handles ==> HandleOk(w, owner, home, f))
    && (forall p :: p in w.names ==> NameOk(w, owner, p))
    && (forall i :: i in w.inodes ==> InodeOk(w, home, i))
  }

  /** What holds in every state reachable under the guard; `ReachableInvariant` in
      module Promises spells it out. */
  ghost predicate Inv(w: World) {
    exists owner, home :: InvWith(w, owner, home)
  }

  lemma InvFrom(w: World, owner: map<Path, Fd>, home: map<Ino, Fd>)
    requires InvWith(w, owner, home)
    ensures Inv(w)
  {
  }

  function Abs(w: World): Spec
    requires WellFormed(w)
  {
    Spec(w.remote, map f | f in w.handles :: Snapshot(w.handles[f], w.inodes[w.fds[f].ino], w.fds[f].readable))
  }

  /** Under the invariant, open files are found by path and local copies by name alike. */
  lemma NamesAreHeld(w: World, owner: map<Path, Fd>, home: map<Ino, Fd>, p: Path)
    requires InvWith(w, owner, home)
    ensures Holders(Abs(w), p) == if p in w.names then {owner[p]} else {}
  {
  }

  lemma StartInv(remote: map<Path, Bytes>)
    ensures Inv(Start(remote)) && Abs(Start(remote)) == Spec(remote, map[])
  {
    assert InvWith(Start(remote), map[], map[]);
  }

  lemma OnlyHandles(w: World)
    requires Inv(w)
    ensures !w.over && w.fds.Keys == w.handles.Keys && Abs(w).open.Keys == w.handles.Keys
  {
    var owner, home :| InvWith(w, owner, home);
  }

  /** Under the invariant every inode belongs to an open descriptor. */
  lemma AllOpen(w: World, i: Ino)
    requires Inv(w) && i in w.inodes
    ensures exists f :: f in w.fds && w.fds[f].ino == i
  {
    var owner, home :| InvWith(w, owner, home);
    assert InodeOk(w, home, i);
  }

  lemma AbsIs(w: World, s: Spec)
    requires WellFormed(w) && s.published == w.remote && s.open.Keys == w.handles.Keys
    requires forall f :: f in w.handles ==>
               s.open[f] == Snapshot(w.handles[f], w.inodes[w.fds[f].ino], w.fds[f].readable)
    ensures Abs(w) == s
  {
  }

  /** Both ways of opening a file: a fresh descriptor on a fresh inode behind a new name. */
  lemma OpeningKeepsInv(w: World, p: Path, fd: Fd, ino: Ino, data: Bytes, readable: bool)
    requires Inv(w) && p !in w.names && fd !in w.fds && ino !in w.inodes
    ensures Inv(AddHandle(SetLocal(w, p, ino, data), p, fd, ino, readable))
  {
    var owner, home :| InvWith(w, owner, home);
    var w' := AddHandle(SetLocal(w, p, ino, data), p, fd, ino, readable);
    OpenedInv(w, w', owner, home, p, fd, ino, readable);
    InvFrom(w', owner[p := fd], home[ino := fd]);
  }

  lemma OpenedInv(w: World, w': World, owner: map<Path, Fd>, home: map<Ino, Fd>, p: Path, fd: Fd, ino: Ino,
                  readable: bool)
    requires InvWith(w, owner, home) && p !in w.names && fd !in w.fds && ino !in w.inodes
    requires WellFormed(w') && w'.over == w.over
    requires w'.names == w.names[p := ino] && w'.handles == w.handles[fd := p]
    requires w'.inodes.Keys == w.inodes.Keys + {ino} && w'.fds == w.fds[fd := OpenFile(ino, readable)]
    ensures InvWith(w', owner[p := fd], home[ino := fd])
  {
    Unbind(w.fds, fd, OpenFile(ino, readable));
    OpenedHandles(w, w', owner, home, p, fd, ino);
    OpenedNames(w, w', owner, home, p, fd, ino);
  }

  lemma OpenedHandles(w: World, w': World, owner: map<Path, Fd>, home: map<Ino, Fd>, p: Path, fd: Fd, ino: Ino)
    requires InvWith(w, owner, home) && p !in w.names && fd !in w.fds && ino !in w.inodes
    requires w'.names == w.names[p := ino] && w'.handles == w.handles[fd := p]
    requires fd in w'.fds && w'.fds[fd].ino == ino && w'.fds - {fd} == w.fds
    ensures forall f :: f in w'.handles ==> f in w'.fds && HandleOk(w', owner[p := fd], home[ino := fd], f)
  {
    forall f | f in w'.handles
      ensures f in w'.fds && HandleOk(w', owner[p := fd], home[ino := fd], f)
    {
      if f != fd {
        assert HandleOk(w, owner, home, f);
        assert f in w'.fds - {fd} && w'.fds[f] == w.fds[f];
      }
    }
  }

  lemma OpenedNames(w: World, w': World, owner: map<Path, Fd>, home: map<Ino, Fd>, p: Path, fd: Fd, ino: Ino)
    requires InvWith(w, owner, home) && p !in w.names && fd !in w.fds && ino !in w.inodes
    requires w'.names == w.names[p := ino] && w'.handles == w.handles[fd := p]
    requires w'.inodes.Keys == w.inodes.Keys + {ino}
    requires fd in w'.fds && w'.fds[fd].ino == ino && w'.fds - {fd} == w.fds
    ensures forall q :: q in w'.names ==> NameOk(w', owner[p := fd], q)
    ensures forall i :: i in w'.inodes ==> InodeOk(w', home[ino := fd], i)
  {
    forall q | q in w'.names
      ensures NameOk(w', owner[p := fd], q)
    {
      if q != p {
        assert NameOk(w, owner, q);
      }
    }
    forall i | i in w'.inodes
      ensures InodeOk(w', home[ino := fd], i)
    {
      if i != ino {
        assert InodeOk(w, home, i);
        assert home[i] in w'.fds - {fd} && w'.fds[home[i]] == w.fds[home[i]];
      }
    }
  }

  lemma OpeningRefines(w: World, p: Path, fd: Fd, ino: Ino, data: Bytes, readable: bool)
    requires WellFormed(w) && w.handles.Keys == w.fds.Keys
    requires p !in w.names && fd !in w.fds && ino !in w.inodes
    ensures Abs(AddHandle(SetLocal(w, p, ino, data), p, fd, ino, readable))
         == Spec(w.remote, Abs(w).open[fd := Snapshot(p, data, readable)])
  {
    var w' := AddHandle(SetLocal(w, p, ino, data), p, fd, ino, readable);
    var s := Spec(w.remote, Abs(w).open[fd := Snapshot(p, data, readable)]);
    forall f | f in w'.handles
      ensures s.open[f] == Snapshot(w'.handles[f], w'.inodes[w'.fds[f].ino], w'.fds[f].readable)
    {
      assert f != fd ==> w.fds[f].ino in w.inodes;
    }
    AbsIs(w', s);
  }

  lemma CreateRefines(w: World, p: Path, local: LocalOpen)
    requires Inv(w) && FreshLocal(w, local) && Holders(Abs(w), p) == {}
    ensures var (w', r) := StepCreate(w, p, local);
            Inv(w') && (Abs(w'), r) == SpecStep(Abs(w), Create(p, local))
  {
    NotHeld(w, p);
    if local.NoLocal? {
      assert StepCreate(w, p, local) == (w, Failed);
    } else {
      OpeningKeepsInv(w, p, local.fd, local.ino, [], false);
      OpeningRefines(w, p, local.fd, local.ino, [], false);
    }
  }

  lemma OpenRefines(w: World, p: Path, served: bool, local: LocalOpen, incoming: seq<ReadEvent>)
    requires Inv(w) && FreshLocal(w, local) && Holders(Abs(w), p) == {}
    requires local.Local? && CleanReads(incoming)
    ensures var (w', r) := StepOpen(w, p, served, local, incoming);
            Inv(w') && (Abs(w'), r) == SpecStep(Abs(w), Open(p, served, local, incoming))
  {
    NotHeld(w, p);
    if p in w.remote && served {
      OpenEffect(w, p, local, incoming);
      OpeningKeepsInv(w, p, local.fd, local.ino, w.remote[p], true);
      OpeningRefines(w, p, local.fd, local.ino, w.remote[p], true);
    }
  }

  /** Without failures the local copy holds the whole remote file. */
  lemma OpenEffect(w: World, p: Path, local: LocalOpen, incoming: seq<ReadEvent>)
    requires WellFormed(w) && FreshLocal(w, local) && local.Local? && p in w.remote && CleanReads(incoming)
    ensures StepOpen(w, p, true, local, incoming)
         == (AddHandle(SetLocal(w, p, local.ino, w.remote[p]), p, local.fd, Target(w, p, local.ino), true),
             Opened(local.fd))
  {
    CleanDownload(|w.remote[p]|, 0, incoming);
    assert w.remote[p][..|w.remote[p]|] == w.remote[p];
  }

  lemma NotHeld(w: World, p: Path)
    requires Inv(w)
    ensures Holders(Abs(w), p) == {} <==> p !in w.names
    ensures w.handles.Keys == w.fds.Keys
  {
    var owner, home :| InvWith(w, owner, home);
    NamesAreHeld(w, owner, home, p);
  }

  lemma LookUpRefines(w: World, p: Path, served: bool)
    requires Inv(w)
    ensures LookUp(w, p, served) == SpecLookUp(Abs(w), p, served)
  {
    var owner, home :| InvWith(w, owner, home);
    NamesAreHeld(w, owner, home, p);
  }

  /** Editing the inode of an open file edits its snapshot and no other. */
  lemma EditRefines(w: World, fd: Fd, data: Bytes)
    requires Inv(w) && fd in w.handles
    ensures var w' := SetInode(w, w.fds[fd].ino, data);
            Inv(w') && Abs(w') == Edit(Abs(w), fd, data)
  {
    var owner, home :| InvWith(w, owner, home);
    var w' := SetInode(w, w.fds[fd].ino, data);
    EditedInv(w, w', owner, home);
    EditedAbs(w, w', owner, home, fd, data);
  }

  /** No name, descriptor or handle depends on what the inodes hold. */
  lemma EditedInv(w: World, w': World, owner: map<Path, Fd>, home: map<Ino, Fd>)
    requires InvWith(w, owner, home) && WellFormed(w')
    requires w' == w.(inodes := w'.inodes, remote := w'.remote) && w'.inodes.Keys == w.inodes.Keys
    ensures InvWith(w', owner, home)
  {
    forall f | f in w'.handles
      ensures HandleOk(w', owner, home, f)
    {
      assert HandleOk(w, owner, home, f);
    }
    forall p | p in w'.names
      ensures NameOk(w', owner, p)
    {
      assert NameOk(w, owner, p);
    }
    forall i | i in w'.inodes
      ensures InodeOk(w', home, i)
    {
      assert InodeOk(w, home, i);
    }
  }

  lemma EditedAbs(w: World, w': World, owner: map<Path, Fd>, home: map<Ino, Fd>, fd: Fd, data: Bytes)
    requires InvWith(w, owner, home) && fd in w.handles && WellFormed(w')
    requires w' == w.(inodes := w.inodes[w.fds[fd].ino := data])
    ensures fd in Abs(w).open && Abs(w') == Edit(Abs(w), fd, data)
  {
    assert HandleOk(w, owner, home, fd);
    forall f | f in w.handles
      ensures f in w.fds && (w.fds[f].ino == w.fds[fd].ino ==> f == fd)
    {
      assert HandleOk(w, owner, home, f);
    }
    AbsIs(w', Edit(Abs(w), fd, data));
  }

  lemma WriteRefines(w: World, fd: Fd, offset: int, data: Bytes, accepted: int)
    requires Inv(w) && fd in w.handles && accepted <= |data|
    ensures var (w', r) := StepWrite(w, fd, offset, data, accepted);
            Inv(w') && (Abs(w'), r) == SpecStep(Abs(w), Write(fd, offset, data, accepted))
  {
    HandleReads(w, fd);
    if offset < 0 || accepted < 0 {
      assert StepWrite(w, fd, offset, data, accepted) == (w, Failed);
    } else {
      var edited := Overwrite(Contents(w, fd), offset, data[..accepted]);
      EditRefines(w, fd, edited);
      assert StepWrite(w, fd, offset, data, accepted) == (SetInode(w, w.fds[fd].ino, edited), Count(accepted));
      assert SpecStep(Abs(w), Write(fd, offset, data, accepted)) == (Edit(Abs(w), fd, edited), Count(accepted));
    }
  }

  lemma FTruncateRefines(w: World, fd: Fd, length: int)
    requires Inv(w) && fd in w.handles
    ensures var (w', r) := StepFTruncate(w, fd, length);
            Inv(w') && (Abs(w'), r) == SpecStep(Abs(w), FTruncate(fd, length))
  {
    HandleReads(w, fd);
    if length < 0 {
      assert StepFTruncate(w, fd, length) == (w, Failed);
    } else {
      var data := Resize(Contents(w, fd), length);
      EditRefines(w, fd, data);
      assert StepFTruncate(w, fd, length) == (SetInode(w, w.fds[fd].ino, data), Done);
      assert SpecStep(Abs(w), FTruncate(fd, length)) == (Edit(Abs(w), fd, data), Done);
    }
  }

  /** The one open file on a path works on the inode that path names. */
  lemma HolderOwns(w: World, p: Path)
    requires Inv(w) && p in w.names
    ensures Holders(Abs(w), p) != {}
    ensures var f := Holder(Abs(w), p); f in w.handles && w.fds[f].ino == w.names[p] && w.handles[f] == p
    ensures Abs(w).open[Holder(Abs(w), p)].data == w.inodes[w.names[p]]
  {
    var owner, home :| InvWith(w, owner, home);
    NamesAreHeld(w, owner, home, p);
    assert owner[p] in Holders(Abs(w), p);
  }

  lemma TruncateRefines(w: World, p: Path, length: int)
    requires Inv(w)
    ensures var (w', r) := StepTruncate(w, p, length);
            Inv(w') && (Abs(w'), r) == SpecStep(Abs(w), Truncate(p, length))
  {
    NotHeld(w, p);
    if p in w.names && 0 <= length {
      HolderOwns(w, p);
      var f, data := Holder(Abs(w), p), Resize(w.inodes[w.names[p]], length);
      EditRefines(w, f, data);
      assert StepTruncate(w, p, length) == (SetInode(w, w.fds[f].ino, data), Done);
    }
  }

  /** An open file is published from its name, closed and removed: one snapshot less. */
  lemma ReleaseKeepsInv(w: World, p: Path, fd: Fd, outgoing: seq<WriteEvent>)
    requires Inv(w) && fd in w.handles && w.handles[fd] == p
    ensures Inv(StepRelease(w, p, fd, true, outgoing, true).0)
  {
    var owner, home :| InvWith(w, owner, home);
    var w' := StepRelease(w, p, fd, true, outgoing, true).0;
    ClosedKeepsInv(w, w', owner, home, fd);
    InvFrom(w', owner, home);
  }

  lemma ClosedKeepsInv(w: World, w': World, owner: map<Path, Fd>, home: map<Ino, Fd>, fd: Fd)
    requires InvWith(w, owner, home) && fd in w.handles && WellFormed(w') && !w'.over
    requires w'.handles == w.handles - {fd} && w'.fds == w.fds - {fd} && w'.names == w.names - {w.handles[fd]}
    requires w'.inodes == Reap(w.inodes, w'.names, w'.fds)
    ensures InvWith(w', owner, home)
  {
    assert HandleOk(w, owner, home, fd);
    forall f | f in w'.handles
      ensures HandleOk(w', owner, home, f)
    {
      assert HandleOk(w, owner, home, f);
    }
    forall q | q in w'.names
      ensures NameOk(w', owner, q)
    {
      assert NameOk(w, owner, q);
    }
    forall i | i in w'.inodes
      ensures InodeOk(w', home, i)
    {
      assert Referenced(i, w'.names, w'.fds);
      ReapedHome(w, owner, home, fd, i);
      assert home[i] in w'.fds && w'.fds[home[i]] == w.fds[home[i]];
    }
  }

  /** What is still referred to after closing and removing was not the closed file's inode. */
  lemma ReapedHome(w: World, owner: map<Path, Fd>, home: map<Ino, Fd>, fd: Fd, i: Ino)
    requires InvWith(w, owner, home) && fd in w.handles && i in w.inodes
    requires Referenced(i, w.names - {w.handles[fd]}, w.fds - {fd})
    ensures InodeOk(w, home, i) && home[i] != fd
  {
    if q :| q in w.names - {w.handles[fd]} && (w.names - {w.handles[fd]})[q] == i {
      assert NameOk(w, owner, q) && HandleOk(w, owner, home, owner[q]);
    } else {
      var f :| f in w.fds - {fd} && (w.fds - {fd})[f].ino == i;
      assert HandleOk(w, owner, home, f);
    }
  }

  lemma ReleaseMeans(w: World, p: Path, fd: Fd, outgoing: seq<WriteEvent>)
    requires Inv(w) && fd in w.handles && w.handles[fd] == p && CleanWrites(outgoing)
    ensures fd in Abs(w).open
    ensures var (w', r) := StepRelease(w, p, fd, true, outgoing, true);
            && Inv(w') && r == Done
            && Abs(w') == Spec(w.remote[p := Abs(w).open[fd].data], Abs(w).open - {fd})
  {
    ReleaseKeepsInv(w, p, fd, outgoing);
    PendingIsSnapshot(w, fd);
    CleanUpload(Pending(w, p), outgoing);
    var w' := StepRelease(w, p, fd, true, outgoing, true).0;
    StillReferenced(w, w');
    ClosedAbs(w, w', fd);
  }

  /** One handle less, the other inodes as they were: one snapshot less. */
  lemma ClosedAbs(w: World, w': World, fd: Fd)
    requires WellFormed(w) && WellFormed(w') && w.handles.Keys <= w.fds.Keys
    requires w'.handles == w.handles - {fd} && w'.fds == w.fds - {fd}
    requires forall f :: f in w'.fds ==> w.fds[f].ino in w'.inodes && w'.inodes[w.fds[f].ino] == w.inodes[w.fds[f].ino]
    ensures Abs(w') == Spec(w'.remote, Abs(w).open - {fd})
  {
    AbsIs(w', Spec(w'.remote, Abs(w).open - {fd}));
  }

  lemma ReleaseRefines(w: World, p: Path, fd: Fd, outgoing: seq<WriteEvent>)
    requires Inv(w) && fd in w.handles && w.handles[fd] == p && CleanWrites(outgoing)
    ensures var (w', r) := StepRelease(w, p, fd, true, outgoing, true);
            Inv(w') && (Abs(w'), r) == SpecStep(Abs(w), Release(p, fd, true, outgoing, true))
  {
    ReleaseMeans(w, p, fd, outgoing);
  }

  /** The bytes release finds by name are the ones the descriptor worked on. */
  lemma PendingIsSnapshot(w: World, fd: Fd)
    requires Inv(w) && fd in w.handles
    ensures w.handles[fd] in w.names && Pending(w, w.handles[fd]) == Abs(w).open[fd].data
  {
    var owner, home :| InvWith(w, owner, home);
  }

  lemma ReleasePublishes(w: World, p: Path, fd: Fd, outgoing: seq<WriteEvent>)
    requires Inv(w) && fd in w.handles && w.handles[fd] == p && CleanWrites(outgoing)
    ensures fd in Abs(w).open
    ensures StepRelease(w, p, fd, true, outgoing, true).0.remote == w.remote[p := Abs(w).open[fd].data]
  {
    PendingIsSnapshot(w, fd);
    CleanUpload(Pending(w, p), outgoing);
  }

  /** The inodes of the open files that stay open are not reaped. */
  lemma StillReferenced(w: World, w': World)
    requires WellFormed(w) && w'.inodes == Reap(w.inodes, w'.names, w'.fds)
    requires forall f :: f in w'.fds ==> f in w.fds && w'.fds[f] == w.fds[f]
    ensures forall f :: f in w'.fds ==>
              w.fds[f].ino in w'.inodes && w'.inodes[w.fds[f].ino] == w.inodes[w.fds[f].ino]
  {
    forall f | f in w'.fds
      ensures Referenced(w.fds[f].ino, w'.names, w'.fds)
    {
      assert w'.fds[f].ino == w.fds[f].ino;
    }
  }

  lemma RemoteOnly(w: World, remote: map<Path, Bytes>)
    requires Inv(w)
    ensures Inv(w.(remote := remote)) && Abs(w.(remote := remote)) == Abs(w).(published := remote)
  {
    var owner, home :| InvWith(w, owner, home);
    EditedInv(w, w.(remote := remote), owner, home);
  }

  lemma UnlinkRefines(w: World, p: Path, done: bool)
    requires Inv(w) && Holders(Abs(w), p) == {}
    ensures var (w', r) := StepUnlink(w, p, done);
            Inv(w') && (Abs(w'), r) == SpecStep(Abs(w), Unlink(p, done))
  {
    NotHeld(w, p);
    RemoteOnly(w, w.remote - {p});
  }

  /** Renaming an open file to itself changes nothing. */
  lemma RenameToItself(w: World, p: Path)
    requires WellFormed(w) && p in w.names
    ensures StepRename(w, p, p, true).0 == w && Move(Abs(w).open, p, p) == Abs(w).open
  {
    assert MoveHandles(w.handles, p, p) == w.handles;
  }

  /** The net effect of renaming an open file to a free path. */
  lemma RenameAway(w: World, from: Path, to: Path)
    requires Inv(w) && from in w.names && to !in w.names
    ensures StepRename(w, from, to, true).0
         == w.(names := (w.names - {from})[to := w.names[from]], handles := MoveHandles(w.handles, from, to))
  {
    var owner, home :| InvWith(w, owner, home);
    var names := (w.names - {from})[to := w.names[from]];
    forall i | i in w.inodes
      ensures Referenced(i, names, w.fds)
    {
      assert w.fds[home[i]].ino == i;
    }
    assert Reap(w.inodes, names, w.fds) == w.inodes;
  }

  lemma MovedKeepsInv(w: World, from: Path, to: Path, names: map<Path, Ino>, handles: map<Fd, Path>)
    requires Inv(w) && from in w.names && to !in w.names
    requires names == (w.names - {from})[to := w.names[from]] && handles == MoveHandles(w.handles, from, to)
    ensures Inv(w.(names := names, handles := handles))
  {
    var owner, home :| InvWith(w, owner, home);
    MovedOwners(w, owner, home, from, to, names, handles);
    InvFrom(w.(names := names, handles := handles), owner[to := owner[from]], home);
  }

  lemma MovedOwners(w: World, owner: map<Path, Fd>, home: map<Ino, Fd>, from: Path, to: Path,
                    names: map<Path, Ino>, handles: map<Fd, Path>)
    requires InvWith(w, owner, home) && from in w.names && to !in w.names
    requires names == (w.names - {from})[to := w.names[from]] && handles == MoveHandles(w.handles, from, to)
    ensures from in owner
    ensures InvWith(w.(names := names, handles := handles), owner[to := owner[from]], home)
  {
    assert NameOk(w, owner, from);
    var w', owner' := w.(names := names, handles := handles), owner[to := owner[from]];
    forall q | q in w'.names
      ensures NameOk(w', owner', q)
    {
      assert q != to ==> NameOk(w, owner, q);
    }
    forall f | f in w'.handles
      ensures HandleOk(w', owner', home, f)
    {
      assert HandleOk(w, owner, home, f);
    }
    forall i | i in w'.inodes
      ensures InodeOk(w', home, i)
    {
      assert InodeOk(w, home, i);
    }
  }

  lemma MovedRefines(w: World, from: Path, to: Path, names: map<Path, Ino>)
    requires WellFormed(w) && WellFormed(w.(names := names, handles := MoveHandles(w.handles, from, to)))
    ensures Abs(w.(names := names, handles := MoveHandles(w.handles, from, to)))
         == Spec(w.remote, Move(Abs(w).open, from, to))
  {
    AbsIs(w.(names := names, handles := MoveHandles(w.handles, from, to)),
          Spec(w.remote, Move(Abs(w).open, from, to)));
  }

  lemma RenameAwayRefines(w: World, from: Path, to: Path)
    requires Inv(w) && from in w.names && to !in w.names
    ensures var w' := StepRename(w, from, to, true).0;
            Inv(w') && Abs(w') == Spec(w.remote, Move(Abs(w).open, from, to))
  {
    RenameAway(w, from, to);
    var names := (w.names - {from})[to := w.names[from]];
    MovedKeepsInv(w, from, to, names, MoveHandles(w.handles, from, to));
    MovedRefines(w, from, to, names);
  }

  lemma RenameRefines(w: World, from: Path, to: Path, done: bool)
    requires Inv(w) && (from == to || Holders(Abs(w), to) == {})
    ensures Inv(StepRename(w, from, to, done).0)
    ensures (Abs(StepRename(w, from, to, done).0), StepRename(w, from, to, done).1)
         == SpecStep(Abs(w), Rename(from, to, done))
  {
    NotHeld(w, from);
    var s := Abs(w);
    if from !in w.names || !done {
      assert StepRename(w, from, to, done) == (w, Failed);
      assert SpecStep(s, Rename(from, to, done)) == (s, Failed);
    } else {
      assert SpecStep(s, Rename(from, to, done)) == (s.(open := Move(s.open, from, to)), Done);
      if from == to {
        RenameToItself(w, from);
        assert Abs(StepRename(w, from, to, done).0) == s;
      } else {
        NotHeld(w, to);
        RenameAwayRefines(w, from, to);
      }
    }
  }

  /** What a handle reads is its snapshot. */
  lemma HandleReads(w: World, fd: Fd)
    requires WellFormed(w) && fd in w.handles
    ensures fd in Abs(w).open
    ensures Abs(w).open[fd] == Snapshot(w.handles[fd], Contents(w, fd), w.fds[fd].readable)
  {
  }

  lemma ReadRefines(w: World, c: Call)
    requires Inv(w) && Legal(w, c) && (c.Read? || c.FGetAttr?)
    ensures Step(w, c).0 == w && SpecStep(Abs(w), c) == (Abs(w), Step(w, c).1)
  {
    HandleReads(w, c.fd);
  }

  lemma FileCallRefines(w: World, c: Call)
    requires Inv(w) && Legal(w, c) && Clean(c) && (c.Write? || c.FTruncate? || c.Release?)
    ensures var (w', r) := Step(w, c);
            Inv(w') && (Abs(w'), r) == SpecStep(Abs(w), c)
  {
    match c
    case Write(fd, offset, data, accepted) => WriteRefines(w, fd, offset, data, accepted);
    case FTruncate(fd, length) => FTruncateRefines(w, fd, length);
    case Release(p, fd, _, outgoing, _) => ReleaseRefines(w, p, fd, outgoing);
  }

  lemma PathCallRefines(w: World, c: Call)
    requires Inv(w) && Legal(w, c) && Guarded(Abs(w), c) && Clean(c)
    requires c.GetAttr? || c.Create? || c.Open? || c.Unlink? || c.Truncate? || c.Rename? || c.Foreign? || c.Forwarded?
    ensures var (w', r) := Step(w, c);
            Inv(w') && (Abs(w'), r) == SpecStep(Abs(w), c)
  {
    match c
    case GetAttr(p, served) => LookUpRefines(w, p, served);
    case Create(p, local) => CreateRefines(w, p, local);
    case Open(p, served, local, incoming) => OpenRefines(w, p, served, local, incoming);
    case Unlink(p, done) => UnlinkRefines(w, p, done);
    case Truncate(p, length) => TruncateRefines(w, p, length);
    case Rename(from, to, done) => RenameRefines(w, from, to, done);
    case Foreign(p, _) => NotHeld(w, p);
    case Forwarded(_) =>
  }

  /** One callback of the cache is one step of the specification, with the same reply. */
  lemma StepRefines(w: World, c: Call)
    requires Inv(w) && Legal(w, c) && Guarded(Abs(w), c) && Clean(c)
    ensures var (w', r) := Step(w, c);
            Inv(w') && (Abs(w'), r) == SpecStep(Abs(w), c)
  {
    if c.Read? || c.FGetAttr? {
      ReadRefines(w, c);
    } else if c.Write? || c.FTruncate? || c.Release? {
      FileCallRefines(w, c);
    } else {
      PathCallRefines(w, c);
    }
  }

  lemma {:induction false} RunRefines(w: World, calls: seq<Call>)
    requires Inv(w) && LegalRun(w, calls) && CleanRun(calls) && GuardedRun(Abs(w), calls)
    ensures var (w', replies) := Run(w, calls);
            Inv(w') && (Abs(w'), replies) == SpecRun(Abs(w), calls)
    decreases |calls|
  {
    if calls != [] {
      assert Clean(calls[0]);
      StepRefines(w, calls[0]);
      RunRefines(Step(w, calls[0]).0, calls[1..]);
    }
  }

  /** The refinement theorem: started on an empty cache, every interleaving of callbacks
      gives the replies of the specification and leaves its files on the server, and once
      everything is released nothing is left in the cache. */
  lemma Refinement(remote: map<Path, Bytes>, calls: seq<Call>)
    requires LegalRun(Start(remote), calls) && CleanRun(calls)
    requires GuardedRun(Spec(remote, map[]), calls)
    ensures var (w, replies) := Run(Start(remote), calls);
            var (s, specReplies) := SpecRun(Spec(remote, map[]), calls);
            && replies == specReplies
            && w.remote == s.published
            && Inv(w)
            && w.handles.Keys == s.open.Keys
            && (s.open == map[] ==> w == Start(s.published))
  {
    StartInv(remote);
    RunRefines(Start(remote), calls);
    var w := Run(Start(remote), calls).0;
    assert Abs(w).open.Keys == w.handles.Keys;
    if Abs(w).open == map[] {
      NothingLeft(w);
    }
  }

  lemma NothingLeft(w: World)
    requires Inv(w) && w.handles.Keys == {}
    ensures w == Start(w.remote)
  {
    var owner, home :| InvWith(w, owner, home);
    assert w.names.Keys == {} && w.inodes.Keys == {};
    assert w.handles == map[] && w.fds == map[] && w.names == map[] && w.inodes == map[];
  }
}
