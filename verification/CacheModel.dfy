/** The state behind `ulfs/scpfs.cpp` and what each callback does to it.

    Names and inodes are kept apart, because the protocol reads and writes by file
    descriptor but uploads and looks up by name. `Step` gives the net effect of one
    callback; module `Scpfs` holds the callbacks themselves, step by step. */
module CacheModel {
  import opened Posix
  import opened Transfer

  type Ino = nat
  type Fd = nat

  datatype OpenFile = OpenFile(ino: Ino, readable: bool)

  /** `remote` is the server's store; `names`, `inodes` and `fds` are the cache directory
      and the process's descriptors; `handles` is the `fi->fh` of every open file together
      with the path FUSE will pass along with it; `over` says that the run has left the
      model: the SFTP session was freed, or the cache directory holds something other than
      a regular file. */
  datatype World = World(
    remote: map<Path, Bytes>,
    names: map<Path, Ino>,
    inodes: map<Ino, Bytes>,
    fds: map<Fd, OpenFile>,
    handles: map<Fd, Path>,
    over: bool)

  function Start(remote: map<Path, Bytes>): World {
    World(remote, map[], map[], map[], map[], false)
  }

  predicate Referenced(i: Ino, names: map<Path, Ino>, fds: map<Fd, OpenFile>) {
    || (exists p :: p in names && names[p] == i)
    || (exists f :: f in fds && fds[f].ino == i)
  }

  /** An inode goes away with its last name and its last descriptor. */
  function Reap(inodes: map<Ino, Bytes>, names: map<Path, Ino>, fds: map<Fd, OpenFile>): map<Ino, Bytes> {
    map i | i in inodes && Referenced(i, names, fds) :: inodes[i]
  }

  /** Names and descriptors lead to inodes, and every handle is an open descriptor.
      Holds in all runs, guarded or not. */
  ghost predicate WellFormed(w: World) {
    && (forall p :: p in w.names ==> w.names[p] in w.inodes)
    && (forall f :: f in w.fds ==> w.fds[f].ino in w.inodes)
    && w.handles.Keys <= w.fds.Keys
  }

  /** What the local open(2) with O_CREAT comes back with. The inode is used only when
      the name is new. */
  datatype LocalOpen = NoLocal | Local(fd: Fd, ino: Ino)

  /** The callbacks, each with the answers its environment gives. `served` and `done` say
      whether the server or the local call did its part; `accepted` is the result of pwrite.
      `Foreign` is mkdir and symlink, which put a name into the cache directory that is no
      regular file; `Forwarded` are the callbacks that touch neither names nor bytes. */
  datatype Call =
    | GetAttr(path: Path, served: bool)
    | Create(path: Path, local: LocalOpen)
    | Open(path: Path, served: bool, local: LocalOpen, incoming: seq<ReadEvent>)
    | Read(fd: Fd, offset: int, size: nat)
    | Write(fd: Fd, offset: int, data: Bytes, accepted: int)
    | FTruncate(fd: Fd, length: int)
    | FGetAttr(fd: Fd)
    | Release(path: Path, fd: Fd, served: bool, outgoing: seq<WriteEvent>, done: bool)
    | Unlink(path: Path, done: bool)
    | Truncate(path: Path, length: int)
    | Rename(from: Path, to: Path, done: bool)
    | Link(from: Path, to: Path)
    | Mknod(path: Path, ino: Ino)
    | Foreign(path: Path, done: bool)
    | Forwarded(answer: Reply)

  /** `Failed` stands for every errno and for the bare -1 of write and ftruncate. */
  datatype Reply = Done | Opened(fd: Fd) | Data(data: Bytes) | Count(n: int) | Size(size: nat) | Failed

  /** The descriptor and inode the kernel hands out are unused ones. */
  predicate FreshLocal(w: World, local: LocalOpen) {
    local.Local? ==> local.fd !in w.fds && local.ino !in w.inodes
  }

  /** The calls FUSE and the kernel can make: file calls carry the handle of an open
      file, release also its path, pwrite accepts no more than it was given. */
  predicate Legal(w: World, c: Call) {
    !w.over &&
    match c
    case Create(_, local) => FreshLocal(w, local)
    case Open(_, _, local, _) => FreshLocal(w, local)
    case Read(fd, _, _) => fd in w.handles
    case Write(fd, _, data, accepted) => fd in w.handles && accepted <= |data|
    case FTruncate(fd, _) => fd in w.handles
    case FGetAttr(fd) => fd in w.handles
    case Release(path, fd, _, _, _) => fd in w.handles && w.handles[fd] == path
    case Mknod(_, ino) => ino !in w.inodes
    case _ => true
  }

  /** The open files on `p`, as FUSE sees them. */
  function HandlesOn(handles: map<Fd, Path>, p: Path): set<Fd> {
    set f | f in handles && handles[f] == p
  }

  // ----- Lookup: the local copy wins over the remote one.

  function LookUp(w: World, p: Path, served: bool): Reply
    requires p in w.names ==> w.names[p] in w.inodes
  {
    if p in w.names then Size(|w.inodes[w.names[p]]|)
    else if p in w.remote && served then Size(|w.remote[p]|)
    else Failed
  }

  // ----- Opening

  /** The inode that O_CREAT | O_TRUNC on `p` empties. */
  function Target(w: World, p: Path, ino: Ino): Ino {
    if p in w.names then w.names[p] else ino
  }

  /** The local copy of `p` now holds `data`. */
  function SetLocal(w: World, p: Path, ino: Ino, data: Bytes): (w': World)
    requires WellFormed(w)
    ensures WellFormed(w')
  {
    w.(names := w.names[p := Target(w, p, ino)], inodes := w.inodes[Target(w, p, ino) := data])
  }

  /** `fi->fh = fd`, for a descriptor on inode `ino`. */
  function AddHandle(w: World, p: Path, fd: Fd, ino: Ino, readable: bool): (w': World)
    requires WellFormed(w) && ino in w.inodes && fd !in w.fds
    ensures WellFormed(w')
  {
    w.(fds := w.fds[fd := OpenFile(ino, readable)], handles := w.handles[fd := p])
  }

  function StepCreate(w: World, p: Path, local: LocalOpen): (r: (World, Reply))
    requires WellFormed(w) && FreshLocal(w, local)
    ensures WellFormed(r.0)
  {
    match local
    case NoLocal => (w, Failed)
    case Local(fd, ino) =>
      (AddHandle(SetLocal(w, p, ino, []), p, fd, Target(w, p, ino), false), Opened(fd))
  }

  function StepOpen(w: World, p: Path, served: bool, local: LocalOpen, incoming: seq<ReadEvent>): (r: (World, Reply))
    requires WellFormed(w) && FreshLocal(w, local)
    ensures WellFormed(r.0)
  {
    if p !in w.remote || !served then
      (w, Failed)
    else
      match local
      case NoLocal => (w.(over := true), Failed)
      case Local(fd, ino) =>
        var ending := Download(|w.remote[p]|, 0, incoming);
        var filled := SetLocal(w, p, ino, w.remote[p][..ending.kept]);
        if ending.Unstored? then
          (Drop(filled, filled.names, filled.fds, filled.handles).(over := true), Failed)
        else
          (AddHandle(filled, p, fd, Target(w, p, ino), true), Opened(fd))
  }

  // ----- Calls on an open file

  function SetInode(w: World, i: Ino, data: Bytes): (w': World)
    requires WellFormed(w) && i in w.inodes
    ensures WellFormed(w')
  {
    w.(inodes := w.inodes[i := data])
  }

  function Contents(w: World, fd: Fd): Bytes
    requires WellFormed(w) && fd in w.handles
  {
    w.inodes[w.fds[fd].ino]
  }

  function StepRead(w: World, fd: Fd, offset: int, size: nat): Reply
    requires WellFormed(w) && fd in w.handles
  {
    if w.fds[fd].readable && 0 <= offset then Data(ReadAt(Contents(w, fd), offset, size)) else Failed
  }

  function StepWrite(w: World, fd: Fd, offset: int, data: Bytes, accepted: int): (r: (World, Reply))
    requires WellFormed(w) && fd in w.handles && accepted <= |data|
    ensures WellFormed(r.0)
  {
    if offset < 0 || accepted < 0 then
      (w, Failed)
    else
      (SetInode(w, w.fds[fd].ino, Overwrite(Contents(w, fd), offset, data[..accepted])), Count(accepted))
  }

  function StepFTruncate(w: World, fd: Fd, length: int): (r: (World, Reply))
    requires WellFormed(w) && fd in w.handles
    ensures WellFormed(r.0)
  {
    if length < 0 then (w, Failed)
    else (SetInode(w, w.fds[fd].ino, Resize(Contents(w, fd), length)), Done)
  }

  // ----- Publishing

  /** The bytes `release` finds under the name `p`; a missing file reads as empty. */
  function Pending(w: World, p: Path): Bytes
    requires WellFormed(w)
  {
    if p in w.names then w.inodes[w.names[p]] else []
  }

  /** Fewer names or fewer descriptors, and whatever nothing refers to any more is gone. */
  function Drop(w: World, names: map<Path, Ino>, fds: map<Fd, OpenFile>, handles: map<Fd, Path>): (w': World)
    requires WellFormed(w)
    requires forall p :: p in names ==> names[p] in w.inodes
    requires forall f :: f in fds ==> fds[f].ino in w.inodes
    requires handles.Keys <= fds.Keys
    ensures WellFormed(w')
  {
    w.(names := names, inodes := Reap(w.inodes, names, fds), fds := fds, handles := handles)
  }

  function StepRelease(w: World, p: Path, fd: Fd, served: bool, outgoing: seq<WriteEvent>, done: bool)
    : (r: (World, Reply))
    requires WellFormed(w) && fd in w.handles
    ensures WellFormed(r.0)
  {
    if !served then
      (w.(handles := w.handles - {fd}), Failed)
    else
      var names := if done then w.names - {p} else w.names;
      var published := w.remote[p := Upload(Pending(w, p), outgoing)];
      (Drop(w, names, w.fds - {fd}, w.handles - {fd}).(remote := published),
       if p in w.names && done then Done else Failed)
  }

  // ----- Calls on names

  function StepUnlink(w: World, p: Path, done: bool): (r: (World, Reply))
    requires WellFormed(w)
    ensures WellFormed(r.0)
  {
    if p in w.names then
      if done then (Drop(w, w.names - {p}, w.fds, w.handles), Done) else (w, Failed)
    else
      if p in w.remote && done then (w.(remote := w.remote - {p}), Done) else (w, Failed)
  }

  function StepTruncate(w: World, p: Path, length: int): (r: (World, Reply))
    requires WellFormed(w)
    ensures WellFormed(r.0)
  {
    if p !in w.names || length < 0 then (w, Failed)
    else (SetInode(w, w.names[p], Resize(w.inodes[w.names[p]], length)), Done)
  }

  /** The handles of `from` carry the path `to` from now on. */
  function MoveHandles(handles: map<Fd, Path>, from: Path, to: Path): (moved: map<Fd, Path>)
    ensures moved.Keys == handles.Keys
    ensures forall f :: f in handles ==> moved[f] == if handles[f] == from then to else handles[f]
  {
    map f | f in handles :: if handles[f] == from then to else handles[f]
  }

  /** Only the cache directory is renamed. rename(2) leaves two links to one inode alone.
      On success FUSE passes the new path with the handles of the old one. */
  function StepRename(w: World, from: Path, to: Path, done: bool): (r: (World, Reply))
    requires WellFormed(w)
    ensures WellFormed(r.0)
  {
    if from !in w.names || !done then
      (w, Failed)
    else if to in w.names && w.names[to] == w.names[from] then
      (w.(handles := MoveHandles(w.handles, from, to)), Done)
    else
      (Drop(w, (w.names - {from})[to := w.names[from]], w.fds, MoveHandles(w.handles, from, to)), Done)
  }

  function StepLink(w: World, from: Path, to: Path): (r: (World, Reply))
    requires WellFormed(w)
    ensures WellFormed(r.0)
  {
    if from !in w.names || to in w.names then (w, Failed)
    else (Drop(w, w.names[to := w.names[from]], w.fds, w.handles), Done)
  }

  function StepMknod(w: World, p: Path, ino: Ino): (r: (World, Reply))
    requires WellFormed(w) && ino !in w.inodes
    ensures WellFormed(r.0)
  {
    if p in w.names then (w, Failed) else (SetLocal(w, p, ino, []), Done)
  }

  /** mkdir and symlink, which fail if the name exists. */
  function StepForeign(w: World, p: Path, done: bool): (r: (World, Reply))
    requires WellFormed(w)
    ensures WellFormed(r.0)
  {
    if p in w.names || !done then (w, Failed) else (w.(over := true), Done)
  }

  // ----- One callback, and runs of them

  function Step(w: World, c: Call): (r: (World, Reply))
    requires WellFormed(w) && Legal(w, c)
    ensures WellFormed(r.0)
  {
    match c
    case GetAttr(p, served) => (w, LookUp(w, p, served))
    case Create(p, local) => StepCreate(w, p, local)
    case Open(p, served, local, incoming) => StepOpen(w, p, served, local, incoming)
    case Read(fd, offset, size) => (w, StepRead(w, fd, offset, size))
    case Write(fd, offset, data, accepted) => StepWrite(w, fd, offset, data, accepted)
    case FTruncate(fd, length) => StepFTruncate(w, fd, length)
    case FGetAttr(fd) => (w, Size(|Contents(w, fd)|))
    case Release(p, fd, served, outgoing, done) => StepRelease(w, p, fd, served, outgoing, done)
    case Unlink(p, done) => StepUnlink(w, p, done)
    case Truncate(p, length) => StepTruncate(w, p, length)
    case Rename(from, to, done) => StepRename(w, from, to, done)
    case Link(from, to) => StepLink(w, from, to)
    case Mknod(p, ino) => StepMknod(w, p, ino)
    case Foreign(p, done) => StepForeign(w, p, done)
    case Forwarded(answer) => (w, answer)
  }

  predicate LegalRun(w: World, calls: seq<Call>)
    requires WellFormed(w)
    decreases |calls|
  {
    calls == [] || (Legal(w, calls[0]) && LegalRun(Step(w, calls[0]).0, calls[1..]))
  }

  /** The state after a run and the replies along it. */
  function Run(w: World, calls: seq<Call>): (r: (World, seq<Reply>))
    requires WellFormed(w) && LegalRun(w, calls)
    ensures WellFormed(r.0)
    decreases |calls|
  {
    if calls == [] then
      (w, [])
    else
      var (w', reply) := Step(w, calls[0]);
      var (end, replies) := Run(w', calls[1..]);
      (end, [reply] + replies)
  }

  /** The state after the first `k` calls. */
  function StateAt(w: World, calls: seq<Call>, k: nat): (w': World)
    requires WellFormed(w) && LegalRun(w, calls) && k <= |calls|
    ensures WellFormed(w')
    decreases k
  {
    if k == 0 then w else StateAt(Step(w, calls[0]).0, calls[1..], k - 1)
  }

  lemma StateLater(w: World, calls: seq<Call>, k: nat, w': World)
    requires WellFormed(w) && LegalRun(w, calls) && k < |calls| && w' == Step(w, calls[0]).0
    ensures StateAt(w, calls, k + 1) == StateAt(w', calls[1..], k)
  {
  }

  /** A run takes one step after the other, each call in the state the calls before it have
      led to, and collects the replies in order. */
  lemma {:induction false} RunAt(w: World, calls: seq<Call>, k: nat)
    requires WellFormed(w) && LegalRun(w, calls) && k < |calls|
    ensures Legal(StateAt(w, calls, k), calls[k])
    ensures StateAt(w, calls, k + 1) == Step(StateAt(w, calls, k), calls[k]).0
    ensures |Run(w, calls).1| == |calls| && Run(w, calls).1[k] == Step(StateAt(w, calls, k), calls[k]).1
    decreases |calls|
  {
    RunLength(Step(w, calls[0]).0, calls[1..]);
    if k > 0 {
      RunAt(Step(w, calls[0]).0, calls[1..], k - 1);
    }
  }

  lemma {:induction false} RunLength(w: World, calls: seq<Call>)
    requires WellFormed(w) && LegalRun(w, calls)
    ensures |Run(w, calls).1| == |calls| && StateAt(w, calls, |calls|) == Run(w, calls).0
    decreases |calls|
  {
    if calls != [] {
      RunLength(Step(w, calls[0]).0, calls[1..]);
    }
  }

  /** Any chain of legal steps is a legal run, with its last state and its replies. */
  lemma {:induction false} RunIs(calls: seq<Call>, states: seq<World>, replies: seq<Reply>)
    requires |states| == |calls| + 1 && |replies| == |calls|
    requires forall k :: 0 <= k < |states| ==> WellFormed(states[k])
    requires forall k :: 0 <= k < |calls| ==>
               Legal(states[k], calls[k]) && Step(states[k], calls[k]) == (states[k + 1], replies[k])
    ensures LegalRun(states[0], calls) && Run(states[0], calls) == (states[|calls|], replies)
    decreases |calls|
  {
    if calls != [] {
      assert Legal(states[0], calls[0]) && Step(states[0], calls[0]) == (states[1], replies[0]);
      RunIs(calls[1..], states[1..], replies[1..]);
      assert [replies[0]] + replies[1..] == replies;
    }
  }

  lemma {:induction false} RunSplit(w: World, a: seq<Call>, b: seq<Call>)
    requires WellFormed(w) && LegalRun(w, a + b)
    ensures LegalRun(w, a) && LegalRun(Run(w, a).0, b)
    ensures Run(w, a + b).0 == Run(Run(w, a).0, b).0
    decreases |a|
  {
    if a == [] {
      assert a + b == b;
    } else {
      assert (a + b)[1..] == a[1..] + b;
      RunSplit(Step(w, a[0]).0, a[1..], b);
    }
  }
}
