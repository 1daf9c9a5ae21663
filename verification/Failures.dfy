/** Guarded runs in which anything may fail: the server refuses releases, transfers break
    off and lose bytes, the cache directory refuses to open or to remove a file. The
    specification grows by one component, the copies that failures leave behind. It shows
    what failures do to the files, which calls see a left copy, and that none of its bytes
    ever reaches the server. */
module Failures {
  import opened Maps
  import opened Posix
  import opened Transfer
  import opened CacheModel
  import opened CloseToOpen

  /** `left` holds the contents of closed files by path; no path in it is open. */
  datatype Store = Store(files: Spec, left: map<Path, Bytes>)

  /** An open gets as much of the file as the download kept, and a release publishes what
      the upload got through. A refused release publishes nothing; it turns the snapshot into
      a left copy, as does a release that cannot remove the local file. A download that the
      cache directory has no room for leaves its beginning. Until the path is opened or
      created again, or renamed over, lookup, unlink, truncate and rename act on the left
      copy in place of the published file. */
  ghost function StoreStep(s: Store, c: Call): (Store, Reply) {
    var (files, r) := SpecStep(s.files, c);
    match c
    case GetAttr(p, _) => (s, if p in s.left then Size(|s.left[p]|) else r)
    case Create(p, _) => (Store(files, if r.Opened? then s.left - {p} else s.left), r)
    case Open(p, served, local, incoming) =>
      if p in s.files.published && served && local.Local? then Fetch(s, p, local.fd, incoming) else (s, Failed)
    case Release(p, fd, served, outgoing, done) =>
      if fd in s.files.open then Close(s, p, fd, served, outgoing, done) else (s, Failed)
    case Unlink(p, done) =>
      if p !in s.left then (Store(files, s.left), r)
      else if done then (s.(left := s.left - {p}), Done)
      else (s, Failed)
    case Truncate(p, length) =>
      if p !in s.left then (Store(files, s.left), r)
      else if 0 <= length then (s.(left := s.left[p := Resize(s.left[p], length)]), Done)
      else (s, Failed)
    case Rename(from, to, done) =>
      if from !in s.left then (Store(files, if r.Done? then s.left - {to} else s.left), r)
      else if done then (s.(left := (s.left - {from})[to := s.left[from]]), Done)
      else (s, Failed)
    case _ => (Store(files, s.left), r)
  }

  function Fetch(s: Store, p: Path, fd: Fd, incoming: seq<ReadEvent>): (Store, Reply)
    requires p in s.files.published
  {
    var ending := Download(|s.files.published[p]|, 0, incoming);
    var data := s.files.published[p][..ending.kept];
    if ending.Unstored? then
      (s.(left := s.left[p := data]), Failed)
    else
      (Store(s.files.(open := s.files.open[fd := Snapshot(p, data, true)]), s.left - {p}), Opened(fd))
  }

  function Close(s: Store, p: Path, fd: Fd, served: bool, outgoing: seq<WriteEvent>, done: bool): (Store, Reply)
    requires fd in s.files.open
  {
    var data := s.files.open[fd].data;
    var published := if served then s.files.published[p := Upload(data, outgoing)] else s.files.published;
    var left := if served && done then s.left else s.left[p := data];
    (Store(Spec(published, s.files.open - {fd}), left), if served && done then Done else Failed)
  }

  ghost predicate GuardedStores(s: Store, calls: seq<Call>)
    decreases |calls|
  {
    calls == [] || (Guarded(s.files, calls[0]) && GuardedStores(StoreStep(s, calls[0]).0, calls[1..]))
  }

  ghost function StoreRun(s: Store, calls: seq<Call>): (Store, seq<Reply>)
    decreases |calls|
  {
    if calls == [] then
      (s, [])
    else
      var (s', reply) := StoreStep(s, calls[0]);
      var (end, replies) := StoreRun(s', calls[1..]);
      (end, [reply] + replies)
  }

  /** The guard is asked of every call in the state it meets, and the specification takes one
      step after the other. */
  lemma {:induction false} StoreRunIs(calls: seq<Call>, states: seq<Store>, replies: seq<Reply>)
    requires |states| == |calls| + 1 && |replies| == |calls|
    requires forall k :: 0 <= k < |calls| ==> StoreStep(states[k], calls[k]) == (states[k + 1], replies[k])
    ensures StoreRun(states[0], calls) == (states[|calls|], replies)
    ensures GuardedStores(states[0], calls) <==> forall k :: 0 <= k < |calls| ==> Guarded(states[k].files, calls[k])
    decreases |calls|
  {
    if calls != [] {
      assert StoreStep(states[0], calls[0]) == (states[1], replies[0]);
      StoreRunIs(calls[1..], states[1..], replies[1..]);
      assert [replies[0]] + replies[1..] == replies;
      assert forall k :: 1 <= k < |calls| ==> calls[k] == calls[1..][k - 1] && states[k] == states[1..][k - 1];
      if forall k :: 0 <= k < |calls| ==> Guarded(states[k].files, calls[k]) {
        assert Guarded(states[0].files, calls[0]);
      }
    }
  }

  // ----- The invariant: descriptors may be stranded, names are still one to an inode

  predicate OpenOk(w: World, owner: map<Path, Fd>, f: Fd)
    requires f in w.handles && f in w.fds
  {
    var p := w.handles[f];
    p in w.names && w.names[p] == w.fds[f].ino && p in owner && owner[p] == f
  }

  predicate CopyOk(names: map<Path, Ino>, home: map<Ino, Path>, p: Path)
    requires p in names
  {
    names[p] in home && home[names[p]] == p
  }

  /** `owner` finds the open file of a path, `home` the path of an inode. */
  ghost predicate TidyWith(w: World, owner: map<Path, Fd>, home: map<Ino, Path>) {
    && WellFormed(w)
    && (forall f :: f in w.handles ==> OpenOk(w, owner, f))
    && (forall p :: p in w.names ==> CopyOk(w.names, home, p))
  }

  ghost predicate Tidy(w: World) {
    exists owner, home :: TidyWith(w, owner, home)
  }

  lemma TidyFrom(w: World, owner: map<Path, Fd>, home: map<Ino, Path>)
    requires TidyWith(w, owner, home)
    ensures Tidy(w)
  {
  }

  /** The local copies no open file works on. */
  function Left(w: World): map<Path, Bytes>
    requires WellFormed(w)
  {
    map p | p in w.names && HandlesOn(w.handles, p) == {} :: w.inodes[w.names[p]]
  }

  function Means(w: World): Store
    requires WellFormed(w)
  {
    Store(Abs(w), Left(w))
  }

  lemma HoldersAre(w: World, p: Path)
    requires WellFormed(w)
    ensures Holders(Abs(w), p) == HandlesOn(w.handles, p)
  {
  }

  /** Writing the copy of `p` writes no other copy, and no snapshot but that of `p`. */
  lemma OneCopy(w: World, p: Path, data: Bytes, inodes: map<Ino, Bytes>)
    requires Tidy(w) && p in w.names && inodes == w.inodes[w.names[p] := data]
    ensures forall q :: q in w.names ==> inodes[w.names[q]] == if q == p then data else w.inodes[w.names[q]]
    ensures forall f :: f in w.handles ==>
              inodes[w.fds[f].ino] == if w.handles[f] == p then data else w.inodes[w.fds[f].ino]
  {
    var owner, home :| TidyWith(w, owner, home);
    assert CopyOk(w.names, home, p);
    forall q | q in w.names
      ensures inodes[w.names[q]] == if q == p then data else w.inodes[w.names[q]]
    {
      assert CopyOk(w.names, home, q);
    }
    forall f | f in w.handles
      ensures inodes[w.fds[f].ino] == if w.handles[f] == p then data else w.inodes[w.fds[f].ino]
    {
      assert OpenOk(w, owner, f) && CopyOk(w.names, home, w.handles[f]);
    }
  }

  lemma StartTidy(remote: map<Path, Bytes>)
    ensures Tidy(Start(remote)) && Means(Start(remote)) == Store(Spec(remote, map[]), map[])
  {
    TidyFrom(Start(remote), map[], map[]);
  }

  lemma OpenHasName(w: World, p: Path)
    requires Tidy(w)
    ensures HandlesOn(w.handles, p) != {} ==> p in w.names
    ensures p in Means(w).left <==> p in w.names && HandlesOn(w.handles, p) == {}
    ensures Holders(Abs(w), p) == HandlesOn(w.handles, p)
  {
    var owner, home :| TidyWith(w, owner, home);
    HoldersAre(w, p);
    if f :| f in HandlesOn(w.handles, p) {
      assert OpenOk(w, owner, f);
    }
  }

  // ----- Opening

  lemma MoreHandles(handles: map<Fd, Path>, fd: Fd, p: Path, q: Path)
    requires fd !in handles
    ensures HandlesOn(handles[fd := p], q) == HandlesOn(handles, q) + if q == p then {fd} else {}
  {
  }

  lemma OpeningKeepsTidy(w: World, w': World, p: Path, fd: Fd, ino: Ino, data: Bytes, readable: bool)
    requires Tidy(w) && HandlesOn(w.handles, p) == {} && fd !in w.fds && ino !in w.inodes
    requires w' == AddHandle(SetLocal(w, p, ino, data), p, fd, Target(w, p, ino), readable)
    ensures Tidy(w')
  {
    var owner, home :| TidyWith(w, owner, home);
    var i := Target(w, p, ino);
    var owner', home' := owner[p := fd], home[i := p];
    forall f | f in w'.handles
      ensures OpenOk(w', owner', f)
    {
      if f != fd {
        assert OpenOk(w, owner, f) && f !in HandlesOn(w.handles, p);
      }
    }
    forall q | q in w'.names
      ensures CopyOk(w'.names, home', q)
    {
      if q != p {
        assert CopyOk(w.names, home, q);
        assert p in w.names ==> CopyOk(w.names, home, p);
      }
    }
    TidyFrom(w', owner', home');
  }

  /** Every copy but that of `p` is as it was. */
  lemma OtherCopies(w: World, p: Path, ino: Ino, data: Bytes, inodes: map<Ino, Bytes>)
    requires Tidy(w) && HandlesOn(w.handles, p) == {} && ino !in w.inodes
    requires inodes == w.inodes[Target(w, p, ino) := data]
    ensures forall q :: q in w.names && q != p ==> inodes[w.names[q]] == w.inodes[w.names[q]]
    ensures forall f :: f in w.handles ==> inodes[w.fds[f].ino] == w.inodes[w.fds[f].ino]
  {
    if p in w.names {
      OneCopy(w, p, data, inodes);
    }
    forall f | f in w.handles
      ensures w.handles[f] != p
    {
      assert f !in HandlesOn(w.handles, p);
    }
  }

  lemma OpeningAbs(w: World, w': World, p: Path, fd: Fd, ino: Ino, data: Bytes, readable: bool)
    requires Tidy(w) && HandlesOn(w.handles, p) == {} && fd !in w.fds && ino !in w.inodes
    requires w' == AddHandle(SetLocal(w, p, ino, data), p, fd, Target(w, p, ino), readable)
    ensures Abs(w') == Spec(w.remote, Abs(w).open[fd := Snapshot(p, data, readable)])
  {
    OtherCopies(w, p, ino, data, w'.inodes);
    AbsIs(w', Spec(w.remote, Abs(w).open[fd := Snapshot(p, data, readable)]));
  }

  lemma OpeningLeft(w: World, w': World, p: Path, fd: Fd, ino: Ino, data: Bytes, readable: bool)
    requires Tidy(w) && HandlesOn(w.handles, p) == {} && fd !in w.fds && ino !in w.inodes
    requires w' == AddHandle(SetLocal(w, p, ino, data), p, fd, Target(w, p, ino), readable)
    ensures Left(w') == Left(w) - {p}
  {
    OtherCopies(w, p, ino, data, w'.inodes);
    LeftAfterOpening(w, w', p, fd);
  }

  lemma OpeningMeans(w: World, w': World, p: Path, fd: Fd, ino: Ino, data: Bytes, readable: bool)
    requires Tidy(w) && HandlesOn(w.handles, p) == {} && fd !in w.fds && ino !in w.inodes
    requires w' == AddHandle(SetLocal(w, p, ino, data), p, fd, Target(w, p, ino), readable)
    ensures Means(w') == Store(Spec(w.remote, Abs(w).open[fd := Snapshot(p, data, readable)]), Left(w) - {p})
  {
    OpeningAbs(w, w', p, fd, ino, data, readable);
    OpeningLeft(w, w', p, fd, ino, data, readable);
  }

  lemma LeftAfterOpening(w: World, w': World, p: Path, fd: Fd)
    requires WellFormed(w) && WellFormed(w') && fd !in w.handles
    requires w'.names.Keys == w.names.Keys + {p} && w'.handles == w.handles[fd := p]
    requires forall q :: q in w.names && q != p ==>
               w'.names[q] == w.names[q] && w'.inodes[w.names[q]] == w.inodes[w.names[q]]
    ensures Left(w') == Left(w) - {p}
  {
    var left := Left(w) - {p};
    forall q
      ensures q in Left(w') <==> q in left
      ensures q in left ==> Left(w')[q] == left[q]
    {
      MoreHandles(w.handles, fd, p, q);
      assert fd in HandlesOn(w'.handles, p);
    }
    assert Left(w') == left;
  }

  lemma CreateStored(w: World, p: Path, local: LocalOpen)
    requires Tidy(w) && FreshLocal(w, local) && Guarded(Abs(w), Create(p, local))
    ensures var (w', r) := StepCreate(w, p, local);
            Tidy(w') && (Means(w'), r) == StoreStep(Means(w), Create(p, local))
  {
    HoldersAre(w, p);
    if local.NoLocal? {
      assert StepCreate(w, p, local) == (w, Failed);
    } else {
      var w' := StepCreate(w, p, local).0;
      OpeningKeepsTidy(w, w', p, local.fd, local.ino, [], false);
      OpeningMeans(w, w', p, local.fd, local.ino, [], false);
    }
  }

  /** What a callback may do that changes no name, no copy under a name and no handle: drop
      descriptors that are nobody's handle, and inodes with neither name nor descriptor. */
  ghost predicate Swept(w: World, w': World)
    requires WellFormed(w) && WellFormed(w')
  {
    && w'.names == w.names && w'.handles == w.handles && w'.inodes == Reap(w.inodes, w'.names, w'.fds)
    && forall f :: f in w.handles ==> w'.fds[f] == w.fds[f]
  }

  lemma SweptMeans(w: World, w': World)
    requires Tidy(w) && WellFormed(w') && Swept(w, w')
    ensures Tidy(w') && Means(w') == Store(Spec(w'.remote, Abs(w).open), Left(w))
  {
    var owner, home :| TidyWith(w, owner, home);
    forall f | f in w'.handles
      ensures OpenOk(w', owner, f)
    {
      assert OpenOk(w, owner, f);
    }
    TidyFrom(w', owner, home);
    SweptBytes(w, w');
    AbsIs(w', Spec(w'.remote, Abs(w).open));
    SweptLeft(w, w');
  }

  lemma SweptBytes(w: World, w': World)
    requires WellFormed(w) && WellFormed(w') && Swept(w, w')
    ensures forall p :: p in w.names ==> w'.inodes[w.names[p]] == w.inodes[w.names[p]]
    ensures forall f :: f in w.handles ==> w'.inodes[w.fds[f].ino] == w.inodes[w.fds[f].ino]
  {
  }

  lemma SweptLeft(w: World, w': World)
    requires WellFormed(w) && WellFormed(w') && w'.names == w.names && w'.handles == w.handles
    requires forall p :: p in w.names ==> w'.inodes[w.names[p]] == w.inodes[w.names[p]]
    ensures Left(w') == Left(w)
  {
  }

  /** A file that is not open gets a local copy and no handle. */
  lemma CopyKeepsTidy(w: World, w': World, p: Path, ino: Ino, data: Bytes)
    requires Tidy(w) && HandlesOn(w.handles, p) == {} && ino !in w.inodes && w' == SetLocal(w, p, ino, data)
    ensures Tidy(w')
  {
    var owner, home :| TidyWith(w, owner, home);
    var home' := home[Target(w, p, ino) := p];
    forall f | f in w'.handles
      ensures OpenOk(w', owner, f)
    {
      assert OpenOk(w, owner, f) && f !in HandlesOn(w.handles, p);
    }
    forall q | q in w'.names
      ensures CopyOk(w'.names, home', q)
    {
      if q != p {
        assert CopyOk(w.names, home, q);
        assert p in w.names ==> CopyOk(w.names, home, p);
      }
    }
    TidyFrom(w', owner, home');
  }

  lemma CopyMeans(w: World, w': World, p: Path, ino: Ino, data: Bytes)
    requires Tidy(w) && HandlesOn(w.handles, p) == {} && ino !in w.inodes && w' == SetLocal(w, p, ino, data)
    ensures Means(w') == Store(Abs(w), Left(w)[p := data])
  {
    assert Abs(w') == Abs(w) by {
      OtherCopies(w, p, ino, data, w'.inodes);
      AbsIs(w', Abs(w));
    }
    assert Left(w') == Left(w)[p := data] by {
      OtherCopies(w, p, ino, data, w'.inodes);
      LeftAfterCopy(w, w', p);
    }
  }

  lemma LeftAfterCopy(w: World, w': World, p: Path)
    requires WellFormed(w) && WellFormed(w') && w'.handles == w.handles && HandlesOn(w.handles, p) == {}
    requires w'.names.Keys == w.names.Keys + {p}
    requires forall q :: q in w.names && q != p ==>
               w'.names[q] == w.names[q] && w'.inodes[w.names[q]] == w.inodes[w.names[q]]
    ensures Left(w') == Left(w)[p := w'.inodes[w'.names[p]]]
  {
    var left := Left(w)[p := w'.inodes[w'.names[p]]];
    forall q
      ensures q in Left(w') <==> q in left
      ensures q in left ==> Left(w')[q] == left[q]
    {
    }
    assert Left(w') == left;
  }

  /** The two ways a download ends: a handle on what was kept, or a copy left behind. */
  lemma FetchStored(w: World, p: Path, local: LocalOpen, incoming: seq<ReadEvent>)
    requires Tidy(w) && FreshLocal(w, local) && local.Local? && HandlesOn(w.handles, p) == {} && p in w.remote
    ensures var (w', r) := StepOpen(w, p, true, local, incoming);
            Tidy(w') && (Means(w'), r) == Fetch(Means(w), p, local.fd, incoming)
  {
    var ending := Download(|w.remote[p]|, 0, incoming);
    var data := w.remote[p][..ending.kept];
    var w' := StepOpen(w, p, true, local, incoming).0;
    if ending.Unstored? {
      var filled := SetLocal(w, p, local.ino, data);
      CopyKeepsTidy(w, filled, p, local.ino, data);
      CopyMeans(w, filled, p, local.ino, data);
      SweptMeans(filled, w');
    } else {
      OpeningKeepsTidy(w, w', p, local.fd, local.ino, data, true);
      OpeningMeans(w, w', p, local.fd, local.ino, data, true);
    }
  }

  lemma OpenStored(w: World, p: Path, served: bool, local: LocalOpen, incoming: seq<ReadEvent>)
    requires Tidy(w) && FreshLocal(w, local) && Guarded(Abs(w), Open(p, served, local, incoming))
    ensures var (w', r) := StepOpen(w, p, served, local, incoming);
            Tidy(w') && (Means(w'), r) == StoreStep(Means(w), Open(p, served, local, incoming))
  {
    HoldersAre(w, p);
    if p in w.remote && served && local.Local? {
      FetchStored(w, p, local, incoming);
    } else {
      var w' := StepOpen(w, p, served, local, incoming).0;
      assert w' == w.(over := w'.over);
      OverOnly(w, w'.over);
    }
  }

  lemma OverOnly(w: World, over: bool)
    requires Tidy(w)
    ensures Tidy(w.(over := over)) && Means(w.(over := over)) == Means(w)
  {
    var owner, home :| TidyWith(w, owner, home);
    forall f | f in w.handles
      ensures OpenOk(w.(over := over), owner, f)
    {
      assert OpenOk(w, owner, f);
    }
    TidyFrom(w.(over := over), owner, home);
  }

  // ----- Editing

  lemma OpenOnce(w: World, f: Fd)
    requires Tidy(w) && f in w.handles
    ensures f in w.fds && w.handles[f] in w.names && w.names[w.handles[f]] == w.fds[f].ino
    ensures HandlesOn(w.handles, w.handles[f]) == {f}
  {
    var owner, home :| TidyWith(w, owner, home);
    assert OpenOk(w, owner, f);
    forall g | g in HandlesOn(w.handles, w.handles[f])
      ensures g == f
    {
      assert OpenOk(w, owner, g);
    }
  }

  lemma EditKeepsTidy(w: World, i: Ino, data: Bytes)
    requires Tidy(w) && i in w.inodes
    ensures Tidy(SetInode(w, i, data))
  {
    var owner, home :| TidyWith(w, owner, home);
    var w' := SetInode(w, i, data);
    forall f | f in w'.handles
      ensures OpenOk(w', owner, f)
    {
      assert OpenOk(w, owner, f);
    }
    TidyFrom(w', owner, home);
  }

  /** Editing the copy of an open path edits the one snapshot of that path... */
  lemma EditOpen(w: World, fd: Fd, data: Bytes)
    requires Tidy(w) && fd in w.handles
    ensures var w' := SetInode(w, w.fds[fd].ino, data);
            Tidy(w') && Means(w') == Store(Edit(Abs(w), fd, data), Left(w))
  {
    var w' := SetInode(w, w.fds[fd].ino, data);
    EditKeepsTidy(w, w.fds[fd].ino, data);
    OpenOnce(w, fd);
    var p := w.handles[fd];
    OneCopy(w, p, data, w'.inodes);
    forall f | f in w.handles && w.handles[f] == p
      ensures f == fd
    {
      assert f in HandlesOn(w.handles, p);
    }
    AbsIs(w', Edit(Abs(w), fd, data));
    assert Left(w') == Left(w);
  }

  /** ... and editing a left copy edits no snapshot. */
  lemma EditLeft(w: World, p: Path, data: Bytes)
    requires Tidy(w) && p in w.names && HandlesOn(w.handles, p) == {}
    ensures var w' := SetInode(w, w.names[p], data);
            Tidy(w') && Means(w') == Store(Abs(w), Left(w)[p := data])
  {
    var w' := SetInode(w, w.names[p], data);
    EditKeepsTidy(w, w.names[p], data);
    OneCopy(w, p, data, w'.inodes);
    forall f | f in w.handles
      ensures w.handles[f] != p
    {
      assert f !in HandlesOn(w.handles, p);
    }
    AbsIs(w', Abs(w));
    assert Left(w') == Left(w)[p := data];
  }

  lemma WriteStored(w: World, fd: Fd, offset: int, data: Bytes, accepted: int)
    requires Tidy(w) && fd in w.handles && accepted <= |data|
    ensures var (w', r) := StepWrite(w, fd, offset, data, accepted);
            Tidy(w') && (Means(w'), r) == StoreStep(Means(w), Write(fd, offset, data, accepted))
  {
    HandleReads(w, fd);
    if 0 <= offset && 0 <= accepted {
      EditOpen(w, fd, Overwrite(Contents(w, fd), offset, data[..accepted]));
    }
  }

  lemma FTruncateStored(w: World, fd: Fd, length: int)
    requires Tidy(w) && fd in w.handles
    ensures var (w', r) := StepFTruncate(w, fd, length);
            Tidy(w') && (Means(w'), r) == StoreStep(Means(w), FTruncate(fd, length))
  {
    HandleReads(w, fd);
    if length < 0 {
      assert StepFTruncate(w, fd, length) == (w, Failed);
    } else {
      var data := Resize(Contents(w, fd), length);
      EditOpen(w, fd, data);
      assert StepFTruncate(w, fd, length) == (SetInode(w, w.fds[fd].ino, data), Done);
    }
  }

  /** The one open file on a path and the copy under its name have the same bytes. */
  lemma HolderHasCopy(w: World, p: Path)
    requires Tidy(w) && HandlesOn(w.handles, p) != {}
    ensures Holders(Abs(w), p) == HandlesOn(w.handles, p) && p in w.names
    ensures var f := Holder(Abs(w), p); f in w.handles && w.handles[f] == p && w.fds[f].ino == w.names[p]
    ensures Abs(w).open[Holder(Abs(w), p)].data == w.inodes[w.names[p]]
  {
    HoldersAre(w, p);
    OpenOnce(w, Holder(Abs(w), p));
  }

  lemma TruncateStored(w: World, p: Path, length: int)
    requires Tidy(w)
    ensures var (w', r) := StepTruncate(w, p, length);
            Tidy(w') && (Means(w'), r) == StoreStep(Means(w), Truncate(p, length))
  {
    OpenHasName(w, p);
    if p !in w.names || length < 0 {
      assert StepTruncate(w, p, length) == (w, Failed);
    } else {
      var data := Resize(w.inodes[w.names[p]], length);
      assert StepTruncate(w, p, length) == (SetInode(w, w.names[p], data), Done);
      if HandlesOn(w.handles, p) == {} {
        EditLeft(w, p, data);
      } else {
        HolderHasCopy(w, p);
        EditOpen(w, Holder(Abs(w), p), data);
      }
    }
  }

  // ----- Closing and removing

  lemma FewerHandles(handles: map<Fd, Path>, fd: Fd, q: Path)
    ensures HandlesOn(handles - {fd}, q) == HandlesOn(handles, q) - {fd}
  {
  }

  /** A refused release leaves everything in place but the handle. */
  lemma RefusedStored(w: World, fd: Fd, outgoing: seq<WriteEvent>, done: bool)
    requires Tidy(w) && fd in w.handles
    ensures var p := w.handles[fd];
            var (w', r) := StepRelease(w, p, fd, false, outgoing, done);
            Tidy(w') && (Means(w'), r) == Close(Means(w), p, fd, false, outgoing, done)
  {
    var p := w.handles[fd];
    var w' := w.(handles := w.handles - {fd});
    RefusedKeepsTidy(w, fd);
    OpenOnce(w, fd);
    forall q
      ensures HandlesOn(w'.handles, q) == HandlesOn(w.handles, q) - {fd}
    {
      FewerHandles(w.handles, fd, q);
    }
    AbsIs(w', Spec(w.remote, Abs(w).open - {fd}));
    LeftAfterRefusal(w, w', fd);
    HandleReads(w, fd);
  }

  lemma RefusedKeepsTidy(w: World, fd: Fd)
    requires Tidy(w)
    ensures Tidy(w.(handles := w.handles - {fd}))
  {
    var owner, home :| TidyWith(w, owner, home);
    var w' := w.(handles := w.handles - {fd});
    forall f | f in w'.handles
      ensures OpenOk(w', owner, f)
    {
      assert OpenOk(w, owner, f);
    }
    TidyFrom(w', owner, home);
  }

  lemma LeftAfterRefusal(w: World, w': World, fd: Fd)
    requires WellFormed(w) && WellFormed(w') && fd in w.handles && w.handles[fd] in w.names
    requires w'.names == w.names && w'.inodes == w.inodes
    requires forall q :: HandlesOn(w'.handles, q) == HandlesOn(w.handles, q) - {fd}
    requires HandlesOn(w.handles, w.handles[fd]) == {fd}
    ensures Left(w') == Left(w)[w.handles[fd] := w.inodes[w.names[w.handles[fd]]]]
  {
    var p := w.handles[fd];
    forall q | q != p
      ensures HandlesOn(w'.handles, q) == HandlesOn(w.handles, q)
    {
      assert fd !in HandlesOn(w.handles, q);
    }
  }

  /** What an unlink or an accepted release does to the local copies: one name less, no
      handle on it, and the copies that still have a name as they were. */
  ghost predicate Removed(w: World, w': World, p: Path)
    requires WellFormed(w) && WellFormed(w')
  {
    && w'.over == w.over && w'.names == w.names - {p} && w'.inodes == Reap(w.inodes, w'.names, w'.fds)
    && w'.handles.Keys <= w.handles.Keys
    && forall f :: f in w'.handles ==> w'.handles[f] == w.handles[f] && w'.handles[f] != p && w'.fds[f] == w.fds[f]
  }

  lemma RemovedTidy(w: World, w': World, p: Path)
    requires Tidy(w) && WellFormed(w') && Removed(w, w', p)
    ensures Tidy(w')
  {
    var owner, home :| TidyWith(w, owner, home);
    forall f | f in w'.handles
      ensures OpenOk(w', owner, f)
    {
      assert OpenOk(w, owner, f);
    }
    forall q | q in w'.names
      ensures CopyOk(w'.names, home, q)
    {
      assert CopyOk(w.names, home, q);
    }
    TidyFrom(w', owner, home);
  }

  lemma RemovedBytes(w: World, w': World, p: Path)
    requires WellFormed(w) && WellFormed(w') && Removed(w, w', p)
    ensures forall q :: q in w'.names ==> w'.inodes[w'.names[q]] == w.inodes[w.names[q]]
    ensures forall f :: f in w'.handles ==> w'.inodes[w'.fds[f].ino] == w.inodes[w.fds[f].ino]
  {
  }

  lemma LeftAfterRemoval(w: World, w': World, p: Path)
    requires WellFormed(w) && WellFormed(w') && w'.names == w.names - {p}
    requires forall q :: q in w'.names ==> w'.inodes[w'.names[q]] == w.inodes[w.names[q]]
    requires forall q :: q != p ==> HandlesOn(w'.handles, q) == HandlesOn(w.handles, q)
    ensures Left(w') == Left(w) - {p}
  {
    var left := Left(w) - {p};
    forall q
      ensures q in Left(w') <==> q in left
      ensures q in left ==> Left(w')[q] == left[q]
    {
      assert q != p ==> HandlesOn(w'.handles, q) == HandlesOn(w.handles, q);
    }
    assert Left(w') == left;
  }

  lemma ClosedIsRemoved(w: World, fd: Fd, outgoing: seq<WriteEvent>)
    requires Tidy(w) && fd in w.handles
    ensures var p := w.handles[fd];
            var (w', r) := StepRelease(w, p, fd, true, outgoing, true);
            && Removed(w, w', p) && w'.handles == w.handles - {fd} && r == Done
            && w'.remote == w.remote[p := Upload(Abs(w).open[fd].data, outgoing)]
  {
    var p := w.handles[fd];
    OpenOnce(w, fd);
    forall f | f in w.handles - {fd}
      ensures w.handles[f] != p
    {
      assert f !in HandlesOn(w.handles, p);
    }
  }

  lemma ClosedMeans(w: World, w': World, fd: Fd)
    requires Tidy(w) && fd in w.handles && WellFormed(w')
    requires Removed(w, w', w.handles[fd]) && w'.handles == w.handles - {fd}
    ensures Tidy(w') && Means(w') == Store(Spec(w'.remote, Abs(w).open - {fd}), Left(w))
  {
    var p := w.handles[fd];
    RemovedTidy(w, w', p);
    assert Abs(w') == Spec(w'.remote, Abs(w).open - {fd}) by {
      RemovedBytes(w, w', p);
      AbsIs(w', Spec(w'.remote, Abs(w).open - {fd}));
    }
    assert Left(w') == Left(w) by {
      RemovedBytes(w, w', p);
      OpenOnce(w, fd);
      forall q | q != p
        ensures HandlesOn(w'.handles, q) == HandlesOn(w.handles, q)
      {
        FewerHandles(w.handles, fd, q);
      }
      LeftAfterRemoval(w, w', p);
      Without(Left(w), p);
    }
  }

  /** An accepted release publishes what the upload gets through of the snapshot. */
  lemma AcceptedStored(w: World, fd: Fd, outgoing: seq<WriteEvent>)
    requires Tidy(w) && fd in w.handles
    ensures var p := w.handles[fd];
            var (w', r) := StepRelease(w, p, fd, true, outgoing, true);
            Tidy(w') && (Means(w'), r) == Close(Means(w), p, fd, true, outgoing, true)
  {
    ClosedIsRemoved(w, fd, outgoing);
    ClosedMeans(w, StepRelease(w, w.handles[fd], fd, true, outgoing, true).0, fd);
  }

  /** One that cannot remove the local file does so, too, and leaves the file. */
  lemma UnremovedStored(w: World, fd: Fd, outgoing: seq<WriteEvent>)
    requires Tidy(w) && fd in w.handles
    ensures var p := w.handles[fd];
            var (w', r) := StepRelease(w, p, fd, true, outgoing, false);
            Tidy(w') && (Means(w'), r) == Close(Means(w), p, fd, true, outgoing, false)
  {
    var p := w.handles[fd];
    OpenOnce(w, fd);
    RefusedStored(w, fd, outgoing, false);
    SweptMeans(w.(handles := w.handles - {fd}), StepRelease(w, p, fd, true, outgoing, false).0);
  }

  lemma ServerOnly(w: World, remote: map<Path, Bytes>)
    requires Tidy(w)
    ensures Tidy(w.(remote := remote))
    ensures Means(w.(remote := remote)) == Store(Spec(remote, Abs(w).open), Left(w))
  {
    var owner, home :| TidyWith(w, owner, home);
    var w' := w.(remote := remote);
    forall f | f in w'.handles
      ensures OpenOk(w', owner, f)
    {
      assert OpenOk(w, owner, f);
    }
    TidyFrom(w', owner, home);
  }

  lemma UnlinkStored(w: World, p: Path, done: bool)
    requires Tidy(w) && Guarded(Abs(w), Unlink(p, done))
    ensures var (w', r) := StepUnlink(w, p, done);
            Tidy(w') && (Means(w'), r) == StoreStep(Means(w), Unlink(p, done))
  {
    OpenHasName(w, p);
    if p in w.names && done {
      UnlinkLeft(w, p);
    } else if p !in w.names && p in w.remote && done {
      ServerOnly(w, w.remote - {p});
    } else {
      assert StepUnlink(w, p, done) == (w, Failed);
    }
  }

  /** The left copy goes, and the published file comes back into sight. */
  lemma UnlinkLeft(w: World, p: Path)
    requires Tidy(w) && p in w.names && HandlesOn(w.handles, p) == {}
    ensures var w' := StepUnlink(w, p, true).0;
            Tidy(w') && Means(w') == Store(Abs(w), Left(w) - {p})
  {
    var w' := StepUnlink(w, p, true).0;
    forall f | f in w'.handles
      ensures w.handles[f] != p
    {
      assert f !in HandlesOn(w.handles, p);
    }
    RemovedTidy(w, w', p);
    RemovedBytes(w, w', p);
    AbsIs(w', Abs(w));
    LeftAfterRemoval(w, w', p);
  }

  // ----- Renaming

  /** What a rename to another path does, on the names and handles. */
  ghost predicate Renamed(w: World, w': World, from: Path, to: Path)
    requires WellFormed(w) && WellFormed(w') && from in w.names
  {
    && w'.over == w.over && w'.remote == w.remote && w'.fds == w.fds
    && w'.names == (w.names - {from})[to := w.names[from]]
    && w'.handles == MoveHandles(w.handles, from, to)
    && w'.inodes == Reap(w.inodes, w'.names, w'.fds)
  }

  lemma RenameRenames(w: World, from: Path, to: Path)
    requires Tidy(w) && from in w.names && from != to
    ensures StepRename(w, from, to, true).1 == Done
    ensures Renamed(w, StepRename(w, from, to, true).0, from, to)
  {
    var owner, home :| TidyWith(w, owner, home);
    assert CopyOk(w.names, home, from);
    assert to in w.names ==> CopyOk(w.names, home, to);
  }

  lemma RenamedTidy(w: World, w': World, from: Path, to: Path)
    requires Tidy(w) && WellFormed(w') && from in w.names && from != to && HandlesOn(w.handles, to) == {}
    requires Renamed(w, w', from, to)
    ensures Tidy(w')
  {
    var owner, home :| TidyWith(w, owner, home);
    var owner' := if from in owner then owner[to := owner[from]] else owner;
    var home' := home[w.names[from] := to];
    forall f | f in w'.handles
      ensures OpenOk(w', owner', f)
    {
      assert OpenOk(w, owner, f) && f !in HandlesOn(w.handles, to);
    }
    forall q | q in w'.names
      ensures CopyOk(w'.names, home', q)
    {
      assert CopyOk(w.names, home, from);
      assert q != to ==> CopyOk(w.names, home, q);
    }
    TidyFrom(w', owner', home');
  }

  lemma RenamedBytes(w: World, w': World, from: Path, to: Path)
    requires WellFormed(w) && WellFormed(w') && from in w.names && Renamed(w, w', from, to)
    ensures forall q :: q in w'.names ==> w'.names[q] in w.inodes && w'.inodes[w'.names[q]] == w.inodes[w'.names[q]]
    ensures forall f :: f in w.fds ==> w'.inodes[w.fds[f].ino] == w.inodes[w.fds[f].ino]
  {
    forall f | f in w.fds
      ensures Referenced(w.fds[f].ino, w'.names, w'.fds)
    {
      assert w'.fds[f].ino == w.fds[f].ino;
    }
  }

  lemma MovedHandles(handles: map<Fd, Path>, from: Path, to: Path, q: Path)
    requires from != to && HandlesOn(handles, to) == {}
    ensures HandlesOn(MoveHandles(handles, from, to), q)
         == if q == to then HandlesOn(handles, from) else if q == from then {} else HandlesOn(handles, q)
  {
    forall f | f in handles
      ensures handles[f] != to
    {
      assert f !in HandlesOn(handles, to);
    }
  }

  /** The left copy of `from` goes along with its name... */
  lemma LeftCopyMoves(w: World, w': World, from: Path, to: Path)
    requires WellFormed(w) && WellFormed(w') && from in w.names && from != to && HandlesOn(w.handles, to) == {}
    requires Renamed(w, w', from, to) && HandlesOn(w.handles, from) == {}
    requires forall q :: q in w'.names ==> w'.names[q] in w.inodes && w'.inodes[w'.names[q]] == w.inodes[w'.names[q]]
    ensures Left(w') == (Left(w) - {from})[to := Left(w)[from]]
  {
    var left := (Left(w) - {from})[to := Left(w)[from]];
    forall q
      ensures q in Left(w') <==> q in left
      ensures q in left ==> Left(w')[q] == left[q]
    {
      MovedHandles(w.handles, from, to, q);
    }
    assert Left(w') == left;
  }

  /** ... and what was left at `to` is gone. */
  lemma LeftCopyReplaced(w: World, w': World, from: Path, to: Path)
    requires WellFormed(w) && WellFormed(w') && from in w.names && from != to && HandlesOn(w.handles, to) == {}
    requires Renamed(w, w', from, to) && HandlesOn(w.handles, from) != {}
    requires forall q :: q in w'.names ==> w'.names[q] in w.inodes && w'.inodes[w'.names[q]] == w.inodes[w'.names[q]]
    ensures Left(w') == Left(w) - {to}
  {
    forall q
      ensures q in Left(w') <==> q in Left(w) - {to}
      ensures q in Left(w) - {to} ==> Left(w')[q] == Left(w)[q]
    {
      MovedHandles(w.handles, from, to, q);
    }
    assert Left(w') == Left(w) - {to};
  }

  lemma RenamedAbs(w: World, w': World, from: Path, to: Path)
    requires WellFormed(w) && WellFormed(w') && from in w.names && Renamed(w, w', from, to)
    ensures Abs(w') == Spec(w.remote, Move(Abs(w).open, from, to))
  {
    RenamedBytes(w, w', from, to);
    AbsIs(w', Spec(w.remote, Move(Abs(w).open, from, to)));
  }

  lemma RenamedLeft(w: World, w': World, from: Path, to: Path)
    requires WellFormed(w) && WellFormed(w') && from in w.names && from != to && HandlesOn(w.handles, to) == {}
    requires Renamed(w, w', from, to)
    ensures Left(w') == if HandlesOn(w.handles, from) == {} then (Left(w) - {from})[to := Left(w)[from]]
                        else Left(w) - {to}
  {
    RenamedBytes(w, w', from, to);
    if HandlesOn(w.handles, from) == {} {
      LeftCopyMoves(w, w', from, to);
    } else {
      LeftCopyReplaced(w, w', from, to);
    }
  }

  lemma RenamedMeans(w: World, w': World, from: Path, to: Path)
    requires Tidy(w) && WellFormed(w') && from in w.names && from != to && HandlesOn(w.handles, to) == {}
    requires Renamed(w, w', from, to)
    ensures Tidy(w')
    ensures HandlesOn(w.handles, from) == {} ==>
              Means(w') == Store(Abs(w), (Left(w) - {from})[to := Left(w)[from]])
    ensures HandlesOn(w.handles, from) != {} ==>
              Means(w') == Store(Spec(w.remote, Move(Abs(w).open, from, to)), Left(w) - {to})
  {
    RenamedTidy(w, w', from, to);
    RenamedAbs(w, w', from, to);
    RenamedLeft(w, w', from, to);
    if HandlesOn(w.handles, from) == {} {
      NothingMoves(w, from, to);
    }
  }

  lemma NothingMoves(w: World, from: Path, to: Path)
    requires WellFormed(w) && HandlesOn(w.handles, from) == {}
    ensures Move(Abs(w).open, from, to) == Abs(w).open
  {
    forall f | f in Abs(w).open
      ensures Abs(w).open[f].path != from
    {
      assert f !in HandlesOn(w.handles, from);
    }
  }

  /** Renaming a path to itself: nothing happens. */
  lemma RenameInPlace(w: World, p: Path)
    requires WellFormed(w) && p in w.names
    ensures StepRename(w, p, p, true) == (w, Done)
    ensures Move(Abs(w).open, p, p) == Abs(w).open
    ensures p in Left(w) ==> (Left(w) - {p})[p := Left(w)[p]] == Left(w)
  {
    RenameToItself(w, p);
    if p in Left(w) {
      PutBack(Left(w), p);
    }
  }

  lemma RenameStored(w: World, from: Path, to: Path, done: bool)
    requires Tidy(w) && Guarded(Abs(w), Rename(from, to, done))
    ensures var (w', r) := StepRename(w, from, to, done);
            Tidy(w') && (Means(w'), r) == StoreStep(Means(w), Rename(from, to, done))
  {
    OpenHasName(w, from);
    if from !in w.names || !done {
      assert StepRename(w, from, to, done) == (w, Failed);
      assert StoreStep(Means(w), Rename(from, to, done)) == (Means(w), Failed);
    } else if from == to {
      RenameInPlace(w, from);
      if from !in Left(w) {
        Without(Left(w), from);
      }
    } else {
      HoldersAre(w, to);
      RenameRenames(w, from, to);
      RenamedMeans(w, StepRename(w, from, to, true).0, from, to);
    }
  }

  // ----- All callbacks

  lemma LookUpStored(w: World, p: Path, served: bool)
    requires Tidy(w)
    ensures StoreStep(Means(w), GetAttr(p, served)) == (Means(w), LookUp(w, p, served))
  {
    OpenHasName(w, p);
    if HandlesOn(w.handles, p) != {} {
      HolderHasCopy(w, p);
    }
  }

  lemma ReleaseStored(w: World, c: Call)
    requires Tidy(w) && Legal(w, c) && c.Release?
    ensures var (w', r) := Step(w, c);
            Tidy(w') && (Means(w'), r) == StoreStep(Means(w), c)
  {
    if !c.served {
      RefusedStored(w, c.fd, c.outgoing, c.done);
    } else if c.done {
      AcceptedStored(w, c.fd, c.outgoing);
    } else {
      UnremovedStored(w, c.fd, c.outgoing);
    }
    HandleReads(w, c.fd);
  }

  lemma FileCallStored(w: World, c: Call)
    requires Tidy(w) && Legal(w, c) && (c.Read? || c.FGetAttr? || c.Write? || c.FTruncate?)
    ensures var (w', r) := Step(w, c);
            Tidy(w') && (Means(w'), r) == StoreStep(Means(w), c)
  {
    match c
    case Write(fd, offset, data, accepted) => WriteStored(w, fd, offset, data, accepted);
    case FTruncate(fd, length) => FTruncateStored(w, fd, length);
    case Read(fd, _, _) => HandleReads(w, fd);
    case FGetAttr(fd) => HandleReads(w, fd);
  }

  lemma PathCallStored(w: World, c: Call)
    requires Tidy(w) && Legal(w, c) && Guarded(Abs(w), c)
    requires c.GetAttr? || c.Create? || c.Open? || c.Unlink? || c.Truncate? || c.Rename? || c.Foreign? || c.Forwarded?
    ensures var (w', r) := Step(w, c);
            Tidy(w') && (Means(w'), r) == StoreStep(Means(w), c)
  {
    match c
    case GetAttr(p, served) => LookUpStored(w, p, served);
    case Create(p, local) => CreateStored(w, p, local);
    case Open(p, served, local, incoming) => OpenStored(w, p, served, local, incoming);
    case Unlink(p, done) => UnlinkStored(w, p, done);
    case Truncate(p, length) => TruncateStored(w, p, length);
    case Rename(from, to, done) => RenameStored(w, from, to, done);
    case Foreign(p, _) => OpenHasName(w, p);
    case Forwarded(_) =>
  }

  /** One callback of the cache is one step of the store, with the same reply. */
  lemma StepStored(w: World, c: Call)
    requires Tidy(w) && Legal(w, c) && Guarded(Abs(w), c)
    ensures var (w', r) := Step(w, c);
            Tidy(w') && (Means(w'), r) == StoreStep(Means(w), c)
  {
    if c.Release? {
      ReleaseStored(w, c);
    } else if c.Read? || c.FGetAttr? || c.Write? || c.FTruncate? {
      FileCallStored(w, c);
    } else {
      PathCallStored(w, c);
    }
  }

  lemma {:induction false} RunStored(w: World, calls: seq<Call>)
    requires Tidy(w) && LegalRun(w, calls) && GuardedStores(Means(w), calls)
    ensures var (w', replies) := Run(w, calls);
            Tidy(w') && (Means(w'), replies) == StoreRun(Means(w), calls)
    decreases |calls|
  {
    if calls != [] {
      StepStored(w, calls[0]);
      RunStored(Step(w, calls[0]).0, calls[1..]);
    }
  }

  /** The refinement theorem with failures: whatever the server, the kernel and the transport
      answer, all replies and all remote files are those of the specification. */
  lemma FailureRefinement(remote: map<Path, Bytes>, calls: seq<Call>)
    requires LegalRun(Start(remote), calls)
    requires GuardedStores(Store(Spec(remote, map[]), map[]), calls)
    ensures var (w, replies) := Run(Start(remote), calls);
            var (s, storeReplies) := StoreRun(Store(Spec(remote, map[]), map[]), calls);
            replies == storeReplies && w.remote == s.files.published && Tidy(w) && Means(w) == s
  {
    StartTidy(remote);
    RunStored(Start(remote), calls);
  }

  // ----- Without failures

  lemma CleanFetch(s: Spec, p: Path, fd: Fd, incoming: seq<ReadEvent>)
    requires p in s.published && CleanReads(incoming)
    ensures Fetch(Store(s, map[]), p, fd, incoming)
         == (Store(s.(open := s.open[fd := Snapshot(p, s.published[p], true)]), map[]), Opened(fd))
  {
    CleanDownload(|s.published[p]|, 0, incoming);
    assert s.published[p][..|s.published[p]|] == s.published[p];
    var none: map<Path, Bytes> := map[];
    Without(none, p);
  }

  lemma CleanStep(s: Spec, c: Call)
    requires Clean(c)
    ensures StoreStep(Store(s, map[]), c) == (Store(SpecStep(s, c).0, map[]), SpecStep(s, c).1)
  {
    if c.Open? && c.path in s.published {
      CleanFetch(s, c.path, c.local.fd, c.incoming);
    } else if c.Release? && c.fd in s.open {
      CleanUpload(s.open[c.fd].data, c.outgoing);
    } else if c.Create? || c.Rename? {
      var none: map<Path, Bytes> := map[];
      Without(none, if c.Create? then c.path else c.to);
    }
  }

  /** Where nothing fails nothing is left behind, and this specification is the other one. */
  lemma {:induction false} CleanLeavesNothing(s: Spec, calls: seq<Call>)
    requires CleanRun(calls)
    ensures StoreRun(Store(s, map[]), calls) == (Store(SpecRun(s, calls).0, map[]), SpecRun(s, calls).1)
    ensures GuardedStores(Store(s, map[]), calls) <==> GuardedRun(s, calls)
    decreases |calls|
  {
    if calls != [] {
      assert Clean(calls[0]);
      CleanStep(s, calls[0]);
      CleanLeavesNothing(SpecStep(s, calls[0]).0, calls[1..]);
    }
  }

  // ----- Left bytes never reach the server

  /** The same files and snapshots, and copies left behind on the same paths, with any bytes. */
  predicate SameButLeft(s: Store, t: Store) {
    s.files == t.files && s.left.Keys == t.left.Keys
  }

  lemma StepSameButLeft(s: Store, t: Store, c: Call)
    requires SameButLeft(s, t)
    ensures SameButLeft(StoreStep(s, c).0, StoreStep(t, c).0)
    ensures !c.GetAttr? ==> StoreStep(s, c).1 == StoreStep(t, c).1
  {
  }

  /** Over any run the bytes of left copies have no influence on a published file or on a
      snapshot, nor on any reply but the size that getattr reports. */
  lemma {:induction false} LeftStaysBehind(s: Store, t: Store, calls: seq<Call>)
    requires SameButLeft(s, t)
    ensures SameButLeft(StoreRun(s, calls).0, StoreRun(t, calls).0)
    ensures |StoreRun(s, calls).1| == |StoreRun(t, calls).1| == |calls|
    ensures forall k :: 0 <= k < |calls| && !calls[k].GetAttr? ==> StoreRun(s, calls).1[k] == StoreRun(t, calls).1[k]
    ensures GuardedStores(s, calls) <==> GuardedStores(t, calls)
    decreases |calls|
  {
    if calls != [] {
      var s', t' := StoreStep(s, calls[0]).0, StoreStep(t, calls[0]).0;
      StepSameButLeft(s, t, calls[0]);
      LeftStaysBehind(s', t', calls[1..]);
      forall k | 0 <= k < |calls| && !calls[k].GetAttr?
        ensures StoreRun(s, calls).1[k] == StoreRun(t, calls).1[k]
      {
        assert k > 0 ==> calls[1..][k - 1] == calls[k];
      }
    }
  }

  /** The same names, descriptors and handles on the same inodes, with any bytes in them. */
  predicate SameShape(w: World, v: World) {
    && w.names == v.names && w.fds == v.fds && w.handles == v.handles
    && w.over == v.over && w.inodes.Keys == v.inodes.Keys
  }

  lemma SameReap(a: map<Ino, Bytes>, b: map<Ino, Bytes>, names: map<Path, Ino>, fds: map<Fd, OpenFile>)
    requires a.Keys == b.Keys
    ensures Reap(a, names, fds).Keys == Reap(b, names, fds).Keys
  {
  }

  lemma CreateSameShape(w: World, v: World, p: Path, local: LocalOpen)
    requires WellFormed(w) && WellFormed(v) && SameShape(w, v) && FreshLocal(w, local) && FreshLocal(v, local)
    ensures SameShape(StepCreate(w, p, local).0, StepCreate(v, p, local).0)
  {
  }

  lemma OpenSameShape(w: World, v: World, p: Path, served: bool, local: LocalOpen, incoming: seq<ReadEvent>)
    requires WellFormed(w) && WellFormed(v) && SameShape(w, v) && FreshLocal(w, local) && FreshLocal(v, local)
    requires w.remote == v.remote
    ensures SameShape(StepOpen(w, p, served, local, incoming).0, StepOpen(v, p, served, local, incoming).0)
  {
    if p in w.remote && served && local.Local? {
      FetchSameShape(w, v, p, local.fd, local.ino, incoming);
    }
  }

  lemma FetchSameShape(w: World, v: World, p: Path, fd: Fd, ino: Ino, incoming: seq<ReadEvent>)
    requires WellFormed(w) && WellFormed(v) && SameShape(w, v) && w.remote == v.remote && p in w.remote
    requires FreshLocal(w, Local(fd, ino)) && FreshLocal(v, Local(fd, ino))
    ensures SameShape(StepOpen(w, p, true, Local(fd, ino), incoming).0,
                      StepOpen(v, p, true, Local(fd, ino), incoming).0)
  {
    var ending := Download(|w.remote[p]|, 0, incoming);
    var data := w.remote[p][..ending.kept];
    var filled, filled' := SetLocal(w, p, ino, data), SetLocal(v, p, ino, data);
    assert SameShape(filled, filled');
    if ending.Unstored? {
      SameReap(filled.inodes, filled'.inodes, filled.names, filled.fds);
    }
  }

  lemma ReleaseSameShape(w: World, v: World, p: Path, fd: Fd, served: bool, outgoing: seq<WriteEvent>, done: bool)
    requires WellFormed(w) && WellFormed(v) && SameShape(w, v) && fd in w.handles
    ensures SameShape(StepRelease(w, p, fd, served, outgoing, done).0, StepRelease(v, p, fd, served, outgoing, done).0)
  {
    SameReap(w.inodes, v.inodes, if done then w.names - {p} else w.names, w.fds - {fd});
  }

  lemma UnlinkSameShape(w: World, v: World, p: Path, done: bool)
    requires WellFormed(w) && WellFormed(v) && SameShape(w, v)
    ensures SameShape(StepUnlink(w, p, done).0, StepUnlink(v, p, done).0)
  {
    if p in w.names && done {
      SameReap(w.inodes, v.inodes, w.names - {p}, w.fds);
    }
  }

  lemma RenameSameShape(w: World, v: World, from: Path, to: Path, done: bool)
    requires WellFormed(w) && WellFormed(v) && SameShape(w, v)
    ensures SameShape(StepRename(w, from, to, done).0, StepRename(v, from, to, done).0)
  {
    assert MoveHandles(w.handles, from, to) == MoveHandles(v.handles, from, to);
    if from !in w.names || !done {
      assert StepRename(w, from, to, done).0 == w && StepRename(v, from, to, done).0 == v;
    } else {
      var names := (w.names - {from})[to := w.names[from]];
      SameReap(w.inodes, v.inodes, names, w.fds);
      assert names == (v.names - {from})[to := v.names[from]];
    }
  }

  lemma EditSameShape(w: World, v: World, c: Call)
    requires WellFormed(w) && WellFormed(v) && SameShape(w, v) && Legal(w, c) && Legal(v, c)
    requires c.Write? || c.FTruncate? || c.Truncate?
    ensures SameShape(Step(w, c).0, Step(v, c).0)
  {
  }

  lemma QuerySameShape(w: World, v: World, c: Call)
    requires WellFormed(w) && WellFormed(v) && SameShape(w, v) && Legal(w, c) && Legal(v, c)
    requires c.GetAttr? || c.Read? || c.FGetAttr? || c.Foreign? || c.Forwarded?
    ensures SameShape(Step(w, c).0, Step(v, c).0)
  {
  }

  lemma StepSameShape(w: World, v: World, c: Call)
    requires Tidy(w) && Tidy(v) && SameShape(w, v) && w.remote == v.remote
    requires Legal(w, c) && Legal(v, c) && Guarded(Abs(w), c)
    ensures SameShape(Step(w, c).0, Step(v, c).0)
  {
    if c.Create? {
      CreateSameShape(w, v, c.path, c.local);
    } else if c.Open? {
      OpenSameShape(w, v, c.path, c.served, c.local, c.incoming);
    } else if c.Release? {
      ReleaseSameShape(w, v, c.path, c.fd, c.served, c.outgoing, c.done);
    } else if c.Unlink? {
      UnlinkSameShape(w, v, c.path, c.done);
    } else if c.Rename? {
      RenameSameShape(w, v, c.from, c.to, c.done);
    } else if c.Write? || c.FTruncate? || c.Truncate? {
      EditSameShape(w, v, c);
    } else {
      QuerySameShape(w, v, c);
    }
  }

  /** What is possible, and what it does, does not depend on the bytes of left copies. */
  lemma {:induction false} RunSameButLeft(w: World, v: World, calls: seq<Call>)
    requires Tidy(w) && Tidy(v) && SameButLeft(Means(w), Means(v)) && SameShape(w, v)
    requires LegalRun(w, calls) && GuardedStores(Means(w), calls)
    ensures LegalRun(v, calls)
    ensures SameButLeft(Means(Run(w, calls).0), Means(Run(v, calls).0))
    decreases |calls|
  {
    if calls != [] {
      var c := calls[0];
      assert Legal(v, c);
      StepStored(w, c);
      StepStored(v, c);
      StepSameButLeft(Means(w), Means(v), c);
      StepSameShape(w, v, c);
      RunSameButLeft(Step(w, c).0, Step(v, c).0, calls[1..]);
    }
  }

  /** The edits of a refused release never reach the server: put any other bytes into the
      copy it leaves behind, and every guarded run, further failures included, is still
      possible and leaves the same files on the server. */
  lemma EditsNeverReach(w: World, fd: Fd, data: Bytes, w1: World, v1: World, calls: seq<Call>)
    requires Tidy(w) && fd in w.handles
    requires w1 == StepRelease(w, w.handles[fd], fd, false, [], true).0
    requires v1 == SetInode(w1, w1.fds[fd].ino, data)
    requires LegalRun(w1, calls) && GuardedStores(Means(w1), calls)
    ensures LegalRun(v1, calls)
    ensures Run(v1, calls).0.remote == Run(w1, calls).0.remote
  {
    var p := w.handles[fd];
    RefusedStored(w, fd, [], true);
    OpenOnce(w, fd);
    FewerHandles(w.handles, fd, p);
    EditLeft(w1, p, data);
    RunSameButLeft(w1, v1, calls);
  }
}
