/** Which descriptors and inodes the kernel hands out, and how a transfer is split into
    chunks, never shows. Two runs that make the same requests on the same paths get the
    same replies, but for the descriptors in them, and end in states that are the same up
    to renumbering; and requests on distinct paths commute, whatever numbers they are given
    in either order, a descriptor that one of them has just closed included. */
module KernelChoices {
  import opened Posix
  import opened Transfer
  import opened CacheModel
  import opened CloseToOpen
  import opened Independence

  // ----- Files by path

  datatype Copy = Absent | Copy(data: Bytes, readable: bool)

  /** What is open on `q`, without the descriptor. */
  ghost function OpenAt(s: Spec, q: Path): Copy {
    if Holders(s, q) == {} then Absent
    else Copy(s.open[Holder(s, q)].data, s.open[Holder(s, q)].readable)
  }

  /** `q` has the same published contents in both states, and the same snapshot open. */
  ghost predicate SameFile(s: Spec, t: Spec, q: Path) {
    SamePublished(s, t, q) && OpenAt(s, q) == OpenAt(t, q)
  }

  predicate Single(s: Spec, q: Path) {
    forall f :: f in Holders(s, q) ==> Holders(s, q) == {f}
  }

  lemma HeldBy(s: Spec, q: Path, f: Fd)
    requires Single(s, q) && f in s.open && s.open[f].path == q
    ensures Holders(s, q) == {f} && Holder(s, q) == f && OpenAt(s, q) == Copy(s.open[f].data, s.open[f].readable)
  {
    assert f in Holders(s, q);
  }

  /** Outside its footprint a call changes no file. */
  lemma FrameAt(s: Spec, c: Call, q: Path)
    requires SpecLegal(s, c) && q !in Footprint(s, c)
    ensures SameFile(s, SpecStep(s, c).0, q)
  {
    Frame(s, c);
    OutsideAt(s, SpecStep(s, c).0, Footprint(s, c), q);
  }

  lemma OutsideAt(s: Spec, t: Spec, region: set<Path>, q: Path)
    requires SameOff(s, t, region) && q !in region
    ensures SameFile(s, t, q) && Holders(s, q) == Holders(t, q)
  {
    assert SamePublished(s, t, q);
    forall f
      ensures f in Holders(s, q) <==> f in Holders(t, q)
    {
      assert SameOpen(s, t, region, false, f);
    }
    assert Holders(s, q) == Holders(t, q);
    if Holders(s, q) != {} {
      assert SameOpen(s, t, region, false, Holder(s, q));
    }
  }

  // ----- What each kind of call leaves at its own paths

  lemma OpenedAt(s: Spec, fd: Fd, p: Path, data: Bytes, readable: bool)
    requires Holders(s, p) == {} && fd !in s.open
    ensures OpenAt(s.(open := s.open[fd := Snapshot(p, data, readable)]), p) == Copy(data, readable)
  {
    var s' := s.(open := s.open[fd := Snapshot(p, data, readable)]);
    forall f | f in Holders(s', p)
      ensures f == fd
    {
      assert f != fd ==> f in Holders(s, p);
    }
    assert fd in Holders(s', p);
  }

  lemma EditedAt(s: Spec, fd: Fd, data: Bytes)
    requires fd in s.open && Single(s, s.open[fd].path)
    ensures OpenAt(Edit(s, fd, data), s.open[fd].path) == Copy(data, s.open[fd].readable)
  {
    var p, s' := s.open[fd].path, Edit(s, fd, data);
    HeldBy(s, p, fd);
    forall f
      ensures f in Holders(s', p) <==> f in Holders(s, p)
    {
    }
    assert Holders(s', p) == {fd};
  }

  lemma ClosedAt(s: Spec, fd: Fd, published: map<Path, Bytes>)
    requires fd in s.open && Single(s, s.open[fd].path)
    ensures OpenAt(Spec(published, s.open - {fd}), s.open[fd].path) == Absent
  {
    var p, s' := s.open[fd].path, Spec(published, s.open - {fd});
    HeldBy(s, p, fd);
    forall f
      ensures f !in Holders(s', p)
    {
      assert f in Holders(s', p) ==> f in Holders(s, p);
    }
  }

  lemma MovedAt(s: Spec, from: Path, to: Path)
    requires from != to && Holders(s, to) == {}
    ensures var s' := s.(open := Move(s.open, from, to));
            OpenAt(s', to) == OpenAt(s, from) && OpenAt(s', from) == Absent
  {
    var s' := s.(open := Move(s.open, from, to));
    forall f
      ensures f in Holders(s', to) <==> f in Holders(s, from)
      ensures f !in Holders(s', from)
    {
      assert f !in Holders(s, to);
    }
    assert Holders(s', to) == Holders(s, from);
  }

  // ----- The same request

  predicate SameHandle(s: Spec, f: Fd, t: Spec, g: Fd) {
    f in s.open && g in t.open && s.open[f].path == t.open[g].path
  }

  /** The same request, made in two states: on the same paths or on the open files of the
      same paths. Descriptors, inodes and chunks may differ; answers that a reply tells,
      whether a call is let in and how much pwrite accepts, are the same. */
  predicate SameRequest(s: Spec, c: Call, t: Spec, c': Call) {
    match c
    case Create(p, local) => c'.Create? && c'.path == p && (c'.local.Local? <==> local.Local?)
    case Open(p, served, local, _) =>
      c'.Open? && c'.path == p && c'.served == served && (c'.local.Local? <==> local.Local?)
    case Read(fd, offset, size) => c'.Read? && c'.offset == offset && c'.size == size && SameHandle(s, fd, t, c'.fd)
    case Write(fd, offset, data, accepted) =>
      && c'.Write? && c'.offset == offset && c'.data == data && c'.accepted == accepted
      && SameHandle(s, fd, t, c'.fd)
    case FTruncate(fd, length) => c'.FTruncate? && c'.length == length && SameHandle(s, fd, t, c'.fd)
    case FGetAttr(fd) => c'.FGetAttr? && SameHandle(s, fd, t, c'.fd)
    case Release(p, fd, served, _, done) =>
      c'.Release? && c'.path == p && c'.served == served && c'.done == done && SameHandle(s, fd, t, c'.fd)
    case _ => c' == c
  }

  /** The same reply, but for the descriptor an open returns. */
  predicate SameReply(r: Reply, r': Reply) {
    r == r' || (r.Opened? && r'.Opened?)
  }

  /** Two states that agree on the files a request is about. */
  ghost predicate Agreeing(s: Spec, t: Spec, region: set<Path>) {
    forall q :: q in region ==> SameFile(s, t, q) && Single(s, q) && Single(t, q)
  }

  lemma SameHolding(s: Spec, t: Spec, q: Path)
    requires SameFile(s, t, q)
    ensures Holders(s, q) == {} <==> Holders(t, q) == {}
    ensures SpecLookUp(s, q, true) == SpecLookUp(t, q, true) && SpecLookUp(s, q, false) == SpecLookUp(t, q, false)
  {
  }

  lemma OpeningAlike(s: Spec, t: Spec, c: Call, c': Call)
    requires SpecLegal(s, c) && SpecLegal(t, c') && SameRequest(s, c, t, c') && (c.Create? || c.Open?)
    requires Guarded(s, c) && SameFile(s, t, c.path)
    ensures SameReply(SpecStep(s, c).1, SpecStep(t, c').1)
    ensures SameFile(SpecStep(s, c).0, SpecStep(t, c').0, c.path)
  {
    var p := c.path;
    SameHolding(s, t, p);
    if c.local.Local? {
      if c.Create? {
        OpenedAt(s, c.local.fd, p, [], false);
        OpenedAt(t, c'.local.fd, p, [], false);
      } else if p in s.published && c.served {
        OpenedAt(s, c.local.fd, p, s.published[p], true);
        OpenedAt(t, c'.local.fd, p, t.published[p], true);
      }
    }
  }

  lemma HandleAlike(s: Spec, t: Spec, c: Call, c': Call)
    requires SpecLegal(s, c) && SpecLegal(t, c') && SameRequest(s, c, t, c')
    requires c.Read? || c.Write? || c.FTruncate? || c.FGetAttr?
    requires Agreeing(s, t, {s.open[c.fd].path})
    ensures SpecStep(s, c).1 == SpecStep(t, c').1
    ensures SameFile(SpecStep(s, c).0, SpecStep(t, c').0, s.open[c.fd].path)
  {
    var p := s.open[c.fd].path;
    assert SameFile(s, t, p);
    HeldBy(s, p, c.fd);
    HeldBy(t, p, c'.fd);
    if c.Write? && 0 <= c.offset && 0 <= c.accepted {
      EditedAt(s, c.fd, Overwrite(s.open[c.fd].data, c.offset, c.data[..c.accepted]));
      EditedAt(t, c'.fd, Overwrite(t.open[c'.fd].data, c.offset, c.data[..c.accepted]));
    } else if c.FTruncate? && 0 <= c.length {
      EditedAt(s, c.fd, Resize(s.open[c.fd].data, c.length));
      EditedAt(t, c'.fd, Resize(t.open[c'.fd].data, c.length));
    }
  }

  lemma ReleaseAlike(s: Spec, t: Spec, c: Call, c': Call)
    requires SpecLegal(s, c) && SpecLegal(t, c') && SameRequest(s, c, t, c') && c.Release?
    requires Agreeing(s, t, {c.path})
    ensures SpecStep(s, c).1 == SpecStep(t, c').1
    ensures SameFile(SpecStep(s, c).0, SpecStep(t, c').0, c.path)
  {
    var p := c.path;
    assert SameFile(s, t, p);
    HeldBy(s, p, c.fd);
    HeldBy(t, p, c'.fd);
    ClosedAt(s, c.fd, SpecStep(s, c).0.published);
    ClosedAt(t, c'.fd, SpecStep(t, c').0.published);
  }

  lemma TruncateAlike(s: Spec, t: Spec, p: Path, length: int)
    requires Agreeing(s, t, {p})
    ensures SpecStep(s, Truncate(p, length)).1 == SpecStep(t, Truncate(p, length)).1
    ensures SameFile(SpecStep(s, Truncate(p, length)).0, SpecStep(t, Truncate(p, length)).0, p)
  {
    assert SameFile(s, t, p);
    SameHolding(s, t, p);
    if Holders(s, p) != {} && 0 <= length {
      EditedAt(s, Holder(s, p), Resize(s.open[Holder(s, p)].data, length));
      EditedAt(t, Holder(t, p), Resize(t.open[Holder(t, p)].data, length));
    }
  }

  lemma RenameAlike(s: Spec, t: Spec, from: Path, to: Path, done: bool)
    requires Agreeing(s, t, {from, to}) && (from == to || Holders(s, to) == {})
    ensures SpecStep(s, Rename(from, to, done)).1 == SpecStep(t, Rename(from, to, done)).1
    ensures SameFile(SpecStep(s, Rename(from, to, done)).0, SpecStep(t, Rename(from, to, done)).0, from)
    ensures SameFile(SpecStep(s, Rename(from, to, done)).0, SpecStep(t, Rename(from, to, done)).0, to)
  {
    assert SameFile(s, t, from) && SameFile(s, t, to);
    SameHolding(s, t, from);
    SameHolding(s, t, to);
    if from == to {
      assert Move(s.open, from, to) == s.open && Move(t.open, from, to) == t.open;
    } else {
      MovedAt(s, from, to);
      MovedAt(t, from, to);
    }
  }

  lemma UnlinkAlike(s: Spec, t: Spec, p: Path, done: bool)
    requires SameFile(s, t, p)
    ensures SpecStep(s, Unlink(p, done)).1 == SpecStep(t, Unlink(p, done)).1
    ensures SameFile(SpecStep(s, Unlink(p, done)).0, SpecStep(t, Unlink(p, done)).0, p)
  {
    var s', t' := SpecStep(s, Unlink(p, done)).0, SpecStep(t, Unlink(p, done)).0;
    assert Holders(s', p) == Holders(s, p) && Holders(t', p) == Holders(t, p);
  }

  /** The same request in states that agree on its paths is as safe in both, gets the same
      reply and leaves the same files there. */
  lemma StepAlike(s: Spec, t: Spec, c: Call, c': Call)
    requires SpecLegal(s, c) && SpecLegal(t, c') && SameRequest(s, c, t, c') && Guarded(s, c)
    requires Agreeing(s, t, Footprint(s, c))
    ensures Footprint(t, c') == Footprint(s, c) && Guarded(t, c')
    ensures SameReply(SpecStep(s, c).1, SpecStep(t, c').1)
    ensures forall q :: q in Footprint(s, c) ==> SameFile(SpecStep(s, c).0, SpecStep(t, c').0, q)
  {
    GuardAlike(s, t, c, c');
    if c.Create? || c.Open? {
      OpeningAlike(s, t, c, c');
    } else if c.Read? || c.Write? || c.FTruncate? || c.FGetAttr? {
      HandleAlike(s, t, c, c');
    } else if c.Release? {
      ReleaseAlike(s, t, c, c');
    } else if c.Truncate? {
      TruncateAlike(s, t, c.path, c.length);
    } else if c.Rename? {
      RenameAlike(s, t, c.from, c.to, c.done);
    } else if c.Unlink? {
      UnlinkAlike(s, t, c.path, c.done);
    } else if c.GetAttr? {
      SameHolding(s, t, c.path);
    }
  }

  lemma GuardAlike(s: Spec, t: Spec, c: Call, c': Call)
    requires SpecLegal(s, c) && SpecLegal(t, c') && SameRequest(s, c, t, c') && Guarded(s, c)
    requires forall q :: q in Footprint(s, c) ==> SameFile(s, t, q)
    ensures Footprint(t, c') == Footprint(s, c) && Guarded(t, c')
  {
    forall q | q in Footprint(s, c)
      ensures Holders(s, q) == {} <==> Holders(t, q) == {}
    {
      SameHolding(s, t, q);
    }
  }

  // ----- Whole runs

  lemma InvSingle(w: World, q: Path)
    requires Inv(w)
    ensures Single(Abs(w), q)
  {
    var owner, home :| InvWith(w, owner, home);
    NamesAreHeld(w, owner, home, q);
  }

  /** The files are the same, whatever the descriptors and inodes. */
  ghost predicate SameFiles(v: World, w: World) {
    WellFormed(v) && WellFormed(w) && forall q :: SameFile(Abs(v), Abs(w), q)
  }

  lemma AgreeingEverywhere(v: World, w: World, region: set<Path>)
    requires Inv(v) && Inv(w) && SameFiles(v, w)
    ensures Agreeing(Abs(v), Abs(w), region)
  {
    forall q | q in region
      ensures SameFile(Abs(v), Abs(w), q) && Single(Abs(v), q) && Single(Abs(w), q)
    {
      InvSingle(v, q);
      InvSingle(w, q);
    }
  }

  lemma StepSameFiles(v: World, c: Call, w: World, c': Call)
    requires Inv(v) && Inv(w) && SameFiles(v, w) && SameRequest(Abs(v), c, Abs(w), c')
    requires Legal(v, c) && Legal(w, c') && Clean(c) && Clean(c') && Guarded(Abs(v), c)
    ensures Guarded(Abs(w), c') && SameReply(Step(v, c).1, Step(w, c').1)
    ensures Inv(Step(v, c).0) && Inv(Step(w, c').0) && SameFiles(Step(v, c).0, Step(w, c').0)
    ensures Abs(Step(v, c).0) == SpecStep(Abs(v), c).0 && Abs(Step(w, c').0) == SpecStep(Abs(w), c').0
  {
    var s, t := Abs(v), Abs(w);
    AbsLegal(v, c);
    AbsLegal(w, c');
    AgreeingEverywhere(v, w, Footprint(s, c));
    StepAlike(s, t, c, c');
    StepRefines(v, c);
    StepRefines(w, c');
    forall q
      ensures SameFile(SpecStep(s, c).0, SpecStep(t, c').0, q)
    {
      if q !in Footprint(s, c) {
        FrameAt(s, c, q);
        FrameAt(t, c', q);
        assert SameFile(s, t, q);
      }
    }
  }

  /** Two runs that make the same requests, each with its own descriptors and chunks. */
  ghost predicate SameRequests(v: World, calls: seq<Call>, w: World, calls': seq<Call>)
    requires WellFormed(v) && WellFormed(w) && LegalRun(v, calls) && LegalRun(w, calls') && |calls| == |calls'|
    decreases |calls|
  {
    calls == [] ||
    (&& SameRequest(Abs(v), calls[0], Abs(w), calls'[0])
     && SameRequests(Step(v, calls[0]).0, calls[1..], Step(w, calls'[0]).0, calls'[1..]))
  }

  predicate SameReplies(rs: seq<Reply>, rs': seq<Reply>) {
    |rs| == |rs'| && forall k :: 0 <= k < |rs| ==> SameReply(rs[k], rs'[k])
  }

  /** Two such runs, the first of them guarded, from the same files. */
  ghost predicate Twins(v: World, calls: seq<Call>, w: World, calls': seq<Call>) {
    && Inv(v) && Inv(w) && SameFiles(v, w) && |calls| == |calls'| && CleanRun(calls) && CleanRun(calls')
    && LegalRun(v, calls) && LegalRun(w, calls') && GuardedRun(Abs(v), calls) && SameRequests(v, calls, w, calls')
  }

  lemma TwinStep(v: World, calls: seq<Call>, w: World, calls': seq<Call>, v': World, w': World)
    requires Twins(v, calls, w, calls') && calls != []
    requires v' == Step(v, calls[0]).0 && w' == Step(w, calls'[0]).0
    ensures Twins(v', calls[1..], w', calls'[1..]) && SameReply(Step(v, calls[0]).1, Step(w, calls'[0]).1)
    ensures Guarded(Abs(w), calls'[0]) && Abs(w') == SpecStep(Abs(w), calls'[0]).0
  {
    assert Clean(calls[0]) && Clean(calls'[0]);
    StepSameFiles(v, calls[0], w, calls'[0]);
  }

  lemma {:induction false} TwinsEnd(v: World, calls: seq<Call>, w: World, calls': seq<Call>)
    requires Twins(v, calls, w, calls')
    ensures Inv(Run(v, calls).0) && Inv(Run(w, calls').0) && SameFiles(Run(v, calls).0, Run(w, calls').0)
    decreases |calls|
  {
    if calls != [] {
      var v', w' := Step(v, calls[0]).0, Step(w, calls'[0]).0;
      TwinStep(v, calls, w, calls', v', w');
      TwinsEnd(v', calls[1..], w', calls'[1..]);
    }
  }

  lemma {:induction false} TwinsGuarded(v: World, calls: seq<Call>, w: World, calls': seq<Call>)
    requires Twins(v, calls, w, calls')
    ensures GuardedRun(Abs(w), calls')
    decreases |calls|
  {
    if calls != [] {
      var v', w' := Step(v, calls[0]).0, Step(w, calls'[0]).0;
      TwinStep(v, calls, w, calls', v', w');
      TwinsGuarded(v', calls[1..], w', calls'[1..]);
    }
  }

  lemma {:induction false} TwinsReply(v: World, calls: seq<Call>, w: World, calls': seq<Call>)
    requires Twins(v, calls, w, calls')
    ensures SameReplies(Run(v, calls).1, Run(w, calls').1)
    decreases |calls|
  {
    if calls != [] {
      var v', w' := Step(v, calls[0]).0, Step(w, calls'[0]).0;
      TwinStep(v, calls, w, calls', v', w');
      TwinsReply(v', calls[1..], w', calls'[1..]);
      RepliesCons(Step(v, calls[0]).1, Run(v', calls[1..]).1, Step(w, calls'[0]).1, Run(w', calls'[1..]).1);
    }
  }

  lemma RepliesCons(r: Reply, rs: seq<Reply>, r': Reply, rs': seq<Reply>)
    requires SameReply(r, r') && SameReplies(rs, rs')
    ensures SameReplies([r] + rs, [r'] + rs')
  {
  }

  // ----- The same files are the same state up to renumbering

  /** The open file of the same path in another state. */
  ghost function Counterpart(v: World, w: World): map<Fd, Fd>
    requires WellFormed(w)
  {
    map f | f in v.handles && Holders(Abs(w), v.handles[f]) != {} :: Holder(Abs(w), v.handles[f])
  }

  /** Descriptor `f` and `fds[f]` are handles on the same path, equally readable, and lead
      to corresponding inodes. */
  predicate FdMatched(v: World, w: World, fds: map<Fd, Fd>, back: map<Fd, Fd>, there: map<Ino, Ino>, f: Fd)
    requires f in v.fds
  {
    && f in fds && fds[f] in w.fds && fds[f] in back && back[fds[f]] == f
    && f in v.handles && fds[f] in w.handles && w.handles[fds[f]] == v.handles[f]
    && v.fds[f].ino in there && w.fds[fds[f]] == v.fds[f].(ino := there[v.fds[f].ino])
  }

  /** `there` and `back` are inverse renumberings of inodes, and inode `i` keeps its bytes. */
  predicate InoMatched(v: World, w: World, there: map<Ino, Ino>, back: map<Ino, Ino>, i: Ino)
    requires i in v.inodes
  {
    && i in there && there[i] in w.inodes && w.inodes[there[i]] == v.inodes[i]
    && there[i] in back && back[there[i]] == i
  }

  /** The same state up to the numbers of descriptors and of inodes. */
  ghost predicate SameUpTo(v: World, w: World, fds: map<Fd, Fd>, fdsBack: map<Fd, Fd>,
                           there: map<Ino, Ino>, back: map<Ino, Ino>) {
    && v.remote == w.remote && v.over == w.over && v.names.Keys == w.names.Keys
    && (forall f :: f in v.fds ==> FdMatched(v, w, fds, fdsBack, there, f))
    && (forall f :: f in w.fds ==> FdMatched(w, v, fdsBack, fds, back, f))
    && (forall i :: i in v.inodes ==> InoMatched(v, w, there, back, i))
    && (forall i :: i in w.inodes ==> InoMatched(w, v, back, there, i))
    && (forall p :: p in v.names ==> v.names[p] in there && w.names[p] == there[v.names[p]])
  }

  ghost predicate Renumbered(v: World, w: World)
    requires WellFormed(v) && WellFormed(w)
  {
    exists there, back :: SameUpTo(v, w, Counterpart(v, w), Counterpart(w, v), there, back)
  }

  /** The inode behind the same path in another state. */
  function InodeThere(v: World, w: World, home: map<Ino, Fd>): map<Ino, Ino> {
    map i | i in v.inodes && i in home && home[i] in v.handles && v.handles[home[i]] in w.names ::
      w.names[v.handles[home[i]]]
  }

  predicate AlikeAt(v: World, w: World, owner: map<Path, Fd>, owner': map<Path, Fd>, p: Path)
    requires WellFormed(v) && WellFormed(w)
  {
    && (p in v.names <==> p in w.names)
    && (p in v.names ==>
          && p in owner && owner[p] in v.fds && p in owner' && owner'[p] in w.fds
          && v.inodes[v.names[p]] == w.inodes[w.names[p]]
          && v.fds[owner[p]].readable == w.fds[owner'[p]].readable)
  }

  ghost predicate Alike(v: World, w: World, owner: map<Path, Fd>, home: map<Ino, Fd>,
                        owner': map<Path, Fd>, home': map<Ino, Fd>) {
    && InvWith(v, owner, home) && InvWith(w, owner', home') && v.remote == w.remote
    && forall p :: AlikeAt(v, w, owner, owner', p)
  }

  /** What is open on a path is what its name and its owner lead to. */
  lemma OpenByName(w: World, owner: map<Path, Fd>, home: map<Ino, Fd>, p: Path)
    requires InvWith(w, owner, home)
    ensures p in w.names ==> p in owner && owner[p] in w.fds
    ensures OpenAt(Abs(w), p)
         == if p in w.names then Copy(w.inodes[w.names[p]], w.fds[owner[p]].readable) else Absent
  {
    NamesAreHeld(w, owner, home, p);
    if p in w.names {
      assert NameOk(w, owner, p) && HandleOk(w, owner, home, owner[p]);
    }
  }

  lemma SameServer(v: World, w: World)
    requires SameFiles(v, w)
    ensures v.remote == w.remote
  {
    forall q
      ensures q in v.remote <==> q in w.remote
      ensures q in v.remote ==> v.remote[q] == w.remote[q]
    {
      assert SameFile(Abs(v), Abs(w), q);
    }
  }

  lemma SameFilesRenumbered(v: World, w: World)
    requires Inv(v) && Inv(w) && SameFiles(v, w)
    ensures Renumbered(v, w)
  {
    var owner, home :| InvWith(v, owner, home);
    var owner', home' :| InvWith(w, owner', home');
    SameServer(v, w);
    forall p
      ensures AlikeAt(v, w, owner, owner', p)
    {
      assert SameFile(Abs(v), Abs(w), p);
      OpenByName(v, owner, home, p);
      OpenByName(w, owner', home', p);
    }
    AlikeRenumbered(v, w, owner, home, owner', home');
  }

  lemma AlikeSym(v: World, w: World, owner: map<Path, Fd>, home: map<Ino, Fd>,
                 owner': map<Path, Fd>, home': map<Ino, Fd>)
    requires Alike(v, w, owner, home, owner', home')
    ensures Alike(w, v, owner', home', owner, home)
  {
    forall p
      ensures AlikeAt(w, v, owner', owner, p)
    {
      assert AlikeAt(v, w, owner, owner', p);
    }
  }

  lemma AlikeRenumbered(v: World, w: World, owner: map<Path, Fd>, home: map<Ino, Fd>,
                        owner': map<Path, Fd>, home': map<Ino, Fd>)
    requires Alike(v, w, owner, home, owner', home')
    ensures Renumbered(v, w)
  {
    var there, back := InodeThere(v, w, home), InodeThere(w, v, home');
    AlikeSym(v, w, owner, home, owner', home');
    FdsMatched(v, w, owner, home, owner', home');
    FdsMatched(w, v, owner', home', owner, home);
    InosMatched(v, w, owner, home, owner', home');
    InosMatched(w, v, owner', home', owner, home);
    NamesMatched(v, w, owner, home, owner', home');
    assert SameUpTo(v, w, Counterpart(v, w), Counterpart(w, v), there, back);
  }

  lemma CounterpartIs(v: World, w: World, owner: map<Path, Fd>, home: map<Ino, Fd>, f: Fd)
    requires InvWith(w, owner, home) && f in v.handles && v.handles[f] in w.names
    ensures v.handles[f] in owner && f in Counterpart(v, w) && Counterpart(v, w)[f] == owner[v.handles[f]]
  {
    NamesAreHeld(w, owner, home, v.handles[f]);
    assert NameOk(w, owner, v.handles[f]);
  }

  lemma FdsMatched(v: World, w: World, owner: map<Path, Fd>, home: map<Ino, Fd>,
                   owner': map<Path, Fd>, home': map<Ino, Fd>)
    requires Alike(v, w, owner, home, owner', home')
    ensures forall f :: f in v.fds ==>
              FdMatched(v, w, Counterpart(v, w), Counterpart(w, v), InodeThere(v, w, home), f)
  {
    forall f | f in v.fds
      ensures FdMatched(v, w, Counterpart(v, w), Counterpart(w, v), InodeThere(v, w, home), f)
    {
      var p := v.handles[f];
      assert HandleOk(v, owner, home, f) && AlikeAt(v, w, owner, owner', p);
      var g := owner'[p];
      assert NameOk(w, owner', p) && HandleOk(w, owner', home', g);
      CounterpartIs(v, w, owner', home', f);
      CounterpartIs(w, v, owner, home, g);
    }
  }

  lemma InosMatched(v: World, w: World, owner: map<Path, Fd>, home: map<Ino, Fd>,
                    owner': map<Path, Fd>, home': map<Ino, Fd>)
    requires Alike(v, w, owner, home, owner', home')
    ensures forall i :: i in v.inodes ==> InoMatched(v, w, InodeThere(v, w, home), InodeThere(w, v, home'), i)
  {
    forall i | i in v.inodes
      ensures InoMatched(v, w, InodeThere(v, w, home), InodeThere(w, v, home'), i)
    {
      assert InodeOk(v, home, i) && HandleOk(v, owner, home, home[i]);
      var p := v.handles[home[i]];
      assert AlikeAt(v, w, owner, owner', p);
      assert NameOk(w, owner', p) && HandleOk(w, owner', home', owner'[p]);
    }
  }

  lemma NamesMatched(v: World, w: World, owner: map<Path, Fd>, home: map<Ino, Fd>,
                     owner': map<Path, Fd>, home': map<Ino, Fd>)
    requires Alike(v, w, owner, home, owner', home')
    ensures v.names.Keys == w.names.Keys
    ensures forall p :: p in v.names ==>
              v.names[p] in InodeThere(v, w, home) && w.names[p] == InodeThere(v, w, home)[v.names[p]]
  {
    forall p
      ensures p in v.names <==> p in w.names
    {
      assert AlikeAt(v, w, owner, owner', p);
    }
    forall p | p in v.names
      ensures v.names[p] in InodeThere(v, w, home) && w.names[p] == InodeThere(v, w, home)[v.names[p]]
    {
      assert NameOk(v, owner, p) && HandleOk(v, owner, home, owner[p]);
    }
  }

  /** Whatever numbers and chunks they are given: two guarded runs on the same server that
      make the same requests get the same replies, but for descriptors, and end in the same
      state up to renumbering. If one keeps the guard, so does the other. */
  lemma ChoicesInvisible(remote: map<Path, Bytes>, calls: seq<Call>, calls': seq<Call>)
    requires LegalRun(Start(remote), calls) && LegalRun(Start(remote), calls')
    requires CleanRun(calls) && CleanRun(calls') && |calls| == |calls'|
    requires GuardedRun(Spec(remote, map[]), calls) && SameRequests(Start(remote), calls, Start(remote), calls')
    ensures GuardedRun(Spec(remote, map[]), calls')
    ensures SameReplies(Run(Start(remote), calls).1, Run(Start(remote), calls').1)
    ensures Renumbered(Run(Start(remote), calls).0, Run(Start(remote), calls').0)
  {
    StartInv(remote);
    TwinsGuarded(Start(remote), calls, Start(remote), calls');
    TwinsReply(Start(remote), calls, Start(remote), calls');
    TwinsEnd(Start(remote), calls, Start(remote), calls');
    SameFilesRenumbered(Run(Start(remote), calls).0, Run(Start(remote), calls').0);
  }

  // ----- The two orders

  /** The same call on the same descriptor, but for what open(2) and the chunks come to. */
  predicate SameCall(c: Call, c': Call) {
    match c
    case Create(p, local) => c'.Create? && c'.path == p && (c'.local.Local? <==> local.Local?)
    case Open(p, served, local, _) =>
      c'.Open? && c'.path == p && c'.served == served && (c'.local.Local? <==> local.Local?)
    case Release(p, fd, served, _, done) =>
      c'.Release? && c'.path == p && c'.fd == fd && c'.served == served && c'.done == done
    case _ => c' == c
  }

  predicate OnHandle(c: Call) {
    c.Read? || c.Write? || c.FTruncate? || c.FGetAttr? || c.Release?
  }

  /** A call is the same request before and after changes on other paths. */
  lemma RequestElsewhere(s: Spec, t: Spec, region: set<Path>, c: Call, c': Call)
    requires SameOff(s, t, region) && SpecLegal(s, c) && Footprint(s, c) !! region && SameCall(c, c')
    ensures SameRequest(s, c, t, c')
  {
    if OnHandle(c) {
      assert s.open[c.fd].path in Footprint(s, c);
      assert SameOpen(s, t, region, false, c.fd);
    }
  }

  lemma OffSym(s: Spec, t: Spec, region: set<Path>)
    requires SameOff(s, t, region)
    ensures SameOff(t, s, region)
  {
    forall f
      ensures SameOpen(t, s, region, false, f)
    {
      assert SameOpen(s, t, region, false, f);
    }
    forall q | q !in region
      ensures SamePublished(t, s, q)
    {
      assert SamePublished(s, t, q);
    }
  }

  lemma StillAgreeing(s: Spec, t: Spec, region: set<Path>, own: set<Path>)
    requires SameOff(s, t, region) && own !! region
    requires forall q :: Single(s, q) && Single(t, q)
    ensures Agreeing(s, t, own)
  {
    forall q | q in own
      ensures SameFile(s, t, q)
    {
      OutsideAt(s, t, region, q);
    }
  }

  /** `d` is made after `c`, which leads from `s` to `s1`, and `d'` is the same call made
      before `c`. */
  lemma MadeFirst(s: Spec, c: Call, s1: Spec, d: Call, d': Call)
    requires SpecLegal(s, c) && s1 == SpecStep(s, c).0 && SpecLegal(s1, d) && Guarded(s1, d)
    requires Footprint(s, c) !! Footprint(s1, d) && SameCall(d, d') && SpecLegal(s, d')
    requires forall q :: Single(s, q) && Single(s1, q)
    ensures Footprint(s, d') == Footprint(s1, d) && Guarded(s, d')
    ensures SameReply(SpecStep(s1, d).1, SpecStep(s, d').1)
    ensures forall q :: q in Footprint(s1, d) ==> SameFile(SpecStep(s1, d).0, SpecStep(s, d').0, q)
  {
    Frame(s, c);
    OffSym(s, s1, Footprint(s, c));
    RequestElsewhere(s1, s, Footprint(s, c), d, d');
    StillAgreeing(s1, s, Footprint(s, c), Footprint(s1, d));
    StepAlike(s1, s, d, d');
  }

  /** `c` is made in `s`, and `c'` is the same call made after `d'`, which leads to `t1`. */
  lemma MadeSecond(s: Spec, c: Call, d': Call, t1: Spec, c': Call)
    requires SpecLegal(s, c) && Guarded(s, c) && SpecLegal(s, d') && t1 == SpecStep(s, d').0
    requires Footprint(s, c) !! Footprint(s, d') && SameCall(c, c') && SpecLegal(t1, c')
    requires forall q :: Single(s, q) && Single(t1, q)
    ensures Footprint(t1, c') == Footprint(s, c) && Guarded(t1, c')
    ensures SameReply(SpecStep(s, c).1, SpecStep(t1, c').1)
    ensures forall q :: q in Footprint(s, c) ==> SameFile(SpecStep(s, c).0, SpecStep(t1, c').0, q)
  {
    Frame(s, d');
    RequestElsewhere(s, t1, Footprint(s, d'), c, c');
    StillAgreeing(s, t1, Footprint(s, d'), Footprint(s, c));
    StepAlike(s, t1, c, c');
  }

  /** Either order leaves the same files: at its own paths each call leaves what it leaves
      in the other order, and the other call does not touch them. */
  lemma SpecReorder(s: Spec, c: Call, s1: Spec, d: Call, d': Call, t1: Spec, c': Call, q: Path)
    requires SpecLegal(s, c) && Guarded(s, c) && s1 == SpecStep(s, c).0 && SpecLegal(s1, d) && Guarded(s1, d)
    requires Footprint(s, c) !! Footprint(s1, d) && SameCall(c, c') && SameCall(d, d')
    requires SpecLegal(s, d') && t1 == SpecStep(s, d').0 && SpecLegal(t1, c')
    requires forall p :: Single(s, p) && Single(s1, p)
    requires forall p :: Single(s, p) && Single(t1, p)
    ensures SameFile(SpecStep(s1, d).0, SpecStep(t1, c').0, q)
  {
    MadeFirst(s, c, s1, d, d');
    MadeSecond(s, c, d', t1, c');
    if q in Footprint(s, c) {
      FrameAt(s1, d, q);
    } else if q in Footprint(s1, d) {
      FrameAt(t1, c', q);
    } else {
      FrameAt(s, c, q);
      FrameAt(s1, d, q);
      FrameAt(s, d', q);
      FrameAt(t1, c', q);
    }
  }

  // ----- In the cache

  /** The kernel's answer to an open, in either order, is an unused descriptor and inode. */
  predicate FreshAnswer(w: World, c: Call) {
    c.Create? || c.Open? ==> FreshLocal(w, c.local)
  }

  lemma LegalAgain(v: World, c: Call, w: World, c': Call)
    requires Inv(v) && Inv(w) && Legal(v, c) && Guarded(Abs(v), c)
    requires SameRequest(Abs(v), c, Abs(w), c') && FreshAnswer(w, c')
    ensures Legal(w, c')
  {
    OnlyHandles(v);
    OnlyHandles(w);
  }

  lemma InvsSingle(v: World, w: World)
    requires Inv(v) && Inv(w)
    ensures forall q :: Single(Abs(v), q) && Single(Abs(w), q)
  {
    forall q
      ensures Single(Abs(v), q) && Single(Abs(w), q)
    {
      InvSingle(v, q);
      InvSingle(w, q);
    }
  }

  /** `c` leads from `w` to `w1`, seen from the specification. */
  ghost predicate Leads(w: World, c: Call, w1: World) {
    && Inv(w) && Inv(w1) && SpecLegal(Abs(w), c) && Guarded(Abs(w), c)
    && Abs(w1) == SpecStep(Abs(w), c).0
  }

  lemma StepLeads(w: World, c: Call)
    requires Inv(w) && Legal(w, c) && Clean(c) && Guarded(Abs(w), c)
    ensures Leads(w, c, Step(w, c).0) && Step(w, c).1 == SpecStep(Abs(w), c).1
  {
    AbsLegal(w, c);
    StepRefines(w, c);
  }

  /** The other order is possible whenever the kernel has unused numbers to give. */
  lemma OtherOrder(w: World, c: Call, w1: World, d: Call, d': Call, c': Call)
    requires Inv(w) && Legal(w, c) && Clean(c) && Guarded(Abs(w), c) && w1 == Step(w, c).0
    requires Legal(w1, d) && Guarded(Abs(w1), d) && Clean(d') && Footprint(Abs(w), c) !! Footprint(Abs(w1), d)
    requires SameCall(c, c') && SameCall(d, d') && FreshAnswer(w, d')
    ensures Legal(w, d') && Guarded(Abs(w), d')
    ensures FreshAnswer(Step(w, d').0, c') ==> Legal(Step(w, d').0, c')
  {
    StepLeads(w, c);
    FirstLegal(w, c, w1, d, d');
    var w2 := Step(w, d').0;
    StepLeads(w, d');
    if FreshAnswer(w2, c') {
      Frame(Abs(w), d');
      RequestElsewhere(Abs(w), Abs(w2), Footprint(Abs(w), d'), c, c');
      LegalAgain(w, c, w2, c');
    }
  }

  lemma FirstLegal(w: World, c: Call, w1: World, d: Call, d': Call)
    requires Leads(w, c, w1)
    requires Legal(w1, d) && Guarded(Abs(w1), d) && Footprint(Abs(w), c) !! Footprint(Abs(w1), d)
    requires SameCall(d, d') && FreshAnswer(w, d')
    ensures Legal(w, d') && Guarded(Abs(w), d') && Footprint(Abs(w), d') == Footprint(Abs(w1), d)
  {
    var s, s1 := Abs(w), Abs(w1);
    AbsLegal(w1, d);
    Frame(s, c);
    OffSym(s, s1, Footprint(s, c));
    RequestElsewhere(s1, s, Footprint(s, c), d, d');
    LegalAgain(w1, d, w, d');
    AbsLegal(w, d');
    InvsSingle(w, w1);
    MadeFirst(s, c, s1, d, d');
  }

  /** The two orders: over `w1` to `v`, and over `w2` to `v'`. */
  ghost predicate Square(w: World, c: Call, w1: World, d: Call, v: World, d': Call, w2: World, c': Call, v': World) {
    && Leads(w, c, w1) && Leads(w1, d, v) && Leads(w, d', w2) && Leads(w2, c', v')
    && Footprint(Abs(w), c) !! Footprint(Abs(w1), d) && SameCall(c, c') && SameCall(d, d')
  }

  lemma SecondGuarded(w: World, c: Call, d': Call, w2: World, c': Call)
    requires Leads(w, d', w2) && SpecLegal(Abs(w), c) && Guarded(Abs(w), c) && SpecLegal(Abs(w2), c')
    requires Footprint(Abs(w), c) !! Footprint(Abs(w), d') && SameCall(c, c')
    ensures Guarded(Abs(w2), c')
  {
    InvsSingle(w, w2);
    MadeSecond(Abs(w), c, d', Abs(w2), c');
  }

  lemma SquareReplies(w: World, c: Call, w1: World, d: Call, v: World, d': Call, w2: World, c': Call, v': World)
    requires Square(w, c, w1, d, v, d', w2, c', v')
    ensures SameReply(SpecStep(Abs(w), c).1, SpecStep(Abs(w2), c').1)
    ensures SameReply(SpecStep(Abs(w1), d).1, SpecStep(Abs(w), d').1)
  {
    InvsSingle(w, w1);
    InvsSingle(w, w2);
    MadeFirst(Abs(w), c, Abs(w1), d, d');
    MadeSecond(Abs(w), c, d', Abs(w2), c');
  }

  lemma SquareFiles(w: World, c: Call, w1: World, d: Call, v: World, d': Call, w2: World, c': Call, v': World)
    requires Square(w, c, w1, d, v, d', w2, c', v')
    ensures SameFiles(v, v')
  {
    InvsSingle(w, w1);
    InvsSingle(w, w2);
    forall q
      ensures SameFile(Abs(v), Abs(v'), q)
    {
      SpecReorder(Abs(w), c, Abs(w1), d, d', Abs(w2), c', q);
    }
  }

  predicate Closes(c: Call, f: Fd) {
    c.Release? && c.fd == f
  }

  function MovedPath(c: Call, p: Path): Path {
    if c.Rename? && c.done && p == c.from then c.to else p
  }

  lemma HandleKept(s: Spec, c: Call, f: Fd)
    requires SpecLegal(s, c) && f in s.open && !Closes(c, f)
    ensures f in SpecStep(s, c).0.open && SpecStep(s, c).0.open[f].path == MovedPath(c, s.open[f].path)
  {
    if c.Rename? && s.open[f].path == c.from {
      assert f in Holders(s, c.from);
    }
  }

  lemma HandleKeptTwice(s: Spec, c: Call, s1: Spec, d: Call, d': Call, t1: Spec, c': Call, f: Fd)
    requires SpecLegal(s, c) && s1 == SpecStep(s, c).0 && SpecLegal(s1, d)
    requires SpecLegal(s, d') && t1 == SpecStep(s, d').0 && SpecLegal(t1, c')
    requires Footprint(s, c) !! Footprint(s1, d) && SameCall(c, c') && SameCall(d, d')
    requires f in s.open && !Closes(c, f) && !Closes(d, f)
    ensures f in SpecStep(s1, d).0.open && f in SpecStep(t1, c').0.open
    ensures SpecStep(s1, d).0.open[f].path == SpecStep(t1, c').0.open[f].path
  {
    HandleKept(s, c, f);
    HandleKept(s1, d, f);
    HandleKept(s, d', f);
    HandleKept(t1, c', f);
    assert c.Rename? ==> c.from in Footprint(s, c) && c.to in Footprint(s, c);
    assert d.Rename? ==> d.from in Footprint(s1, d) && d.to in Footprint(s1, d);
  }

  /** `f` is open in both states and its own counterpart. */
  ghost predicate KeepsNumber(v: World, w: World, f: Fd)
    requires WellFormed(w)
  {
    f in v.handles && f in w.handles && f in Counterpart(v, w) && Counterpart(v, w)[f] == f
  }

  lemma OwnCounterpart(v: World, w: World, f: Fd)
    requires WellFormed(v) && Inv(w) && f in v.handles && f in w.handles && v.handles[f] == w.handles[f]
    ensures KeepsNumber(v, w, f)
  {
    InvSingle(w, w.handles[f]);
    HeldBy(Abs(w), w.handles[f], f);
  }

  lemma NumberKept(w: World, c: Call, w1: World, d: Call, v: World, d': Call, w2: World, c': Call, v': World, f: Fd)
    requires Square(w, c, w1, d, v, d', w2, c', v')
    requires f in w.handles && !Closes(c, f) && !Closes(d, f)
    ensures KeepsNumber(v, v', f)
  {
    HandleKeptTwice(Abs(w), c, Abs(w1), d, d', Abs(w2), c', f);
    assert f in Abs(v).open && f in Abs(v').open;
    OwnCounterpart(v, v', f);
  }

  lemma BothOrders(w: World, c: Call, w1: World, d: Call, v: World, d': Call, w2: World, c': Call, v': World)
    requires Inv(w) && Legal(w, c) && Clean(c) && Guarded(Abs(w), c) && w1 == Step(w, c).0
    requires Legal(w1, d) && Clean(d) && Guarded(Abs(w1), d) && v == Step(w1, d).0
    requires Footprint(Abs(w), c) !! Footprint(Abs(w1), d)
    requires SameCall(c, c') && SameCall(d, d') && Clean(c') && Clean(d')
    requires Legal(w, d') && w2 == Step(w, d').0 && Legal(w2, c') && v' == Step(w2, c').0
    ensures Square(w, c, w1, d, v, d', w2, c', v')
    ensures Step(w, c).1 == SpecStep(Abs(w), c).1 && Step(w1, d).1 == SpecStep(Abs(w1), d).1
    ensures Step(w, d').1 == SpecStep(Abs(w), d').1 && Step(w2, c').1 == SpecStep(Abs(w2), c').1
  {
    StepLeads(w, c);
    StepLeads(w1, d);
    FirstLegal(w, c, w1, d, d');
    StepLeads(w, d');
    AbsLegal(w2, c');
    SecondGuarded(w, c, d', w2, c');
    StepLeads(w2, c');
  }

  /** Any two guarded calls on distinct paths, made in either order (from `w` over `w1` to `v`,
      and from `w` over `w2` to `v'`), the kernel handing out
      whatever unused descriptors and inodes it likes in each, one that the call before has
      just closed included, and the transfers coming in whatever chunks: the replies are the
      same, but for descriptors, and the final state is the same up to renumbering. The
      handles that neither call closes keep their descriptors. */
  lemma Reorder(w: World, c: Call, w1: World, d: Call, v: World, d': Call, w2: World, c': Call, v': World)
    requires Inv(w) && Legal(w, c) && Clean(c) && Guarded(Abs(w), c) && w1 == Step(w, c).0
    requires Legal(w1, d) && Clean(d) && Guarded(Abs(w1), d) && v == Step(w1, d).0
    requires Footprint(Abs(w), c) !! Footprint(Abs(w1), d)
    requires SameCall(c, c') && SameCall(d, d') && Clean(c') && Clean(d')
    requires Legal(w, d') && w2 == Step(w, d').0 && Legal(w2, c') && v' == Step(w2, c').0
    ensures Guarded(Abs(w), d') && Guarded(Abs(w2), c')
    ensures SameReply(Step(w, c).1, Step(w2, c').1) && SameReply(Step(w1, d).1, Step(w, d').1)
    ensures Renumbered(v, v')
    ensures forall f :: f in w.handles && !Closes(c, f) && !Closes(d, f) ==> KeepsNumber(v, v', f)
  {
    BothOrders(w, c, w1, d, v, d', w2, c', v');
    SquareReplies(w, c, w1, d, v, d', w2, c', v');
    SquareFiles(w, c, w1, d, v, d', w2, c', v');
    SameFilesRenumbered(v, v');
    forall f | f in w.handles && !Closes(c, f) && !Closes(d, f)
      ensures KeepsNumber(v, v', f)
    {
      NumberKept(w, c, w1, d, v, d', w2, c', v', f);
    }
  }
}
