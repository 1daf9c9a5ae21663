/** Callbacks on distinct paths and handles do not see each other: either order gives the
    same replies and the same state. Here the kernel gives each call the same descriptor in
    both orders; module `KernelChoices` does without that.

    Rather than by comparing the callbacks pairwise, this is proved from two facts about
    each one alone: it changes nothing outside the paths it is about (`Frame`), and what
    it does there depends on nothing else (`Locality`). */
module Independence {
  import opened Maps
  import opened Posix
  import opened CacheModel
  import opened CloseToOpen
  import opened Transfer

  /** The paths a call is about; for a call on an open file, the path of that file. */
  function Footprint(s: Spec, c: Call): set<Path> {
    match c
    case GetAttr(p, _) => {p}
    case Create(p, _) => {p}
    case Open(p, _, _, _) => {p}
    case Read(fd, _, _) => PathOf(s, fd)
    case Write(fd, _, _, _) => PathOf(s, fd)
    case FTruncate(fd, _) => PathOf(s, fd)
    case FGetAttr(fd) => PathOf(s, fd)
    case Release(p, _, _, _, _) => {p}
    case Unlink(p, _) => {p}
    case Truncate(p, _) => {p}
    case Rename(from, to, _) => {from, to}
    case Foreign(p, _) => {p}
    case _ => {}
  }

  function PathOf(s: Spec, fd: Fd): set<Path> {
    if fd in s.open then {s.open[fd].path} else {}
  }

  /** The paths the call names, or the path of the open file it names, and no others. */
  lemma FootprintIs(s: Spec, c: Call, q: Path)
    requires SpecLegal(s, c) && !c.Link? && !c.Mknod? && !c.Forwarded?
    ensures q in Footprint(s, c) <==>
            if c.Read? || c.Write? || c.FTruncate? || c.FGetAttr? then s.open[c.fd].path == q
            else if c.Rename? then c.from == q || c.to == q
            else c.path == q
  {
  }

  function NewFds(c: Call): set<Fd> {
    match c
    case Create(_, Local(fd, _)) => {fd}
    case Open(_, _, Local(fd, _), _) => {fd}
    case _ => {}
  }

  function NewInos(c: Call): set<Ino> {
    match c
    case Create(_, Local(_, ino)) => {ino}
    case Open(_, _, Local(_, ino), _) => {ino}
    case Mknod(_, ino) => {ino}
    case _ => {}
  }

  /** `Legal`, as far as the specification can see it. */
  predicate SpecLegal(s: Spec, c: Call) {
    && NewFds(c) !! s.open.Keys
    && match c
       case Read(fd, _, _) => fd in s.open
       case Write(fd, _, data, accepted) => fd in s.open && accepted <= |data|
       case FTruncate(fd, _) => fd in s.open
       case FGetAttr(fd) => fd in s.open
       case Release(p, fd, _, _, _) => fd in s.open && s.open[fd].path == p
       case _ => true
  }

  predicate SamePublished(s: Spec, t: Spec, q: Path) {
    (q in s.published <==> q in t.published) && (q in s.published ==> s.published[q] == t.published[q])
  }

  /** Both have `f` open on a path of `region` (or both outside it) with the same
      snapshot, or neither has. */
  predicate SameOpen(s: Spec, t: Spec, region: set<Path>, inside: bool, f: Fd) {
    && ((f in s.open && (s.open[f].path in region <==> inside)) <==>
        (f in t.open && (t.open[f].path in region <==> inside)))
    && (f in s.open && (s.open[f].path in region <==> inside) ==> s.open[f] == t.open[f])
  }

  ghost predicate SameOn(s: Spec, t: Spec, region: set<Path>) {
    && (forall q :: q in region ==> SamePublished(s, t, q))
    && (forall f :: SameOpen(s, t, region, true, f))
  }

  ghost predicate SameOff(s: Spec, t: Spec, region: set<Path>) {
    && (forall q :: q !in region ==> SamePublished(s, t, q))
    && (forall f :: SameOpen(s, t, region, false, f))
  }

  /** A call changes nothing outside its footprint. */
  lemma Frame(s: Spec, c: Call)
    requires SpecLegal(s, c)
    ensures SameOff(s, SpecStep(s, c).0, Footprint(s, c))
  {
  }

  lemma SameHolders(s: Spec, t: Spec, region: set<Path>, p: Path)
    requires SameOn(s, t, region) && p in region
    ensures Holders(s, p) == Holders(t, p)
  {
    forall f
      ensures f in Holders(s, p) <==> f in Holders(t, p)
    {
      assert SameOpen(s, t, region, true, f);
    }
  }

  /** What a call does, replies and demands depends on its footprint alone. */
  lemma Locality(s: Spec, t: Spec, c: Call)
    requires SpecLegal(s, c) && SpecLegal(t, c) && SameOn(s, t, Footprint(s, c))
    ensures SpecStep(s, c).1 == SpecStep(t, c).1
    ensures SameOn(SpecStep(s, c).0, SpecStep(t, c).0, Footprint(s, c))
    ensures Guarded(s, c) <==> Guarded(t, c)
  {
    var region := Footprint(s, c);
    forall p | p in region
      ensures Holders(s, p) == Holders(t, p) && SamePublished(s, t, p)
      ensures Holders(s, p) != {} ==> SameOpen(s, t, region, true, Holder(s, p))
    {
      SameHolders(s, t, region, p);
    }
    if c.Read? || c.Write? || c.FTruncate? || c.FGetAttr? || c.Release? {
      assert SameOpen(s, t, region, true, c.fd);
    }
    LocalityOfOpen(s, t, c);
  }

  lemma LocalityOfOpen(s: Spec, t: Spec, c: Call)
    requires SpecLegal(s, c) && SpecLegal(t, c) && SameOn(s, t, Footprint(s, c))
    requires forall p :: p in Footprint(s, c) ==> Holders(s, p) == Holders(t, p)
    ensures forall f :: SameOpen(SpecStep(s, c).0, SpecStep(t, c).0, Footprint(s, c), true, f)
  {
    var region := Footprint(s, c);
    assert forall p :: p in region ==> SamePublished(s, t, p);
    forall f
      ensures SameOpen(SpecStep(s, c).0, SpecStep(t, c).0, region, true, f)
    {
      assert SameOpen(s, t, region, true, f);
      if c.Truncate? && Holders(s, c.path) != {} {
        assert SameOpen(s, t, region, true, Holder(s, c.path));
      }
    }
  }

  /** So do its legality, but for the descriptor it may open, and its footprint itself. */
  lemma StillLegal(s: Spec, t: Spec, c: Call)
    requires SpecLegal(s, c) && SameOn(s, t, Footprint(s, c)) && NewFds(c) !! t.open.Keys
    ensures SpecLegal(t, c) && Footprint(t, c) == Footprint(s, c)
  {
    var region := Footprint(s, c);
    if c.Read? || c.Write? || c.FTruncate? || c.FGetAttr? || c.Release? {
      assert SameOpen(s, t, region, true, c.fd);
    }
  }

  // ----- Agreement inside and outside a region

  lemma OffToOn(s: Spec, t: Spec, a: set<Path>, b: set<Path>)
    requires SameOff(s, t, a) && a !! b
    ensures SameOn(s, t, b)
  {
    forall f
      ensures SameOpen(s, t, b, true, f)
    {
      assert SameOpen(s, t, a, false, f);
    }
  }

  lemma OnChain(r: Spec, s: Spec, t: Spec, a: set<Path>)
    requires SameOn(r, s, a) && SameOn(s, t, a)
    ensures SameOn(r, t, a)
  {
    forall f
      ensures SameOpen(r, t, a, true, f)
    {
      assert SameOpen(r, s, a, true, f) && SameOpen(s, t, a, true, f);
    }
    forall q | q in a
      ensures SamePublished(r, t, q)
    {
      assert SamePublished(r, s, q) && SamePublished(s, t, q);
    }
  }

  /** Two states that both come from `s`, one by way of changes in `a` and then `b`, the
      other by way of `b` and then `a`, agree outside both. */
  lemma OffChain(s: Spec, r: Spec, t: Spec, a: set<Path>, b: set<Path>)
    requires SameOff(s, r, a) && SameOff(r, t, b)
    ensures SameOff(s, t, a + b)
  {
    forall f
      ensures SameOpen(s, t, a + b, false, f)
    {
      assert SameOpen(s, r, a, false, f) && SameOpen(r, t, b, false, f);
    }
    forall q | q !in a + b
      ensures SamePublished(s, t, q)
    {
      assert SamePublished(s, r, q) && SamePublished(r, t, q);
    }
  }

  lemma SameEverywhere(base: Spec, s: Spec, t: Spec, a: set<Path>, b: set<Path>)
    requires SameOn(s, t, a) && SameOn(s, t, b) && SameOff(base, s, a + b) && SameOff(base, t, a + b)
    ensures s == t
  {
    forall q
      ensures q in s.published <==> q in t.published
      ensures q in s.published ==> s.published[q] == t.published[q]
    {
      if q in a || q in b {
        assert SamePublished(s, t, q);
      } else {
        assert SamePublished(base, s, q) && SamePublished(base, t, q);
      }
    }
    assert s.published == t.published;
    forall f
      ensures f in s.open <==> f in t.open
      ensures f in s.open ==> s.open[f] == t.open[f]
    {
      assert SameOpen(s, t, a, true, f) && SameOpen(s, t, b, true, f);
      assert SameOpen(base, s, a + b, false, f) && SameOpen(base, t, a + b, false, f);
    }
    assert s.open == t.open;
  }

  lemma OnSym(s: Spec, t: Spec, a: set<Path>)
    requires SameOn(s, t, a)
    ensures SameOn(t, s, a)
  {
    forall f
      ensures SameOpen(t, s, a, true, f)
    {
      assert SameOpen(s, t, a, true, f);
    }
    assert forall q :: q in a ==> SamePublished(s, t, q);
  }

  // ----- The two orders

  /** After a call on other paths, a call is as legal as before, replies the same, asks the
      same of its client and leaves its own paths in the same state. */
  lemma AfterAnother(s: Spec, c: Call, other: Call)
    requires SpecLegal(s, c) && SpecLegal(s, other)
    requires Footprint(s, c) !! Footprint(s, other) && NewFds(c) !! NewFds(other)
    ensures var s1 := SpecStep(s, other).0;
            && SpecLegal(s1, c) && Footprint(s1, c) == Footprint(s, c)
            && (Guarded(s, c) <==> Guarded(s1, c))
            && SpecStep(s1, c).1 == SpecStep(s, c).1
            && SameOn(SpecStep(s, c).0, SpecStep(s1, c).0, Footprint(s, c))
  {
    var s1 := SpecStep(s, other).0;
    Frame(s, other);
    OffToOn(s, s1, Footprint(s, other), Footprint(s, c));
    NewKeys(s, other);
    StillLegal(s, s1, c);
    Locality(s, s1, c);
  }

  lemma NewKeys(s: Spec, c: Call)
    ensures SpecStep(s, c).0.open.Keys <= s.open.Keys + NewFds(c)
  {
  }

  /** Calls on distinct paths commute in the specification. */
  lemma SpecCommute(s: Spec, c: Call, d: Call)
    requires SpecLegal(s, c) && SpecLegal(s, d)
    requires Footprint(s, c) !! Footprint(s, d) && NewFds(c) !! NewFds(d)
    ensures SpecStep(SpecStep(s, c).0, d).0 == SpecStep(SpecStep(s, d).0, c).0
    ensures SpecStep(SpecStep(s, c).0, d).1 == SpecStep(s, d).1
    ensures SpecStep(SpecStep(s, d).0, c).1 == SpecStep(s, c).1
  {
    var a, b := Footprint(s, c), Footprint(s, d);
    var sc, sd := SpecStep(s, c).0, SpecStep(s, d).0;
    var cd, dc := SpecStep(sc, d).0, SpecStep(sd, c).0;
    AfterAnother(s, d, c);
    AfterAnother(s, c, d);
    Frame(s, c);
    Frame(s, d);
    Frame(sc, d);
    Frame(sd, c);
    // on a: cd agrees with sc, which agrees with dc
    OffToOn(sc, cd, b, a);
    OnSym(sc, cd, a);
    OnChain(cd, sc, dc, a);
    // on b: cd agrees with sd, which agrees with dc
    OnSym(sd, cd, b);
    OffToOn(sd, dc, a, b);
    OnChain(cd, sd, dc, b);
    OffChain(s, sc, cd, a, b);
    OffChain(s, sd, dc, b, a);
    assert b + a == a + b;
    SameEverywhere(s, cd, dc, a, b);
  }

  // ----- In the cache

  lemma AbsLegal(w: World, c: Call)
    requires Inv(w) && Legal(w, c)
    ensures SpecLegal(Abs(w), c)
  {
    OnlyHandles(w);
  }

  lemma StillLegalInCache(w: World, w': World, c: Call)
    requires Inv(w) && Inv(w') && Legal(w, c) && SpecLegal(Abs(w'), c)
    requires NewInos(c) !! w'.inodes.Keys
    ensures Legal(w', c)
  {
    OnlyHandles(w');
  }

  lemma NewInodes(w: World, c: Call)
    requires WellFormed(w) && Legal(w, c)
    ensures Step(w, c).0.inodes.Keys <= w.inodes.Keys + NewInos(c)
  {
  }

  /** The descriptors after a guarded call that was answered by `r`. */
  function FdsAfter(fds: map<Fd, OpenFile>, c: Call, r: Reply): map<Fd, OpenFile> {
    match c
    case Create(_, Local(fd, ino)) => if r.Opened? then fds[fd := OpenFile(ino, false)] else fds
    case Open(_, _, Local(fd, ino), _) => if r.Opened? then fds[fd := OpenFile(ino, true)] else fds
    case Release(_, fd, _, _, _) => fds - {fd}
    case _ => fds
  }

  lemma StepFds(w: World, c: Call)
    requires Inv(w) && Legal(w, c) && Guarded(Abs(w), c) && Clean(c)
    ensures Step(w, c).0.fds == FdsAfter(w.fds, c, Step(w, c).1)
  {
    if c.Create? {
      NotHeld(w, c.path);
      CreateFds(w, c.path, c.local);
    } else if c.Open? {
      NotHeld(w, c.path);
      OpenFds(w, c.path, c.served, c.local, c.incoming);
    } else if c.Release? {
      ReleaseFds(w, c.path, c.fd, c.outgoing);
    } else {
      OtherFds(w, c);
    }
  }

  lemma ReleaseFds(w: World, p: Path, fd: Fd, outgoing: seq<WriteEvent>)
    requires WellFormed(w) && fd in w.handles
    ensures StepRelease(w, p, fd, true, outgoing, true).0.fds == w.fds - {fd}
  {
  }

  lemma CreateFds(w: World, p: Path, local: LocalOpen)
    requires WellFormed(w) && FreshLocal(w, local) && p !in w.names
    ensures StepCreate(w, p, local).0.fds == FdsAfter(w.fds, Create(p, local), StepCreate(w, p, local).1)
  {
  }

  lemma OpenFds(w: World, p: Path, served: bool, local: LocalOpen, incoming: seq<ReadEvent>)
    requires WellFormed(w) && FreshLocal(w, local) && p !in w.names && local.Local? && CleanReads(incoming)
    ensures var (w', r) := StepOpen(w, p, served, local, incoming);
            w'.fds == FdsAfter(w.fds, Open(p, served, local, incoming), r)
  {
    if p in w.remote && served {
      OpenEffect(w, p, local, incoming);
    }
  }

  lemma OtherFds(w: World, c: Call)
    requires WellFormed(w) && Legal(w, c) && !c.Create? && !c.Open? && !c.Release? && !c.Link? && !c.Mknod?
    ensures Step(w, c).0.fds == w.fds
  {
  }

  lemma FdsCommute(fds: map<Fd, OpenFile>, c: Call, d: Call, r: Reply, q: Reply)
    requires NewFds(c) !! NewFds(d) && NewFds(c) !! fds.Keys && NewFds(d) !! fds.Keys
    requires (c.Release? ==> c.fd in fds) && (d.Release? ==> d.fd in fds) && (c.Release? && d.Release? ==> c.fd != d.fd)
    ensures FdsAfter(FdsAfter(fds, c, r), d, q) == FdsAfter(FdsAfter(fds, d, q), c, r)
  {
  }

  /** In states reachable under the guard the descriptors tell the inodes apart, so that a
      state is known from what it means and from where its descriptors lead. */
  lemma SameMeaning(v: World, w: World)
    requires Inv(v) && Inv(w) && Abs(v) == Abs(w) && v.fds == w.fds
    ensures v == w
  {
    OnlyHandles(v);
    OnlyHandles(w);
    SameHandles(v, w);
    NamesFromFds(v, w);
    NamesFromFds(w, v);
    Agree(v.names, w.names);
    InodesFromFds(v, w);
    InodesFromFds(w, v);
    Agree(v.inodes, w.inodes);
  }

  lemma NamesFromFds(v: World, w: World)
    requires Inv(v) && Inv(w) && v.handles == w.handles && v.fds == w.fds
    ensures forall p :: p in v.names ==> p in w.names && w.names[p] == v.names[p]
  {
    var owner, home :| InvWith(v, owner, home);
    var owner', home' :| InvWith(w, owner', home');
    forall p | p in v.names
      ensures p in w.names && w.names[p] == v.names[p]
    {
      assert NameOk(v, owner, p) && HandleOk(v, owner, home, owner[p]) && HandleOk(w, owner', home', owner[p]);
    }
  }

  lemma InodesFromFds(v: World, w: World)
    requires Inv(v) && Inv(w) && v.fds == w.fds && v.handles == w.handles
    requires forall f :: f in v.handles ==> v.inodes[v.fds[f].ino] == w.inodes[w.fds[f].ino]
    ensures forall i :: i in v.inodes ==> i in w.inodes && w.inodes[i] == v.inodes[i]
  {
    OnlyHandles(v);
    forall i | i in v.inodes
      ensures i in w.inodes && w.inodes[i] == v.inodes[i]
    {
      AllOpen(v, i);
    }
  }

  lemma SameHandles(v: World, w: World)
    requires WellFormed(v) && WellFormed(w) && Abs(v) == Abs(w)
    requires v.fds.Keys == v.handles.Keys && w.fds.Keys == w.handles.Keys
    ensures v.remote == w.remote && v.handles == w.handles && v.fds.Keys == w.fds.Keys
    ensures forall f :: f in v.handles ==> && v.fds[f].readable == w.fds[f].readable
                                           && v.inodes[v.fds[f].ino] == w.inodes[w.fds[f].ino]
  {
    assert v.handles.Keys == Abs(v).open.Keys == w.handles.Keys;
    forall f | f in v.handles
      ensures v.handles[f] == w.handles[f] && v.fds[f].readable == w.fds[f].readable
      ensures v.inodes[v.fds[f].ino] == w.inodes[w.fds[f].ino]
    {
      assert Abs(v).open[f] == Abs(w).open[f];
    }
    assert v.handles == w.handles;
  }

  lemma FreshInos(w: World, c: Call)
    requires Legal(w, c)
    ensures NewInos(c) !! w.inodes.Keys
  {
  }

  lemma CommuteHalf(w: World, c: Call, d: Call)
    requires Inv(w) && Legal(w, c) && Legal(w, d) && Clean(c) && Clean(d)
    requires Guarded(Abs(w), c) && Guarded(Abs(w), d)
    requires Footprint(Abs(w), c) !! Footprint(Abs(w), d)
    requires NewFds(c) !! NewFds(d) && NewInos(c) !! NewInos(d)
    ensures Legal(Step(w, c).0, d)
    ensures var (w', r) := Step(Step(w, c).0, d);
            && Inv(w') && (Abs(w'), r) == SpecStep(SpecStep(Abs(w), c).0, d)
            && r == SpecStep(Abs(w), d).1 && Step(w, d).1 == SpecStep(Abs(w), d).1
            && w'.fds == FdsAfter(FdsAfter(w.fds, c, Step(w, c).1), d, Step(w, d).1)
  {
    AbsLegal(w, c);
    AbsLegal(w, d);
    AfterAnother(Abs(w), d, c);
    StepRefines(w, c);
    StepRefines(w, d);
    NewInodes(w, c);
    FreshInos(w, d);
    StillLegalInCache(w, Step(w, c).0, d);
    StepRefines(Step(w, c).0, d);
    StepFds(w, c);
    StepFds(Step(w, c).0, d);
  }

  /** Any two guarded calls on distinct paths, on the cache itself: as long as the kernel gives
      each of them the same descriptor and inode in either order, both orders are possible,
      the replies are the same, and so is the final state. */
  lemma Commute(w: World, c: Call, d: Call)
    requires Inv(w) && Legal(w, c) && Legal(w, d) && Clean(c) && Clean(d)
    requires Guarded(Abs(w), c) && Guarded(Abs(w), d)
    requires Footprint(Abs(w), c) !! Footprint(Abs(w), d)
    requires NewFds(c) !! NewFds(d) && NewInos(c) !! NewInos(d)
    ensures Legal(Step(w, c).0, d) && Legal(Step(w, d).0, c)
    ensures Step(Step(w, c).0, d).1 == Step(w, d).1 && Step(Step(w, d).0, c).1 == Step(w, c).1
    ensures Step(Step(w, c).0, d).0 == Step(Step(w, d).0, c).0
  {
    AbsLegal(w, c);
    AbsLegal(w, d);
    SpecCommute(Abs(w), c, d);
    CommuteHalf(w, c, d);
    CommuteHalf(w, d, c);
    OnlyHandles(w);
    FdsCommute(w.fds, c, d, Step(w, c).1, Step(w, d).1);
    SameMeaning(Step(Step(w, c).0, d).0, Step(Step(w, d).0, c).0);
  }

  // ----- Whole runs

  predicate Ascending(ks: seq<nat>) {
    forall i, j :: 0 <= i < j < |ks| ==> ks[i] < ks[j]
  }

  /** The elements at some positions. */
  function Picked<T>(xs: seq<T>, ks: seq<nat>): (picked: seq<T>)
    requires forall i :: 0 <= i < |ks| ==> ks[i] < |xs|
    ensures |picked| == |ks| && forall i :: 0 <= i < |ks| ==> picked[i] == xs[ks[i]]
  {
    seq(|ks|, i requires 0 <= i < |ks| => xs[ks[i]])
  }

  /** Positions in a list, as positions in the list with one element more before it. */
  function Shift(ks: seq<nat>): (shifted: seq<nat>)
    ensures |shifted| == |ks| && forall i :: 0 <= i < |ks| ==> shifted[i] == ks[i] + 1
  {
    seq(|ks|, i requires 0 <= i < |ks| => ks[i] + 1)
  }

  lemma InShift(ks: seq<nat>, k: nat)
    ensures k in Shift(ks) <==> 0 < k && k - 1 in ks
    ensures k in [0] + Shift(ks) <==> k == 0 || k - 1 in ks
  {
    if i :| 0 <= i < |ks| && ks[i] == k - 1 {
      assert Shift(ks)[i] == k;
    }
    assert k in [0] + Shift(ks) <==> k == 0 || k in Shift(ks);
  }

  lemma AscendingShift(ks: seq<nat>)
    requires Ascending(ks)
    ensures Ascending(Shift(ks)) && Ascending([0] + Shift(ks))
  {
  }

  lemma PickedShift<T>(xs: seq<T>, ks: seq<nat>)
    requires xs != [] && forall i :: 0 <= i < |ks| ==> ks[i] < |xs[1..]|
    ensures Picked(xs, Shift(ks)) == Picked(xs[1..], ks)
    ensures Picked(xs, [0] + Shift(ks)) == [xs[0]] + Picked(xs[1..], ks)
  {
    var first := [0] + Shift(ks);
    assert forall i :: 0 < i < |first| ==> first[i] == ks[i - 1] + 1;
  }

  /** The positions of the calls about `region`. */
  ghost function SpecPositions(s: Spec, calls: seq<Call>, region: set<Path>): (ks: seq<nat>)
    ensures Ascending(ks) && forall i :: 0 <= i < |ks| ==> ks[i] < |calls|
    decreases |calls|
  {
    if calls == [] then
      []
    else
      var ks := SpecPositions(SpecStep(s, calls[0]).0, calls[1..], region);
      AscendingShift(ks);
      PickedShift(calls, ks);
      if Footprint(s, calls[0]) <= region then [0] + Shift(ks) else Shift(ks)
  }

  /** They are those whose footprint, in the state they meet, lies within the region. */
  lemma {:induction false} SpecPositionsAre(s: Spec, calls: seq<Call>, region: set<Path>, k: nat)
    requires k < |calls|
    ensures k in SpecPositions(s, calls, region) <==> Footprint(SpecAt(s, calls, k), calls[k]) <= region
    decreases |calls|
  {
    var s' := SpecStep(s, calls[0]).0;
    InShift(SpecPositions(s', calls[1..], region), k);
    if k > 0 {
      SpecPositionsAre(s', calls[1..], region, k - 1);
    }
  }

  lemma {:induction false} SpecRunLength(s: Spec, calls: seq<Call>)
    ensures |SpecRun(s, calls).1| == |calls|
    decreases |calls|
  {
    if calls != [] {
      SpecRunLength(SpecStep(s, calls[0]).0, calls[1..]);
    }
  }

  lemma {:induction false} ObservedIs(s: Spec, calls: seq<Call>, region: set<Path>)
    ensures |SpecRun(s, calls).1| == |calls|
    ensures var ks := SpecPositions(s, calls, region);
            Observed(s, calls, region) == (Picked(calls, ks), Picked(SpecRun(s, calls).1, ks))
    decreases |calls|
  {
    SpecRunLength(s, calls);
    if calls != [] {
      var s' := SpecStep(s, calls[0]).0;
      var ks := SpecPositions(s', calls[1..], region);
      ObservedIs(s', calls[1..], region);
      PickedShift(calls, ks);
      PickedShift(SpecRun(s, calls).1, ks);
      assert SpecRun(s, calls).1[1..] == SpecRun(s', calls[1..]).1;
    }
  }

  /** The calls of a run that are about `region`, with the replies they get in it. */
  ghost function Observed(s: Spec, calls: seq<Call>, region: set<Path>): (seq<Call>, seq<Reply>)
    decreases |calls|
  {
    if calls == [] then
      ([], [])
    else
      var (s', reply) := SpecStep(s, calls[0]);
      var (kept, replies) := Observed(s', calls[1..], region);
      if Footprint(s, calls[0]) <= region then ([calls[0]] + kept, [reply] + replies) else (kept, replies)
  }

  /** No call reaches across the border of `region`. */
  ghost predicate Separated(s: Spec, calls: seq<Call>, region: set<Path>)
    decreases |calls|
  {
    calls == [] ||
    (&& SpecLegal(s, calls[0])
     && (Footprint(s, calls[0]) <= region || Footprint(s, calls[0]) !! region)
     && Separated(SpecStep(s, calls[0]).0, calls[1..], region))
  }

  ghost predicate OnlyIn(s: Spec, region: set<Path>) {
    forall f :: f in s.open ==> s.open[f].path in region
  }

  lemma OnMono(s: Spec, t: Spec, big: set<Path>, small: set<Path>)
    requires SameOn(s, t, big) && small <= big
    ensures SameOn(s, t, small)
  {
    forall f
      ensures SameOpen(s, t, small, true, f)
    {
      assert SameOpen(s, t, big, true, f);
    }
  }

  /** A step inside `region` keeps two states in agreement on all of it. */
  lemma StepTogether(s: Spec, t: Spec, c: Call, region: set<Path>)
    requires SameOn(s, t, region) && OnlyIn(t, region) && SpecLegal(s, c) && Footprint(s, c) <= region
    ensures SpecStep(s, c).1 == SpecStep(t, c).1
    ensures SameOn(SpecStep(s, c).0, SpecStep(t, c).0, region) && OnlyIn(SpecStep(t, c).0, region)
  {
    var small := Footprint(s, c);
    OnMono(s, t, region, small);
    forall f | f in t.open
      ensures f in s.open
    {
      assert SameOpen(s, t, region, true, f);
    }
    StillLegal(s, t, c);
    Locality(s, t, c);
    var s', t' := SpecStep(s, c).0, SpecStep(t, c).0;
    Frame(s, c);
    Frame(t, c);
    forall f
      ensures SameOpen(s', t', region, true, f)
    {
      assert SameOpen(s', t', small, true, f) && SameOpen(s, t, region, true, f);
      assert SameOpen(s, s', small, false, f) && SameOpen(t, t', small, false, f);
    }
    forall q | q in region
      ensures SamePublished(s', t', q)
    {
      assert q !in small ==> SamePublished(s, s', q) && SamePublished(s, t, q) && SamePublished(t, t', q);
    }
    forall f | f in t'.open
      ensures t'.open[f].path in region
    {
      assert SameOpen(t, t', small, false, f);
    }
  }

  lemma {:induction false} ObservedAlone(s: Spec, t: Spec, calls: seq<Call>, region: set<Path>)
    requires SameOn(s, t, region) && OnlyIn(t, region) && Separated(s, calls, region)
    ensures var (kept, replies) := Observed(s, calls, region);
            && SpecRun(t, kept).1 == replies
            && SameOn(SpecRun(s, calls).0, SpecRun(t, kept).0, region)
    decreases |calls|
  {
    if calls != [] {
      var c := calls[0];
      var s' := SpecStep(s, c).0;
      if Footprint(s, c) <= region {
        StepTogether(s, t, c, region);
        ObservedAlone(s', SpecStep(t, c).0, calls[1..], region);
        var kept := Observed(s', calls[1..], region).0;
        assert ([c] + kept)[1..] == kept;
      } else {
        Frame(s, c);
        OffToOn(s, s', Footprint(s, c), region);
        OnSym(s, s', region);
        OnChain(s', s, t, region);
        ObservedAlone(s', t, calls[1..], region);
      }
    }
  }

  lemma {:induction false} SeparatedIf(s: Spec, calls: seq<Call>, region: set<Path>)
    requires forall k: nat :: k < |calls| ==>
               var c, now := calls[k], SpecAt(s, calls, k);
               SpecLegal(now, c) && (Footprint(now, c) <= region || Footprint(now, c) !! region)
    ensures Separated(s, calls, region)
    decreases |calls|
  {
    if calls != [] {
      var s' := SpecStep(s, calls[0]).0;
      assert SpecAt(s, calls, 0) == s;
      forall k: nat | k < |calls[1..]|
        ensures SpecAt(s', calls[1..], k) == SpecAt(s, calls, k + 1) && calls[1..][k] == calls[k + 1]
      {
      }
      SeparatedIf(s', calls[1..], region);
    }
  }

  /** Isolation: take any run in which no call reaches across the border of a region. Its
      calls on the region are those at the positions `ks`. Made alone, they get the replies
      that they get in the run, one for one, and leave the files and snapshots that it leaves
      there, whatever the calls elsewhere do and however they are interleaved. */
  lemma Isolation(s: Spec, t: Spec, calls: seq<Call>, region: set<Path>, ks: seq<nat>)
    requires SameOn(s, t, region) && OnlyIn(t, region) && ks == SpecPositions(s, calls, region)
    requires forall k: nat :: k < |calls| ==>
               var c, now := calls[k], SpecAt(s, calls, k);
               SpecLegal(now, c) && (Footprint(now, c) <= region || Footprint(now, c) !! region)
    ensures Ascending(ks)
    ensures forall k: nat :: k in ks <==> k < |calls| && Footprint(SpecAt(s, calls, k), calls[k]) <= region
    ensures |SpecRun(s, calls).1| == |calls|
    ensures SpecRun(t, Picked(calls, ks)).1 == Picked(SpecRun(s, calls).1, ks)
    ensures SameOn(SpecRun(s, calls).0, SpecRun(t, Picked(calls, ks)).0, region)
  {
    SeparatedIf(s, calls, region);
    ObservedAlone(s, t, calls, region);
    ObservedIs(s, calls, region);
    forall k: nat | k < |calls|
      ensures k in ks <==> Footprint(SpecAt(s, calls, k), calls[k]) <= region
    {
      SpecPositionsAre(s, calls, region, k);
    }
  }

  // ----- The same in the cache

  ghost function Positions(w: World, calls: seq<Call>, region: set<Path>): (ks: seq<nat>)
    requires WellFormed(w) && LegalRun(w, calls)
    ensures Ascending(ks) && forall i :: 0 <= i < |ks| ==> ks[i] < |calls|
    decreases |calls|
  {
    if calls == [] then
      []
    else
      var ks := Positions(Step(w, calls[0]).0, calls[1..], region);
      AscendingShift(ks);
      PickedShift(calls, ks);
      if Footprint(Abs(w), calls[0]) <= region then [0] + Shift(ks) else Shift(ks)
  }

  lemma {:induction false} PositionsAre(w: World, calls: seq<Call>, region: set<Path>, k: nat)
    requires WellFormed(w) && LegalRun(w, calls) && k < |calls|
    ensures k in Positions(w, calls, region) <==> Footprint(Abs(StateAt(w, calls, k)), calls[k]) <= region
    decreases |calls|
  {
    var w' := Step(w, calls[0]).0;
    InShift(Positions(w', calls[1..], region), k);
    if k == 0 {
      assert StateAt(w, calls, k) == w;
    } else {
      StateLater(w, calls, k - 1, w');
      PositionsAre(w', calls[1..], region, k - 1);
      assert k in Positions(w, calls, region) <==> k - 1 in Positions(w', calls[1..], region);
    }
  }

  lemma PositionsExact(w: World, calls: seq<Call>, region: set<Path>, ks: seq<nat>)
    requires WellFormed(w) && LegalRun(w, calls) && ks == Positions(w, calls, region)
    ensures forall k: nat :: k in ks <==> k < |calls| && Footprint(Abs(StateAt(w, calls, k)), calls[k]) <= region
  {
    forall k: nat | k < |calls|
      ensures k in ks <==> Footprint(Abs(StateAt(w, calls, k)), calls[k]) <= region
    {
      PositionsAre(w, calls, region, k);
    }
  }

  lemma SameServerOn(v: World, w: World, region: set<Path>)
    requires WellFormed(v) && WellFormed(w) && SameOn(Abs(v), Abs(w), region)
    ensures forall q :: q in region ==>
              (q in v.remote <==> q in w.remote) && (q in w.remote ==> v.remote[q] == w.remote[q])
  {
    forall q | q in region
      ensures SamePublished(Abs(v), Abs(w), q)
    {
    }
  }

  lemma {:induction false} CacheObservedIs(w: World, calls: seq<Call>, region: set<Path>)
    requires WellFormed(w) && LegalRun(w, calls)
    ensures |Run(w, calls).1| == |calls|
    ensures var ks := Positions(w, calls, region);
            CacheObserved(w, calls, region) == (Picked(calls, ks), Picked(Run(w, calls).1, ks))
    decreases |calls|
  {
    RunLength(w, calls);
    if calls != [] {
      var w' := Step(w, calls[0]).0;
      var ks := Positions(w', calls[1..], region);
      CacheObservedIs(w', calls[1..], region);
      PickedShift(calls, ks);
      PickedShift(Run(w, calls).1, ks);
      assert Run(w, calls).1[1..] == Run(w', calls[1..]).1;
    }
  }

  lemma {:induction false} BorderedIf(w: World, calls: seq<Call>, region: set<Path>)
    requires WellFormed(w) && LegalRun(w, calls)
    requires forall k: nat :: k < |calls| ==>
               var footprint := Footprint(Abs(StateAt(w, calls, k)), calls[k]);
               footprint <= region || footprint !! region
    ensures Bordered(w, calls, region)
    decreases |calls|
  {
    if calls != [] {
      var w' := Step(w, calls[0]).0;
      assert StateAt(w, calls, 0) == w;
      forall k: nat | k < |calls[1..]|
        ensures StateAt(w', calls[1..], k) == StateAt(w, calls, k + 1) && calls[1..][k] == calls[k + 1]
      {
        StateLater(w, calls, k, w');
      }
      BorderedIf(w', calls[1..], region);
    }
  }

  /** The calls of a run of the cache that are about `region`, with the replies they get. */
  ghost function CacheObserved(w: World, calls: seq<Call>, region: set<Path>): (seq<Call>, seq<Reply>)
    requires WellFormed(w) && LegalRun(w, calls)
    decreases |calls|
  {
    if calls == [] then
      ([], [])
    else
      var (w', reply) := Step(w, calls[0]);
      var (kept, replies) := CacheObserved(w', calls[1..], region);
      if Footprint(Abs(w), calls[0]) <= region then ([calls[0]] + kept, [reply] + replies) else (kept, replies)
  }

  /** No call of the run reaches across the border of `region`. */
  ghost predicate Bordered(w: World, calls: seq<Call>, region: set<Path>)
    requires WellFormed(w) && LegalRun(w, calls)
    decreases |calls|
  {
    calls == [] ||
    (&& (Footprint(Abs(w), calls[0]) <= region || Footprint(Abs(w), calls[0]) !! region)
     && Bordered(Step(w, calls[0]).0, calls[1..], region))
  }

  /** `v` has of `w` the files of `region` and their descriptors, on the same inodes. */
  ghost predicate PartOf(v: World, w: World, region: set<Path>) {
    && Inv(v) && Inv(w) && SameOn(Abs(w), Abs(v), region) && OnlyIn(Abs(v), region)
    && SubMap(v.fds, w.fds)
  }

  ghost predicate SubMap(a: map<Fd, OpenFile>, b: map<Fd, OpenFile>) {
    forall f :: f in a ==> f in b && b[f] == a[f]
  }

  lemma SubMapTogether(a: map<Fd, OpenFile>, b: map<Fd, OpenFile>, c: Call, r: Reply)
    requires SubMap(a, b)
    ensures SubMap(FdsAfter(a, c, r), FdsAfter(b, c, r))
  {
  }

  lemma SubMapApart(a: map<Fd, OpenFile>, b: map<Fd, OpenFile>, c: Call, r: Reply)
    requires SubMap(a, b) && NewFds(c) !! a.Keys && (c.Release? ==> c.fd !in a)
    ensures SubMap(a, FdsAfter(b, c, r))
  {
  }

  lemma InosOfPart(v: World, w: World, region: set<Path>)
    requires PartOf(v, w, region)
    ensures v.inodes.Keys <= w.inodes.Keys
  {
    forall i | i in v.inodes
      ensures i in w.inodes
    {
      AllOpen(v, i);
    }
  }

  /** A call on `region` is as possible in the part, replies the same, and leads to a part. */
  lemma StepInPart(v: World, w: World, c: Call, region: set<Path>)
    requires PartOf(v, w, region) && Legal(w, c) && Guarded(Abs(w), c) && Clean(c)
    requires Footprint(Abs(w), c) <= region
    ensures Legal(v, c) && Step(v, c).1 == Step(w, c).1
    ensures PartOf(Step(v, c).0, Step(w, c).0, region)
  {
    LegalInPart(v, w, c, region);
    StepTogether(Abs(w), Abs(v), c, region);
    StepRefines(w, c);
    StepRefines(v, c);
    StepFds(w, c);
    StepFds(v, c);
    SubMapTogether(v.fds, w.fds, c, Step(w, c).1);
  }

  lemma LegalInPart(v: World, w: World, c: Call, region: set<Path>)
    requires PartOf(v, w, region) && Legal(w, c) && Guarded(Abs(w), c) && Footprint(Abs(w), c) <= region
    ensures SpecLegal(Abs(w), c) && Legal(v, c) && Guarded(Abs(v), c)
  {
    AbsLegal(w, c);
    OnlyHandles(v);
    OnlyHandles(w);
    OnMono(Abs(w), Abs(v), region, Footprint(Abs(w), c));
    StillLegal(Abs(w), Abs(v), c);
    Locality(Abs(w), Abs(v), c);
    InosOfPart(v, w, region);
    FreshInos(w, c);
    StillLegalInCache(w, v, c);
  }

  /** A call elsewhere leaves the part a part. */
  lemma StepElsewhere(v: World, w: World, c: Call, region: set<Path>)
    requires PartOf(v, w, region) && Legal(w, c) && Guarded(Abs(w), c) && Clean(c)
    requires Footprint(Abs(w), c) !! region
    ensures PartOf(v, Step(w, c).0, region)
  {
    var s, s' := Abs(w), SpecStep(Abs(w), c).0;
    AbsLegal(w, c);
    StepRefines(w, c);
    Frame(s, c);
    OffToOn(s, s', Footprint(s, c), region);
    OnSym(s, s', region);
    OnChain(s', s, Abs(v), region);
    OnlyHandles(v);
    OnlyHandles(w);
    StepFds(w, c);
    assert c.Release? ==> SameOpen(s, Abs(v), region, true, c.fd);
    SubMapApart(v.fds, w.fds, c, Step(w, c).1);
  }

  lemma {:induction false} IsolatedFrom(v: World, w: World, calls: seq<Call>, region: set<Path>)
    requires PartOf(v, w, region)
    requires LegalRun(w, calls) && CleanRun(calls) && GuardedRun(Abs(w), calls) && Bordered(w, calls, region)
    ensures var (kept, replies) := CacheObserved(w, calls, region);
            && LegalRun(v, kept) && Run(v, kept).1 == replies
            && PartOf(Run(v, kept).0, Run(w, calls).0, region)
    decreases |calls|
  {
    if calls != [] {
      var c := calls[0];
      var w' := Step(w, c).0;
      assert Clean(c);
      StepRefines(w, c);
      if Footprint(Abs(w), c) <= region {
        StepInPart(v, w, c, region);
        IsolatedFrom(Step(v, c).0, w', calls[1..], region);
        var kept := CacheObserved(w', calls[1..], region).0;
        assert ([c] + kept)[1..] == kept;
      } else {
        StepElsewhere(v, w, c, region);
        IsolatedFrom(v, w', calls[1..], region);
      }
    }
  }

  lemma IsolatedPicked(v: World, w: World, calls: seq<Call>, region: set<Path>, ks: seq<nat>)
    requires PartOf(v, w, region) && LegalRun(w, calls) && CleanRun(calls) && GuardedRun(Abs(w), calls)
    requires Bordered(w, calls, region) && ks == Positions(w, calls, region)
    ensures LegalRun(v, Picked(calls, ks)) && |Run(w, calls).1| == |calls|
    ensures Run(v, Picked(calls, ks)).1 == Picked(Run(w, calls).1, ks)
    ensures PartOf(Run(v, Picked(calls, ks)).0, Run(w, calls).0, region)
  {
    IsolatedFrom(v, w, calls, region);
    CacheObservedIs(w, calls, region);
  }

  /** Isolation in the cache: take any guarded run in which no call reaches across the border
      of a region. Its calls on the region, those at the positions `ks`, made alone on a
      cache of their own, are possible, get the replies that they get in the run, one for
      one, leave the same files on the server and have the same snapshots open. */
  lemma CacheIsolation(remote: map<Path, Bytes>, calls: seq<Call>, region: set<Path>, ks: seq<nat>)
    requires LegalRun(Start(remote), calls) && CleanRun(calls) && GuardedRun(Spec(remote, map[]), calls)
    requires forall k: nat :: k < |calls| ==>
               var footprint := Footprint(Abs(StateAt(Start(remote), calls, k)), calls[k]);
               footprint <= region || footprint !! region
    requires ks == Positions(Start(remote), calls, region)
    ensures Ascending(ks)
    ensures forall k: nat :: k in ks <==>
              k < |calls| && Footprint(Abs(StateAt(Start(remote), calls, k)), calls[k]) <= region
    ensures LegalRun(Start(remote), Picked(calls, ks)) && |Run(Start(remote), calls).1| == |calls|
    ensures var (whole, replies) := Run(Start(remote), calls);
            var (alone, aloneReplies) := Run(Start(remote), Picked(calls, ks));
            && aloneReplies == Picked(replies, ks)
            && SameOn(Abs(whole), Abs(alone), region)
            && forall q :: q in region ==>
                 && (q in whole.remote <==> q in alone.remote)
                 && (q in alone.remote ==> whole.remote[q] == alone.remote[q])
  {
    StartInv(remote);
    BorderedIf(Start(remote), calls, region);
    IsolatedPicked(Start(remote), Start(remote), calls, region, ks);
    PositionsExact(Start(remote), calls, region, ks);
    SameServerOn(Run(Start(remote), calls).0, Run(Start(remote), Picked(calls, ks)).0, region);
  }
}
