/** Byte by byte, the last writer wins: what a published file holds at one position after
    any overlapping writes and truncations of one open file. */
module LastWriter {
  import opened Posix
  import opened Transfer
  import opened CacheModel
  import opened CloseToOpen

  datatype Edit = Skip | Store(offset: nat, chunk: Bytes) | Cut(length: nat)

  function Apply(data: Bytes, e: Edit): Bytes {
    match e
    case Skip => data
    case Store(offset, chunk) => Overwrite(data, offset, chunk)
    case Cut(length) => Resize(data, length)
  }

  function ApplyAll(data: Bytes, edits: seq<Edit>): Bytes {
    if edits == [] then data
    else Apply(ApplyAll(data, edits[..|edits| - 1]), edits[|edits| - 1])
  }

  predicate Covers(e: Edit, k: nat) {
    e.Store? && e.offset <= k < e.offset + |e.chunk|
  }

  predicate Cuts(e: Edit, k: nat) {
    e.Cut? && e.length <= k
  }

  /** After `e` the file is longer than `k`, whatever it was before. */
  predicate Reaches(e: Edit, k: nat) {
    match e
    case Skip => false
    case Store(offset, chunk) => chunk != [] && k < offset + |chunk|
    case Cut(length) => k < length
  }

  /** Edit `j` writes position `k`, and no later edit writes it or cuts it off. */
  predicate Decides(edits: seq<Edit>, j: nat, k: nat) {
    && j < |edits| && Covers(edits[j], k)
    && forall i :: j < i < |edits| ==> !Covers(edits[i], k) && !Cuts(edits[i], k)
  }

  predicate Untouched(edits: seq<Edit>, k: nat) {
    forall i :: 0 <= i < |edits| ==> !Cuts(edits[i], k)
  }

  /** The file is longer than `k` after edit `j`, and no later edit cuts that off. */
  predicate Extends(edits: seq<Edit>, j: nat, k: nat) {
    && j < |edits| && Reaches(edits[j], k)
    && forall i :: j < i < |edits| ==> !Cuts(edits[i], k)
  }

  lemma ApplyOne(data: Bytes, e: Edit, k: nat)
    ensures k < |Apply(data, e)| <==> Reaches(e, k) || (k < |data| && !Cuts(e, k))
    ensures k < |Apply(data, e)| ==>
              Apply(data, e)[k] == if Covers(e, k) then e.chunk[k - e.offset]
                                   else if k < |data| then data[k] else 0
  {
  }

  /** Extending and deciding survive one more edit unless it interferes. */
  lemma OneMore(edits: seq<Edit>, j: nat, k: nat)
    requires j + 1 < |edits|
    ensures var n := |edits| - 1;
            && (Extends(edits, j, k) <==> Extends(edits[..n], j, k) && !Cuts(edits[n], k))
            && (Decides(edits, j, k) <==> Decides(edits[..n], j, k) && !Cuts(edits[n], k) && !Covers(edits[n], k))
  {
  }

  /** How long the file ends up: position `k` exists iff some edit reached it, or it was
      there from the start, and nothing cut it off afterwards. */
  lemma {:induction false} FinalLength(data: Bytes, edits: seq<Edit>, k: nat)
    ensures k < |ApplyAll(data, edits)| <==>
            (exists j: nat :: Extends(edits, j, k)) || (k < |data| && Untouched(edits, k))
  {
    if edits != [] {
      var n := |edits| - 1;
      var front := edits[..n];
      FinalLength(data, front, k);
      ApplyOne(ApplyAll(data, front), edits[n], k);
      if Reaches(edits[n], k) {
        assert Extends(edits, n, k);
      } else {
        if j: nat :| Extends(edits, j, k) {
          OneMore(edits, j, k);
        }
        if j: nat :| Extends(front, j, k) {
          OneMore(edits, j, k);
        }
        assert Untouched(edits, k) <==> Untouched(front, k) && !Cuts(edits[n], k);
      }
    }
  }

  /** The last edit writes the byte, so it and no other decides. */
  lemma CoveredByte(data: Bytes, edits: seq<Edit>, k: nat)
    requires edits != [] && Covers(edits[|edits| - 1], k)
    ensures Decides(edits, |edits| - 1, k)
    ensures k < |ApplyAll(data, edits)|
    ensures forall j: nat :: Decides(edits, j, k) ==>
              ApplyAll(data, edits)[k] == edits[j].chunk[k - edits[j].offset]
  {
    var n := |edits| - 1;
    ApplyOne(ApplyAll(data, edits[..n]), edits[n], k);
    forall j: nat | Decides(edits, j, k)
      ensures j == n
    {
    }
  }

  /** An edit that neither writes nor cuts off a position leaves the decision as it was. */
  lemma SameDeciders(edits: seq<Edit>, k: nat)
    requires edits != [] && !Covers(edits[|edits| - 1], k) && !Cuts(edits[|edits| - 1], k)
    ensures forall j: nat :: Decides(edits, j, k) <==> Decides(edits[..|edits| - 1], j, k)
    ensures Untouched(edits, k) <==> Untouched(edits[..|edits| - 1], k)
  {
    var front := edits[..|edits| - 1];
    forall j: nat
      ensures Decides(edits, j, k) <==> Decides(front, j, k)
    {
      if j < |front| {
        OneMore(edits, j, k);
      }
    }
    assert forall i :: 0 <= i < |front| ==> front[i] == edits[i];
  }

  /** The byte was there before the last edit, which leaves it alone. */
  lemma KeptByte(data: Bytes, edits: seq<Edit>, k: nat)
    requires edits != [] && !Covers(edits[|edits| - 1], k) && k < |ApplyAll(data, edits[..|edits| - 1])|
    requires k < |ApplyAll(data, edits)|
    ensures !Cuts(edits[|edits| - 1], k)
    ensures ApplyAll(data, edits)[k] == ApplyAll(data, edits[..|edits| - 1])[k]
  {
    ApplyOne(ApplyAll(data, edits[..|edits| - 1]), edits[|edits| - 1], k);
  }

  /** The last edit makes the file longer than `k` without writing there: the byte is zero. */
  lemma ExposedByte(data: Bytes, edits: seq<Edit>, k: nat)
    requires edits != [] && !Covers(edits[|edits| - 1], k) && |ApplyAll(data, edits[..|edits| - 1])| <= k
    requires k < |ApplyAll(data, edits)|
    ensures forall j: nat :: !Decides(edits, j, k)
    ensures ApplyAll(data, edits)[k] == 0 && !(k < |data| && Untouched(edits, k))
  {
    var n := |edits| - 1;
    var front := edits[..n];
    ApplyOne(ApplyAll(data, front), edits[n], k);
    FinalLength(data, front, k);
    SameDeciders(edits, k);
    forall j: nat
      ensures !Decides(edits, j, k)
    {
      assert Decides(front, j, k) ==> Extends(front, j, k);
    }
  }

  /** What the file holds at a position it ends up having: the byte of the last write that
      covers the position, unless it was cut off since; otherwise the original byte, or
      zero if the position was cut off at some time or never existed before. */
  lemma {:induction false} FinalByte(data: Bytes, edits: seq<Edit>, k: nat)
    requires k < |ApplyAll(data, edits)|
    ensures forall j: nat :: Decides(edits, j, k) ==>
              ApplyAll(data, edits)[k] == edits[j].chunk[k - edits[j].offset]
    ensures (forall j: nat :: !Decides(edits, j, k)) ==>
              ApplyAll(data, edits)[k] == if k < |data| && Untouched(edits, k) then data[k] else 0
  {
    if edits != [] {
      var n := |edits| - 1;
      var front := edits[..n];
      if Covers(edits[n], k) {
        CoveredByte(data, edits, k);
      } else if k < |ApplyAll(data, front)| {
        FinalByte(data, front, k);
        KeptByte(data, edits, k);
        SameDeciders(edits, k);
        forall j: nat | Decides(edits, j, k)
          ensures ApplyAll(data, edits)[k] == edits[j].chunk[k - edits[j].offset]
        {
          assert Decides(front, j, k) && front[j] == edits[j];
        }
        if forall j: nat :: !Decides(edits, j, k) {
          forall j: nat
            ensures !Decides(front, j, k)
          {
            assert !Decides(edits, j, k);
          }
        }
      } else {
        ExposedByte(data, edits, k);
      }
    }
  }

  // ----- Through whole runs

  /** What a call does to the snapshot of the open file `fd`. */
  ghost function EditBy(s: Spec, c: Call, fd: Fd): Edit
    requires fd in s.open
  {
    match c
    case Write(f, offset, data, accepted) =>
      if f == fd && 0 <= offset && 0 <= accepted <= |data| then Store(offset, data[..accepted]) else Skip
    case FTruncate(f, length) => if f == fd && 0 <= length then Cut(length) else Skip
    case Truncate(p, length) =>
      if 0 <= length && Holders(s, p) != {} && Holder(s, p) == fd then Cut(length) else Skip
    case _ => Skip
  }

  /** No call of the run opens or releases `fd`. */
  predicate KeepsOpen(calls: seq<Call>, fd: Fd) {
    forall i :: 0 <= i < |calls| ==> LeavesAlone(calls[i], fd)
  }

  predicate LeavesAlone(c: Call, fd: Fd) {
    match c
    case Release(_, f, _, _, _) => f != fd
    case Create(_, Local(f, _)) => f != fd
    case Open(_, _, Local(f, _), _) => f != fd
    case _ => true
  }

  /** One edit for every call of the run. */
  ghost function EditsOf(s: Spec, calls: seq<Call>, fd: Fd): (edits: seq<Edit>)
    requires fd in s.open && KeepsOpen(calls, fd)
    ensures |edits| == |calls|
    decreases |calls|
  {
    if calls == [] then [] else
    assert LeavesAlone(calls[0], fd);
    [EditBy(s, calls[0], fd)] + EditsOf(SpecStep(s, calls[0]).0, calls[1..], fd)
  }

  lemma {:induction false} ApplyAllSplit(data: Bytes, a: seq<Edit>, b: seq<Edit>)
    ensures ApplyAll(data, a + b) == ApplyAll(ApplyAll(data, a), b)
    decreases |b|
  {
    if b == [] {
      assert a + b == a;
    } else {
      var n := |b| - 1;
      assert (a + b)[..|a + b| - 1] == a + b[..n];
      ApplyAllSplit(data, a, b[..n]);
    }
  }

  lemma StepEdits(s: Spec, c: Call, fd: Fd)
    requires fd in s.open && LeavesAlone(c, fd)
    ensures fd in SpecStep(s, c).0.open
    ensures SpecStep(s, c).0.open[fd].data == Apply(s.open[fd].data, EditBy(s, c, fd))
    ensures SpecStep(s, c).0.open[fd].readable == s.open[fd].readable
  {
  }

  /** Whatever else goes on in between, a snapshot is its first contents with the edits
      made through its own handle or its own path, in order. */
  lemma {:induction false} SnapshotIsPrivate(s: Spec, calls: seq<Call>, fd: Fd)
    requires fd in s.open && KeepsOpen(calls, fd)
    ensures var s' := SpecRun(s, calls).0;
            fd in s'.open && s'.open[fd].data == ApplyAll(s.open[fd].data, EditsOf(s, calls, fd))
    decreases |calls|
  {
    if calls != [] {
      var c := calls[0];
      assert LeavesAlone(c, fd);
      StepEdits(s, c, fd);
      SnapshotIsPrivate(SpecStep(s, c).0, calls[1..], fd);
      var first := EditBy(s, c, fd);
      assert ApplyAll(s.open[fd].data, [first]) == Apply(s.open[fd].data, first) by {
        assert [first][..0] == [];
      }
      ApplyAllSplit(s.open[fd].data, [first], EditsOf(SpecStep(s, c).0, calls[1..], fd));
    }
  }

  // ----- Told by the calls

  /** The call stores a byte at position `k` of the file open as `fd`... */
  predicate WritesByte(c: Call, fd: Fd, k: nat) {
    c.Write? && c.fd == fd && 0 <= c.offset <= k < c.offset + c.accepted
  }

  /** ... cuts the file to `k` bytes or less, by the descriptor or by the path it has then... */
  predicate CutsByte(w: World, c: Call, fd: Fd, k: nat) {
    || (c.FTruncate? && c.fd == fd && 0 <= c.length <= k)
    || (c.Truncate? && fd in w.handles && w.handles[fd] == c.path && 0 <= c.length <= k)
  }

  /** ... or makes it longer than `k`, if it is not yet. */
  predicate ReachesByte(w: World, c: Call, fd: Fd, k: nat) {
    || (c.Write? && c.fd == fd && 0 <= c.offset && 0 < c.accepted && k < c.offset + c.accepted)
    || (c.FTruncate? && c.fd == fd && k < c.length)
    || (c.Truncate? && fd in w.handles && w.handles[fd] == c.path && k < c.length)
  }

  /** No call from number `from` on cuts position `k` off... */
  ghost predicate NotCut(w: World, calls: seq<Call>, from: nat, fd: Fd, k: nat)
    requires WellFormed(w) && LegalRun(w, calls)
  {
    forall i :: from <= i < |calls| ==> !CutsByte(StateAt(w, calls, i), calls[i], fd, k)
  }

  /** ... or writes it. */
  predicate NotWritten(calls: seq<Call>, from: nat, fd: Fd, k: nat) {
    forall i :: from <= i < |calls| ==> !WritesByte(calls[i], fd, k)
  }

  /** Call `j` is the last one to write position `k`, which is not cut off after it. */
  ghost predicate LastWrite(w: World, calls: seq<Call>, j: nat, fd: Fd, k: nat)
    requires WellFormed(w) && LegalRun(w, calls)
  {
    j < |calls| && WritesByte(calls[j], fd, k) && NotWritten(calls, j + 1, fd, k) && NotCut(w, calls, j + 1, fd, k)
  }

  /** Call `j` makes the file longer than `k`, and no later call cuts that off. */
  ghost predicate LastReach(w: World, calls: seq<Call>, j: nat, fd: Fd, k: nat)
    requires WellFormed(w) && LegalRun(w, calls)
  {
    j < |calls| && ReachesByte(StateAt(w, calls, j), calls[j], fd, k) && NotCut(w, calls, j + 1, fd, k)
  }

  predicate StoredBy(e: Edit, c: Call) {
    c.Write? && 0 <= c.offset && 0 <= c.accepted <= |c.data| && e == Store(c.offset, c.data[..c.accepted])
  }

  /** The edit of a call, told by the call. */
  lemma EditMeans(w: World, c: Call, fd: Fd, k: nat)
    requires Inv(w) && Legal(w, c) && fd in w.handles
    ensures fd in Abs(w).open
    ensures Covers(EditBy(Abs(w), c, fd), k) <==> WritesByte(c, fd, k)
    ensures WritesByte(c, fd, k) ==> StoredBy(EditBy(Abs(w), c, fd), c)
    ensures Cuts(EditBy(Abs(w), c, fd), k) <==> CutsByte(w, c, fd, k)
    ensures Reaches(EditBy(Abs(w), c, fd), k) <==> ReachesByte(w, c, fd, k)
  {
    HandleReads(w, fd);
    if c.Write? {
      WriteMeans(Abs(w), c, fd, k);
    } else if c.Truncate? {
      HolderIs(w, c.path, fd);
      assert EditBy(Abs(w), c, fd) == if w.handles[fd] == c.path && 0 <= c.length then Cut(c.length) else Skip;
    } else if c.FTruncate? {
      assert EditBy(Abs(w), c, fd) == if c.fd == fd && 0 <= c.length then Cut(c.length) else Skip;
    } else {
      assert EditBy(Abs(w), c, fd) == Skip;
    }
  }

  lemma WriteMeans(s: Spec, c: Call, fd: Fd, k: nat)
    requires c.Write? && c.accepted <= |c.data| && fd in s.open
    ensures Covers(EditBy(s, c, fd), k) <==> WritesByte(c, fd, k)
    ensures WritesByte(c, fd, k) ==> StoredBy(EditBy(s, c, fd), c)
    ensures !Cuts(EditBy(s, c, fd), k)
    ensures Reaches(EditBy(s, c, fd), k) <==>
            c.fd == fd && 0 <= c.offset && 0 < c.accepted && k < c.offset + c.accepted
  {
  }

  lemma HolderIs(w: World, p: Path, fd: Fd)
    requires Inv(w) && fd in w.handles
    ensures w.handles[fd] == p <==> Holders(Abs(w), p) != {} && Holder(Abs(w), p) == fd
  {
    var owner, home :| InvWith(w, owner, home);
    NamesAreHeld(w, owner, home, p);
    assert HandleOk(w, owner, home, fd);
    if w.handles[fd] == p {
      assert fd in Holders(Abs(w), p);
    }
  }

  /** A guarded and clean run during which `fd` stays open. */
  ghost predicate Watched(w: World, calls: seq<Call>, fd: Fd) {
    && Inv(w) && fd in w.handles && KeepsOpen(calls, fd)
    && LegalRun(w, calls) && CleanRun(calls) && GuardedRun(Abs(w), calls)
  }

  lemma StepWatched(w: World, calls: seq<Call>, fd: Fd, w': World)
    requires Watched(w, calls, fd) && calls != [] && w' == Step(w, calls[0]).0
    ensures Watched(w', calls[1..], fd) && Abs(w') == SpecStep(Abs(w), calls[0]).0
  {
    assert LeavesAlone(calls[0], fd) && Clean(calls[0]);
    HandleReads(w, fd);
    StepRefines(w, calls[0]);
    StepEdits(Abs(w), calls[0], fd);
    assert fd in Abs(w').open;
  }

  lemma {:induction false} WatchedAt(w: World, calls: seq<Call>, fd: Fd, j: nat, v: World)
    requires Watched(w, calls, fd) && j <= |calls| && v == StateAt(w, calls, j)
    ensures Inv(v) && fd in v.handles && Abs(v) == SpecAt(Abs(w), calls, j)
    decreases |calls|
  {
    if j == 0 {
      assert v == w;
    } else {
      var w' := Step(w, calls[0]).0;
      StepWatched(w, calls, fd, w');
      StateLater(w, calls, j - 1, w');
      WatchedAt(w', calls[1..], fd, j - 1, v);
    }
  }

  lemma EditsLater(s: Spec, calls: seq<Call>, fd: Fd, j: nat, s': Spec)
    requires fd in s.open && KeepsOpen(calls, fd) && j + 1 < |calls| && s' == SpecStep(s, calls[0]).0
    ensures fd in s'.open && KeepsOpen(calls[1..], fd)
    ensures EditsOf(s, calls, fd)[j + 1] == EditsOf(s', calls[1..], fd)[j]
  {
    assert LeavesAlone(calls[0], fd);
    StepEdits(s, calls[0], fd);
  }

  lemma {:induction false} EditsAt(s: Spec, calls: seq<Call>, fd: Fd, j: nat)
    requires fd in s.open && KeepsOpen(calls, fd) && j < |calls|
    ensures fd in SpecAt(s, calls, j).open
    ensures EditsOf(s, calls, fd)[j] == EditBy(SpecAt(s, calls, j), calls[j], fd)
    decreases |calls|
  {
    if j > 0 {
      var s' := SpecStep(s, calls[0]).0;
      EditsLater(s, calls, fd, j - 1, s');
      EditsAt(s', calls[1..], fd, j - 1);
    }
  }

  /** The edits of a run, told by its calls and the states they meet. */
  lemma EditsMean(w: World, calls: seq<Call>, fd: Fd, j: nat, k: nat)
    requires Watched(w, calls, fd) && j < |calls|
    ensures fd in Abs(w).open
    ensures var edit := EditsOf(Abs(w), calls, fd)[j];
            && (Covers(edit, k) <==> WritesByte(calls[j], fd, k))
            && (WritesByte(calls[j], fd, k) ==> StoredBy(edit, calls[j]))
            && (Cuts(edit, k) <==> CutsByte(StateAt(w, calls, j), calls[j], fd, k))
            && (Reaches(edit, k) <==> ReachesByte(StateAt(w, calls, j), calls[j], fd, k))
  {
    HandleReads(w, fd);
    EditsAt(Abs(w), calls, fd, j);
    WatchedAt(w, calls, fd, j, StateAt(w, calls, j));
    RunAt(w, calls, j);
    EditMeans(StateAt(w, calls, j), calls[j], fd, k);
  }

  lemma Translated(w: World, calls: seq<Call>, fd: Fd, k: nat)
    requires Watched(w, calls, fd)
    ensures fd in Abs(w).open
    ensures var edits := EditsOf(Abs(w), calls, fd);
            && (forall j: nat :: Decides(edits, j, k) <==> LastWrite(w, calls, j, fd, k))
            && (forall j: nat :: Extends(edits, j, k) <==> LastReach(w, calls, j, fd, k))
            && (Untouched(edits, k) <==> NotCut(w, calls, 0, fd, k))
            && (forall j: nat :: LastWrite(w, calls, j, fd, k) ==> StoredBy(edits[j], calls[j]))
  {
    HandleReads(w, fd);
    var edits := EditsOf(Abs(w), calls, fd);
    forall j: nat | j < |calls|
      ensures Covers(edits[j], k) <==> WritesByte(calls[j], fd, k)
      ensures Cuts(edits[j], k) <==> CutsByte(StateAt(w, calls, j), calls[j], fd, k)
      ensures Reaches(edits[j], k) <==> ReachesByte(StateAt(w, calls, j), calls[j], fd, k)
      ensures WritesByte(calls[j], fd, k) ==> StoredBy(edits[j], calls[j])
    {
      EditsMean(w, calls, fd, j, k);
    }
  }

  ghost predicate Reached(w: World, calls: seq<Call>, fd: Fd, k: nat)
    requires WellFormed(w) && LegalRun(w, calls)
  {
    exists j: nat :: LastReach(w, calls, j, fd, k)
  }

  ghost predicate NoLastWrite(w: World, calls: seq<Call>, fd: Fd, k: nat)
    requires WellFormed(w) && LegalRun(w, calls)
  {
    forall j: nat :: !LastWrite(w, calls, j, fd, k)
  }

  ghost predicate SomeExtends(edits: seq<Edit>, k: nat) {
    exists j: nat :: Extends(edits, j, k)
  }

  ghost predicate NoneDecides(edits: seq<Edit>, k: nat) {
    forall j: nat :: !Decides(edits, j, k)
  }

  /** The byte at position `k` of a file that held `first` and now holds `last`, told by the
      calls: that of the last write there, unless it was cut off since; otherwise the byte it
      had at first, if it was never cut off; otherwise zero. And whether there is one. */
  ghost predicate Told(w: World, calls: seq<Call>, fd: Fd, first: Bytes, last: Bytes, k: nat)
    requires WellFormed(w) && LegalRun(w, calls)
  {
    && (k < |last| <==> Reached(w, calls, fd, k) || (k < |first| && NotCut(w, calls, 0, fd, k)))
    && (forall j: nat :: LastWrite(w, calls, j, fd, k) ==> Wrote(calls[j], last, k))
    && (k < |last| && NoLastWrite(w, calls, fd, k) ==>
          last[k] == if k < |first| && NotCut(w, calls, 0, fd, k) then first[k] else 0)
  }

  predicate Wrote(c: Call, last: Bytes, k: nat) {
    c.Write? && 0 <= k - c.offset < |c.data| && k < |last| && last[k] == c.data[k - c.offset]
  }

  /** The same of a list of edits. */
  ghost predicate Folded(edits: seq<Edit>, first: Bytes, last: Bytes, k: nat) {
    && (k < |last| <==> SomeExtends(edits, k) || (k < |first| && Untouched(edits, k)))
    && (forall j: nat :: Decides(edits, j, k) ==> k < |last| && last[k] == edits[j].chunk[k - edits[j].offset])
    && (k < |last| && NoneDecides(edits, k) ==>
          last[k] == if k < |first| && Untouched(edits, k) then first[k] else 0)
  }

  lemma FoldedBytes(first: Bytes, edits: seq<Edit>, k: nat)
    ensures Folded(edits, first, ApplyAll(first, edits), k)
  {
    FinalLength(first, edits, k);
    forall j: nat | Decides(edits, j, k)
      ensures Extends(edits, j, k)
    {
      assert Reaches(edits[j], k);
    }
    if k < |ApplyAll(first, edits)| {
      FinalByte(first, edits, k);
    }
  }

  lemma LengthTold(w: World, calls: seq<Call>, fd: Fd, edits: seq<Edit>, k: nat)
    requires WellFormed(w) && LegalRun(w, calls)
    requires forall j: nat :: Extends(edits, j, k) <==> LastReach(w, calls, j, fd, k)
    ensures SomeExtends(edits, k) == Reached(w, calls, fd, k)
  {
    if j: nat :| Extends(edits, j, k) {
      assert LastReach(w, calls, j, fd, k);
    }
    if j: nat :| LastReach(w, calls, j, fd, k) {
      assert Extends(edits, j, k);
    }
  }

  lemma DecisionTold(w: World, calls: seq<Call>, fd: Fd, edits: seq<Edit>, k: nat)
    requires WellFormed(w) && LegalRun(w, calls)
    requires forall j: nat :: Decides(edits, j, k) <==> LastWrite(w, calls, j, fd, k)
    ensures NoneDecides(edits, k) == NoLastWrite(w, calls, fd, k)
  {
    if j: nat :| Decides(edits, j, k) {
      assert LastWrite(w, calls, j, fd, k);
    }
    if j: nat :| LastWrite(w, calls, j, fd, k) {
      assert Decides(edits, j, k);
    }
  }

  lemma WriteTold(c: Call, e: Edit, last: Bytes, k: nat)
    requires StoredBy(e, c) && Covers(e, k) && k < |last| && last[k] == e.chunk[k - e.offset]
    ensures Wrote(c, last, k)
  {
  }

  /** The edits of a run and its calls say the same about position `k`. */
  ghost predicate Translates(w: World, calls: seq<Call>, fd: Fd, edits: seq<Edit>, k: nat)
    requires WellFormed(w) && LegalRun(w, calls)
  {
    && |edits| == |calls|
    && SomeExtends(edits, k) == Reached(w, calls, fd, k)
    && NoneDecides(edits, k) == NoLastWrite(w, calls, fd, k)
    && (Untouched(edits, k) <==> NotCut(w, calls, 0, fd, k))
    && (forall j: nat :: LastWrite(w, calls, j, fd, k) ==> Decides(edits, j, k) && StoredBy(edits[j], calls[j]))
  }

  lemma EditsTranslate(w: World, calls: seq<Call>, fd: Fd, k: nat)
    requires Watched(w, calls, fd)
    ensures fd in Abs(w).open && Translates(w, calls, fd, EditsOf(Abs(w), calls, fd), k)
  {
    Translated(w, calls, fd, k);
    LengthTold(w, calls, fd, EditsOf(Abs(w), calls, fd), k);
    DecisionTold(w, calls, fd, EditsOf(Abs(w), calls, fd), k);
  }

  /** One last write, and what it leaves at its position. */
  lemma WroteAt(w: World, calls: seq<Call>, fd: Fd, edits: seq<Edit>, last: Bytes, k: nat, j: nat)
    requires WellFormed(w) && LegalRun(w, calls) && Translates(w, calls, fd, edits, k)
    requires LastWrite(w, calls, j, fd, k)
    requires Decides(edits, j, k) ==> k < |last| && last[k] == edits[j].chunk[k - edits[j].offset]
    ensures j < |calls| && Wrote(calls[j], last, k)
  {
    assert Decides(edits, j, k) && StoredBy(edits[j], calls[j]);
    WriteTold(calls[j], edits[j], last, k);
  }

  lemma AllWrote(w: World, calls: seq<Call>, fd: Fd, edits: seq<Edit>, first: Bytes, last: Bytes, k: nat)
    requires WellFormed(w) && LegalRun(w, calls) && Translates(w, calls, fd, edits, k) && Folded(edits, first, last, k)
    ensures forall j: nat :: LastWrite(w, calls, j, fd, k) ==> Wrote(calls[j], last, k)
  {
    forall j: nat | LastWrite(w, calls, j, fd, k)
      ensures Wrote(calls[j], last, k)
    {
      WroteAt(w, calls, fd, edits, last, k, j);
    }
  }

  lemma FromFolded(w: World, calls: seq<Call>, fd: Fd, edits: seq<Edit>, first: Bytes, last: Bytes, k: nat)
    requires WellFormed(w) && LegalRun(w, calls) && Translates(w, calls, fd, edits, k)
    requires Folded(edits, first, last, k)
    ensures Told(w, calls, fd, first, last, k)
  {
    AllWrote(w, calls, fd, edits, first, last, k);
  }

  /** Every byte of an open file at the end of any guarded run. */
  lemma SnapshotByte(w: World, calls: seq<Call>, fd: Fd, k: nat)
    requires Watched(w, calls, fd)
    ensures fd in Abs(w).open
    ensures var first := Abs(w).open[fd].data; Told(w, calls, fd, first, ApplyAll(first, EditsOf(Abs(w), calls, fd)), k)
  {
    EditsTranslate(w, calls, fd, k);
    var first, edits := Abs(w).open[fd].data, EditsOf(Abs(w), calls, fd);
    FoldedBytes(first, edits, k);
    FromFolded(w, calls, fd, edits, first, ApplyAll(first, edits), k);
  }

  /** Let anything happen under the guard while `fd` is open, then release it: the file
      on the server is its snapshot with exactly its own edits folded in. */
  lemma PublishedEdits(w: World, calls: seq<Call>, fd: Fd, p: Path, outgoing: seq<WriteEvent>)
    requires Inv(w) && fd in w.handles && KeepsOpen(calls, fd)
    requires LegalRun(w, calls) && CleanRun(calls) && GuardedRun(Abs(w), calls)
    requires var w2 := Run(w, calls).0; fd in w2.handles && w2.handles[fd] == p
    requires CleanWrites(outgoing)
    ensures StepRelease(Run(w, calls).0, p, fd, true, outgoing, true).0.remote
         == Run(w, calls).0.remote[p := ApplyAll(Abs(w).open[fd].data, EditsOf(Abs(w), calls, fd))]
  {
    var w2 := Run(w, calls).0;
    RunRefines(w, calls);
    ReleasePublishes(w2, p, fd, outgoing);
    SnapshotIsPrivate(Abs(w), calls, fd);
  }

  /** From open to release: the server ends up with the remote file found at open and the
      file's own edits folded in, so `FinalLength` and `FinalByte` decide every byte of it. */
  lemma PublishedFile(w: World, p: Path, local: LocalOpen, incoming: seq<ReadEvent>, w1: World,
                      calls: seq<Call>, q: Path, outgoing: seq<WriteEvent>)
    requires Inv(w) && FreshLocal(w, local) && local.Local? && Holders(Abs(w), p) == {} && p in w.remote
    requires CleanReads(incoming) && CleanWrites(outgoing) && CleanRun(calls) && KeepsOpen(calls, local.fd)
    requires w1 == StepOpen(w, p, true, local, incoming).0
    requires LegalRun(w1, calls) && GuardedRun(Abs(w1), calls)
    requires var w2 := Run(w1, calls).0; local.fd in w2.handles && w2.handles[local.fd] == q
    ensures local.fd in Abs(w1).open
    ensures var end := StepRelease(Run(w1, calls).0, q, local.fd, true, outgoing, true).0;
            q in end.remote && end.remote[q] == ApplyAll(w.remote[p], EditsOf(Abs(w1), calls, local.fd))
  {
    OpenRefines(w, p, true, local, incoming);
    PublishedEdits(w1, calls, local.fd, q, outgoing);
  }

  /** The same told by the calls: what the server has at position `k` once the file is
      released. */
  lemma PublishedByte(w: World, p: Path, local: LocalOpen, incoming: seq<ReadEvent>, w1: World,
                      calls: seq<Call>, q: Path, outgoing: seq<WriteEvent>, end: World, k: nat)
    requires Inv(w) && FreshLocal(w, local) && local.Local? && Holders(Abs(w), p) == {} && p in w.remote
    requires CleanReads(incoming) && CleanWrites(outgoing) && CleanRun(calls) && KeepsOpen(calls, local.fd)
    requires w1 == StepOpen(w, p, true, local, incoming).0
    requires LegalRun(w1, calls) && GuardedRun(Abs(w1), calls)
    requires var w2 := Run(w1, calls).0;
             && local.fd in w2.handles && w2.handles[local.fd] == q
             && end == StepRelease(w2, q, local.fd, true, outgoing, true).0
    ensures q in end.remote && Told(w1, calls, local.fd, w.remote[p], end.remote[q], k)
  {
    OpenRefines(w, p, true, local, incoming);
    assert local.fd in Abs(w1).open && Abs(w1).open[local.fd].data == w.remote[p];
    PublishedEdits(w1, calls, local.fd, q, outgoing);
    SnapshotByte(w1, calls, local.fd, k);
    assert end.remote[q] == ApplyAll(w.remote[p], EditsOf(Abs(w1), calls, local.fd));
  }

  /** What a run has made of an open file, told by the calls, and that its handle is legal. */
  lemma AtTheEnd(w: World, calls: seq<Call>, fd: Fd, end: World)
    requires Watched(w, calls, fd) && end == Run(w, calls).0
    ensures Inv(end) && fd in end.handles && fd in end.fds && end.fds[fd].readable == w.fds[fd].readable
    ensures forall k: nat :: Told(w, calls, fd, Contents(w, fd), Contents(end, fd), k)
  {
    RunRefines(w, calls);
    HandleReads(w, fd);
    SnapshotIsPrivate(Abs(w), calls, fd);
    StaysReadable(Abs(w), calls, fd);
    assert fd in Abs(end).open;
    HandleReads(end, fd);
    forall k: nat
      ensures Told(w, calls, fd, Contents(w, fd), Contents(end, fd), k)
    {
      SnapshotByte(w, calls, fd, k);
    }
  }

  /** And what a read through the descriptor returns at any time: of the bytes from `offset`
      on as many as are asked for and exist, each told by the calls. */
  lemma ReadByte(w: World, calls: seq<Call>, fd: Fd, offset: nat, size: nat, end: World)
    requires Watched(w, calls, fd) && w.fds[fd].readable && end == Run(w, calls).0
    ensures Legal(end, Read(fd, offset, size))
    ensures Step(end, Read(fd, offset, size)).1 == Data(ReadAt(Contents(end, fd), offset, size))
    ensures forall k: nat :: Told(w, calls, fd, Contents(w, fd), Contents(end, fd), k)
  {
    AtTheEnd(w, calls, fd, end);
    OnlyHandles(end);
  }

  lemma {:induction false} StaysReadable(s: Spec, calls: seq<Call>, fd: Fd)
    requires fd in s.open && KeepsOpen(calls, fd)
    ensures fd in SpecRun(s, calls).0.open && SpecRun(s, calls).0.open[fd].readable == s.open[fd].readable
    decreases |calls|
  {
    if calls != [] {
      assert LeavesAlone(calls[0], fd);
      StepEdits(s, calls[0], fd);
      StaysReadable(SpecStep(s, calls[0]).0, calls[1..], fd);
    }
  }
}
