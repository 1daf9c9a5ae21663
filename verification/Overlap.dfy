/** Why one path must not be open twice at a time: every release publishes from the path,
    the first one takes the path away, and all later ones publish an empty file. */
module Overlap {
  import opened Posix
  import opened Transfer
  import opened CacheModel

  /** The calls that can give `p` a local copy. */
  predicate NamesPath(c: Call, p: Path) {
    match c
    case Create(q, _) => q == p
    case Open(q, _, _, _) => q == p
    case Rename(_, to, _) => to == p
    case Link(_, to) => to == p
    case Mknod(q, _) => q == p
    case _ => false
  }

  predicate NeverNames(calls: seq<Call>, p: Path) {
    forall i :: 0 <= i < |calls| ==> !NamesPath(calls[i], p)
  }

  predicate EmptyOrGone(w: World, p: Path) {
    p !in w.names && (p in w.remote ==> w.remote[p] == [])
  }

  lemma StepUnnamed(w: World, c: Call, p: Path)
    requires WellFormed(w) && Legal(w, c) && p !in w.names && !NamesPath(c, p)
    ensures p !in Step(w, c).0.names
    ensures EmptyOrGone(w, p) ==> EmptyOrGone(Step(w, c).0, p)
    ensures c.Release? && c.path == p && c.served ==> EmptyOrGone(Step(w, c).0, p)
  {
    if c.Release? {
      ReleaseUnnamed(w, c.path, c.fd, c.served, c.outgoing, c.done, p);
    } else if c.Unlink? || c.Rename? || c.Link? {
      NameCallUnnamed(w, c, p);
    } else {
      OtherUnnamed(w, c, p);
    }
  }

  lemma ReleaseUnnamed(w: World, q: Path, fd: Fd, served: bool, outgoing: seq<WriteEvent>, done: bool, p: Path)
    requires WellFormed(w) && fd in w.handles && p !in w.names
    ensures var w' := StepRelease(w, q, fd, served, outgoing, done).0;
            p !in w'.names && (EmptyOrGone(w, p) || (q == p && served) ==> EmptyOrGone(w', p))
  {
    assert UploadFrom([], 0, [], outgoing) == [];
  }

  lemma NameCallUnnamed(w: World, c: Call, p: Path)
    requires WellFormed(w) && Legal(w, c) && p !in w.names && !NamesPath(c, p)
    requires c.Unlink? || c.Rename? || c.Link?
    ensures p !in Step(w, c).0.names
    ensures EmptyOrGone(w, p) ==> EmptyOrGone(Step(w, c).0, p)
  {
  }

  lemma OtherUnnamed(w: World, c: Call, p: Path)
    requires WellFormed(w) && Legal(w, c) && p !in w.names && !NamesPath(c, p)
    requires !c.Release? && !c.Unlink? && !c.Rename? && !c.Link?
    ensures p !in Step(w, c).0.names && Step(w, c).0.remote == w.remote
  {
  }

  lemma {:induction false} RunUnnamed(w: World, calls: seq<Call>, p: Path)
    requires WellFormed(w) && LegalRun(w, calls) && p !in w.names && NeverNames(calls, p)
    ensures p !in Run(w, calls).0.names
    ensures EmptyOrGone(w, p) ==> EmptyOrGone(Run(w, calls).0, p)
    decreases |calls|
  {
    if calls != [] {
      assert !NamesPath(calls[0], p);
      StepUnnamed(w, calls[0], p);
      RunUnnamed(Step(w, calls[0]).0, calls[1..], p);
    }
  }

  predicate Publication(c: Call, p: Path) {
    c.Release? && c.path == p && c.served && c.done
  }

  /** In any run whatsoever, once a path has been released twice without being opened,
      created, linked or renamed to in between or since, the server has an empty file
      there or none: whatever was written through the second handle is gone. */
  lemma SecondReleaseEmpties(w: World, first: Call, between: seq<Call>, second: Call, after: seq<Call>, p: Path)
    requires WellFormed(w) && LegalRun(w, [first] + between + [second] + after)
    requires Publication(first, p) && Publication(second, p)
    requires NeverNames(between, p) && NeverNames(after, p)
    ensures EmptyOrGone(Run(w, [first] + between + [second] + after).0, p)
  {
    RunSplit(w, [first] + between + [second], after);
    RunSplit(w, [first] + between, [second]);
    RunSplit(w, [first], between);
    var w1 := Run(w, [first]).0;
    assert w1 == Step(w, first).0;
    RunUnnamed(w1, between, p);
    var w2 := Run(w1, between).0;
    StepUnnamed(w2, second, p);
    RunUnnamed(Step(w2, second).0, after, p);
  }

  // ----- Opening one path n times

  predicate CleanOpen(c: Call, p: Path) {
    c.Open? && c.path == p && c.served && c.local.Local? && CleanReads(c.incoming)
  }

  predicate CleanRelease(c: Call, p: Path) {
    Publication(c, p) && CleanWrites(c.outgoing)
  }

  /** Every further open truncates the shared local copy and fills it again. */
  lemma StepReopens(w: World, c: Call, p: Path)
    requires WellFormed(w) && Legal(w, c) && p in w.remote && CleanOpen(c, p)
    ensures var w' := Step(w, c).0;
            w'.remote == w.remote && p in w'.names && Pending(w', p) == w.remote[p]
  {
    CleanDownload(|w.remote[p]|, 0, c.incoming);
  }

  lemma {:induction false} Reopens(w: World, opens: seq<Call>, p: Path)
    requires WellFormed(w) && LegalRun(w, opens) && p in w.remote
    requires forall i :: 0 <= i < |opens| ==> CleanOpen(opens[i], p)
    ensures Run(w, opens).0.remote == w.remote
    ensures opens != [] ==> p in Run(w, opens).0.names && Pending(Run(w, opens).0, p) == w.remote[p]
    decreases |opens|
  {
    if opens != [] {
      assert CleanOpen(opens[0], p);
      StepReopens(w, opens[0], p);
      Reopens(Step(w, opens[0]).0, opens[1..], p);
    }
  }

  lemma {:induction false} Rereleases(w: World, releases: seq<Call>, p: Path)
    requires WellFormed(w) && LegalRun(w, releases) && p !in w.names && p in w.remote
    requires forall i :: 0 <= i < |releases| ==> CleanRelease(releases[i], p)
    ensures p in Run(w, releases).0.remote
    ensures Run(w, releases).0.remote[p] == if releases == [] then w.remote[p] else []
    decreases |releases|
  {
    if releases != [] {
      assert CleanRelease(releases[0], p);
      StepUnnamed(w, releases[0], p);
      Rereleases(Step(w, releases[0]).0, releases[1..], p);
    }
  }

  /** The first release publishes what the opens fetched, and takes the name away. */
  lemma FirstRelease(w: World, c: Call, p: Path)
    requires WellFormed(w) && Legal(w, c) && p in w.names && CleanRelease(c, p)
    ensures var w' := Step(w, c).0;
            p !in w'.names && p in w'.remote && w'.remote[p] == Pending(w, p)
  {
    CleanUpload(Pending(w, p), c.outgoing);
  }

  lemma Releases(w: World, releases: seq<Call>, p: Path)
    requires WellFormed(w) && LegalRun(w, releases) && p in w.names && releases != []
    requires forall i :: 0 <= i < |releases| ==> CleanRelease(releases[i], p)
    ensures p in Run(w, releases).0.remote
    ensures Run(w, releases).0.remote[p] == if |releases| == 1 then Pending(w, p) else []
  {
    assert CleanRelease(releases[0], p);
    FirstRelease(w, releases[0], p);
    Rereleases(Step(w, releases[0]).0, releases[1..], p);
  }

  /** A path opened n times and only then released n times, in whatever order of the handles
      and over whatever chunks, with nothing written: the remote file survives if and only if it was open
      only once or was empty anyway. Otherwise it ends up empty. */
  lemma RepeatedOpen(w: World, opens: seq<Call>, releases: seq<Call>, p: Path)
    requires WellFormed(w) && LegalRun(w, opens + releases) && p in w.remote
    requires forall i :: 0 <= i < |opens| ==> CleanOpen(opens[i], p)
    requires forall i :: 0 <= i < |releases| ==> CleanRelease(releases[i], p)
    requires 1 <= |opens| == |releases|
    ensures var end := Run(w, opens + releases).0;
            && p in end.remote
            && end.remote[p] == (if |opens| == 1 then w.remote[p] else [])
            && (end.remote[p] == w.remote[p] <==> |opens| == 1 || w.remote[p] == [])
  {
    RunSplit(w, opens, releases);
    Reopens(w, opens, p);
    Releases(Run(w, opens).0, releases, p);
  }

  // ----- Any interleaving

  predicate OpensAndReleases(calls: seq<Call>, p: Path) {
    forall i :: 0 <= i < |calls| ==> CleanOpen(calls[i], p) || CleanRelease(calls[i], p)
  }

  /** At some time of the run two files are open on `p`. */
  predicate OpenTwice(w: World, calls: seq<Call>, p: Path)
    requires WellFormed(w) && LegalRun(w, calls)
    decreases |calls|
  {
    2 <= |HandlesOn(w.handles, p)| || (calls != [] && OpenTwice(Step(w, calls[0]).0, calls[1..], p))
  }

  /** The local copy, if there is one, is open and holds what the server has. */
  predicate InStep(w: World, p: Path)
    requires WellFormed(w)
  {
    p in w.remote && (p in w.names ==> HandlesOn(w.handles, p) != {} && Pending(w, p) == w.remote[p])
  }

  /** More files are open on `p` than there is a local copy for. */
  predicate Outnumbered(w: World, p: Path) {
    |HandlesOn(w.handles, p)| > if p in w.names then 1 else 0
  }

  lemma OpensOneMore(w: World, c: Call, p: Path)
    requires WellFormed(w) && Legal(w, c) && InStep(w, p) && CleanOpen(c, p)
    ensures var w' := Step(w, c).0;
            && w'.remote == w.remote && InStep(w', p) && p in w'.names
            && |HandlesOn(w'.handles, p)| == |HandlesOn(w.handles, p)| + 1
  {
    StepReopens(w, c, p);
    OpenAddsHandle(w, c, p);
    OneMoreHandle(w.handles, c.local.fd, p);
  }

  lemma OneMoreHandle(handles: map<Fd, Path>, fd: Fd, p: Path)
    requires fd !in handles
    ensures |HandlesOn(handles[fd := p], p)| == |HandlesOn(handles, p)| + 1
    ensures fd in HandlesOn(handles[fd := p], p)
  {
    assert HandlesOn(handles[fd := p], p) == HandlesOn(handles, p) + {fd};
  }

  lemma OneHandleLess(handles: map<Fd, Path>, fd: Fd, p: Path)
    requires fd in handles && handles[fd] == p
    ensures |HandlesOn(handles - {fd}, p)| == |HandlesOn(handles, p)| - 1
  {
    assert HandlesOn(handles, p) == HandlesOn(handles - {fd}, p) + {fd};
  }

  lemma OpenAddsHandle(w: World, c: Call, p: Path)
    requires WellFormed(w) && Legal(w, c) && p in w.remote && CleanOpen(c, p)
    ensures c.local.fd !in w.handles && Step(w, c).0.handles == w.handles[c.local.fd := p]
  {
    CleanDownload(|w.remote[p]|, 0, c.incoming);
  }

  lemma ReleasesOneLess(w: World, c: Call, p: Path)
    requires WellFormed(w) && Legal(w, c) && InStep(w, p) && CleanRelease(c, p)
    ensures var w' := Step(w, c).0;
            && InStep(w', p) && p !in w'.names
            && w'.remote[p] == (if p in w.names then w.remote[p] else [])
            && |HandlesOn(w'.handles, p)| == |HandlesOn(w.handles, p)| - 1
  {
    CleanUpload(Pending(w, p), c.outgoing);
    OneHandleLess(w.handles, c.fd, p);
  }

  /** From any state in step: once more files are open than there is a copy for, the file
      is lost; until then it is lost if and only if that is still to come. */
  lemma {:induction false} InterleavedFrom(w: World, calls: seq<Call>, p: Path)
    requires WellFormed(w) && LegalRun(w, calls) && InStep(w, p) && OpensAndReleases(calls, p)
    requires HandlesOn(Run(w, calls).0.handles, p) == {}
    ensures p in Run(w, calls).0.remote
    ensures Run(w, calls).0.remote[p] == if Outnumbered(w, p) || OpenTwice(w, calls, p) then [] else w.remote[p]
    decreases |calls|
  {
    if calls != [] {
      var c, w' := calls[0], Step(w, calls[0]).0;
      assert CleanOpen(c, p) || CleanRelease(c, p);
      if CleanOpen(c, p) {
        OpensOneMore(w, c, p);
      } else {
        ReleasesOneLess(w, c, p);
      }
      InterleavedFrom(w', calls[1..], p);
    }
  }

  /** Any number of opens and releases of a closed path, in any order that ends with the
      path closed again, with nothing written: the remote file survives if and only if the
      path was never open twice at a time or the file was empty anyway. */
  lemma Interleaved(w: World, calls: seq<Call>, p: Path)
    requires WellFormed(w) && LegalRun(w, calls) && p in w.remote && p !in w.names
    requires OpensAndReleases(calls, p)
    requires HandlesOn(w.handles, p) == {} && HandlesOn(Run(w, calls).0.handles, p) == {}
    ensures var end := Run(w, calls).0;
            && p in end.remote
            && end.remote[p] == (if OpenTwice(w, calls, p) then [] else w.remote[p])
            && (end.remote[p] == w.remote[p] <==> !OpenTwice(w, calls, p) || w.remote[p] == [])
  {
    InterleavedFrom(w, calls, p);
  }
}
