/** The benchmark client of `testing/editrandom.cpp`: it keeps six files open and replaces
    random single bytes in them. Run against the cache, it must leave on the server each
    file with its own edits, and everything else as it was. */
module EditRandom {
  import opened Posix
  import opened Transfer
  import opened CacheModel
  import opened CloseToOpen
  import opened Scpfs

  const MAX_FILES := 6

  /** The three results of `rand` that one iteration uses. */
  datatype Roll = Roll(file: nat, position: nat, byte: nat)

  /** One iteration, as far as file `j` is concerned. */
  function Poke(data: Bytes, roll: Roll, j: nat): (r: Bytes)
    ensures |r| == |data|
  {
    if roll.file % MAX_FILES == j && data != [] then data[roll.position % |data| := (roll.byte % 256) as Byte] else data
  }

  /** A file's edits in the first `n` iterations, folded in order. */
  function Poked(data: Bytes, rolls: seq<Roll>, n: nat, j: nat): (r: Bytes)
    requires n <= |rolls|
    ensures |r| == |data|
  {
    if n == 0 then data else Poke(Poked(data, rolls, n - 1, j), rolls[n - 1], j)
  }

  /** The roll replaces byte `k` of file `j`, which has `size` bytes. */
  predicate Hits(roll: Roll, j: nat, size: nat, k: nat)
    requires 0 < size
  {
    roll.file % 6 == j && roll.position % size == k
  }

  /** Roll `i` is the last of the first `n` to do so. */
  predicate LastHit(rolls: seq<Roll>, n: nat, i: nat, j: nat, size: nat, k: nat)
    requires n <= |rolls| && 0 < size
  {
    i < n && Hits(rolls[i], j, size, k) && forall m :: i < m < n ==> !Hits(rolls[m], j, size, k)
  }

  /** Byte by byte: the last roll that hits a byte decides it. */
  lemma {:induction false} PokedByte(data: Bytes, rolls: seq<Roll>, n: nat, j: nat, k: nat)
    requires n <= |rolls| && k < |data|
    ensures forall i: nat :: LastHit(rolls, n, i, j, |data|, k) ==>
              Poked(data, rolls, n, j)[k] == (rolls[i].byte % 256) as Byte
    ensures (forall i :: 0 <= i < n ==> !Hits(rolls[i], j, |data|, k)) ==> Poked(data, rolls, n, j)[k] == data[k]
    decreases n
  {
    if n > 0 {
      PokedByte(data, rolls, n - 1, j, k);
      forall i: nat | LastHit(rolls, n, i, j, |data|, k) && i < n - 1
        ensures LastHit(rolls, n - 1, i, j, |data|, k) && !Hits(rolls[n - 1], j, |data|, k)
      {
      }
    }
  }

  function PokeOne(data: seq<Bytes>, roll: Roll): seq<Bytes>
    requires |data| == MAX_FILES
  {
    var j := roll.file % MAX_FILES;
    data[j := Poke(data[j], roll, j)]
  }

  /** `now` is what the first `n` rolls have made of the contents `data`. */
  ghost predicate IsPoked(data: seq<Bytes>, rolls: seq<Roll>, n: nat, now: seq<Bytes>)
    requires n <= |rolls|
  {
    |now| == |data| && forall j :: 0 <= j < |data| ==> now[j] == Poked(data[j], rolls, n, j)
  }

  lemma PokedMore(data: seq<Bytes>, rolls: seq<Roll>, n: nat, now: seq<Bytes>)
    requires n < |rolls| && |data| == MAX_FILES && IsPoked(data, rolls, n, now)
    ensures IsPoked(data, rolls, n + 1, PokeOne(now, rolls[n]))
  {
  }

  lemma PokedLengths(data: seq<Bytes>, rolls: seq<Roll>, n: nat, now: seq<Bytes>)
    requires n <= |rolls| && IsPoked(data, rolls, n, now)
    requires forall j :: 0 <= j < |data| ==> data[j] != []
    ensures forall j :: 0 <= j < |now| ==> now[j] != []
  {
    forall j | 0 <= j < |now|
      ensures |now[j]| == |data[j]|
    {
      assert now[j] == Poked(data[j], rolls, n, j);
    }
  }

  /** Files `lo` to `hi` are open with contents `data`, those below `lo` have been published
      with theirs, and everything else is as it was in `s0`. */
  ghost predicate Session(s0: Spec, s: Spec, files: seq<Path>, fds: seq<Fd>, data: seq<Bytes>, lo: nat, hi: nat)
    requires lo <= hi <= |files| && hi <= |fds| && |data| == |files|
  {
    && (forall j :: lo <= j < hi ==> fds[j] in s.open && s.open[fds[j]] == Snapshot(files[j], data[j], true))
    && (forall f :: f in s.open ==> f in s0.open || exists j :: lo <= j < hi && fds[j] == f)
    && (forall f :: f in s0.open ==> f in s.open && s.open[f] == s0.open[f])
    && (forall q :: q in s.published <==> q in s0.published)
    && (forall q :: q in s0.published && q !in files ==> s.published[q] == s0.published[q])
    && (forall j :: 0 <= j < lo ==> files[j] in s.published && s.published[files[j]] == data[j])
  }

  predicate Distinct<T(==)>(xs: seq<T>) {
    forall i, j :: 0 <= i < j < |xs| ==> xs[i] != xs[j]
  }

  lemma OpenOne(s0: Spec, s: Spec, files: seq<Path>, fds: seq<Fd>, data: seq<Bytes>, i: nat, fd: Fd)
    requires i < |files| == |data| && |fds| == i && Session(s0, s, files, fds, data, 0, i)
    requires fd !in s.open && files[i] in s.published && s.published[files[i]] == data[i]
    ensures Session(s0, s.(open := s.open[fd := Snapshot(files[i], data[i], true)]), files, fds + [fd], data, 0, i + 1)
  {
    var s' := s.(open := s.open[fd := Snapshot(files[i], data[i], true)]);
    var fds' := fds + [fd];
    forall f | f in s'.open
      ensures f in s0.open || exists j :: 0 <= j < i + 1 && fds'[j] == f
    {
      if f == fd {
        assert fds'[i] == f;
      } else if j :| 0 <= j < i && fds[j] == f {
        assert fds'[j] == f;
      }
    }
  }

  lemma EditOne(s0: Spec, s: Spec, files: seq<Path>, fds: seq<Fd>, data: seq<Bytes>, j: nat, edited: Bytes)
    requires j < |files| == |data| == |fds| && Distinct(fds) && Session(s0, s, files, fds, data, 0, |files|)
    requires fds[j] !in s0.open
    ensures Session(s0, Edit(s, fds[j], edited), files, fds, data[j := edited], 0, |files|)
  {
  }

  lemma ClosePublishes(s0: Spec, published: map<Path, Bytes>, files: seq<Path>, data: seq<Bytes>, lo: nat)
    requires lo < |files| == |data| && Distinct(files) && files[lo] in s0.published
    requires forall q :: q in published <==> q in s0.published
    requires forall q :: q in s0.published && q !in files ==> published[q] == s0.published[q]
    requires forall j :: 0 <= j < lo ==> files[j] in published && published[files[j]] == data[j]
    ensures var p := published[files[lo] := data[lo]];
            && (forall q :: q in p <==> q in s0.published)
            && (forall q :: q in s0.published && q !in files ==> p[q] == s0.published[q])
            && (forall j :: 0 <= j < lo + 1 ==> files[j] in p && p[files[j]] == data[j])
  {
  }

  lemma CloseOne(s0: Spec, s: Spec, files: seq<Path>, fds: seq<Fd>, data: seq<Bytes>, lo: nat)
    requires lo < |files| == |data| == |fds| && Distinct(fds) && Distinct(files)
    requires Session(s0, s, files, fds, data, lo, |files|)
    requires fds[lo] !in s0.open && files[lo] in s0.published
    ensures Session(s0, Spec(s.published[files[lo] := data[lo]], s.open - {fds[lo]}), files, fds, data, lo + 1, |files|)
  {
    var s' := Spec(s.published[files[lo] := data[lo]], s.open - {fds[lo]});
    ClosePublishes(s0, s.published, files, data, lo);
    forall f | f in s'.open && f !in s0.open
      ensures exists j :: lo + 1 <= j < |files| && fds[j] == f
    {
      var j :| lo <= j < |files| && fds[j] == f;
      assert j != lo;
    }
  }

  /** When everything is closed again nothing but the published files has changed. */
  lemma AllClosed(s0: Spec, s: Spec, files: seq<Path>, fds: seq<Fd>, data: seq<Bytes>)
    requires |files| == |data| == |fds| && Session(s0, s, files, fds, data, |files|, |files|)
    ensures s.open == s0.open
    ensures forall j :: 0 <= j < |files| ==> files[j] in s.published && s.published[files[j]] == data[j]
    ensures s.published.Keys == s0.published.Keys
    ensures forall q :: q in s0.published && q !in files ==> s.published[q] == s0.published[q]
  {
  }

  /** What the kernel hands out to the opens: fresh descriptors and inodes, all distinct. */
  ghost predicate Fresh(w: World, locals: seq<LocalOpen>, from: nat) {
    && (forall i :: 0 <= i < |locals| ==> locals[i].Local?)
    && (forall i, j :: 0 <= i < j < |locals| ==> locals[i].fd != locals[j].fd && locals[i].ino != locals[j].ino)
    && (forall i :: from <= i < |locals| ==> locals[i].fd !in w.fds && locals[i].ino !in w.inodes)
  }

  ghost predicate Free(s: Spec, files: seq<Path>, from: nat) {
    forall i :: from <= i < |files| ==> Holders(s, files[i]) == {}
  }

  lemma FreshAfter(w: World, w': World, locals: seq<LocalOpen>, i: nat)
    requires i < |locals| && Fresh(w, locals, i)
    requires w'.fds.Keys <= w.fds.Keys + {locals[i].fd} && w'.inodes.Keys <= w.inodes.Keys + {locals[i].ino}
    ensures Fresh(w', locals, i + 1)
  {
  }

  lemma FreeAfter(s: Spec, files: seq<Path>, i: nat, fd: Fd, data: Bytes)
    requires i < |files| && Distinct(files) && Free(s, files, i)
    ensures Free(s.(open := s.open[fd := Snapshot(files[i], data, true)]), files, i + 1)
  {
    var s' := s.(open := s.open[fd := Snapshot(files[i], data, true)]);
    forall k | i + 1 <= k < |files|
      ensures Holders(s', files[k]) == {}
    {
      assert Holders(s', files[k]) <= Holders(s, files[k]);
    }
  }

  lemma OpenKeys(w: World, p: Path, served: bool, fd: Fd, ino: Ino, incoming: seq<ReadEvent>)
    requires WellFormed(w) && FreshLocal(w, Local(fd, ino))
    ensures var w' := StepOpen(w, p, served, Local(fd, ino), incoming).0;
            w'.fds.Keys <= w.fds.Keys + {fd} && w'.inodes.Keys <= w.inodes.Keys + {ino}
  {
  }

  /** One turn of the first loop in the cache: refused, or one more file open. */
  lemma OpenStep(w: World, files: seq<Path>, locals: seq<LocalOpen>, i: nat, served: bool, incoming: seq<ReadEvent>)
    requires Inv(w) && i < |files| == |locals| && Distinct(files) && files[i] in w.remote
    requires Fresh(w, locals, i) && Free(Abs(w), files, i) && CleanReads(incoming)
    ensures FreshLocal(w, locals[i])
    ensures var (w', r) := StepOpen(w, files[i], served, locals[i], incoming);
            && Inv(w') && w'.remote == w.remote && Fresh(w', locals, i + 1) && Free(Abs(w'), files, i + 1)
            && locals[i].fd !in Abs(w).open
            && r == (if served then Opened(locals[i].fd) else Failed)
            && (served ==> Abs(w') == Abs(w).(open := Abs(w).open[locals[i].fd :=
                                                        Snapshot(files[i], w.remote[files[i]], true)]))
  {
    var fd, ino := locals[i].fd, locals[i].ino;
    NotHeld(w, files[i]);
    assert Holders(Abs(w), files[i]) == {};
    OpenRefines(w, files[i], served, locals[i], incoming);
    OpenKeys(w, files[i], served, fd, ino, incoming);
    FreshAfter(w, StepOpen(w, files[i], served, locals[i], incoming).0, locals, i);
    FreeAfter(Abs(w), files, i, fd, w.remote[files[i]]);
  }

  /** The state of the first loop after `i` turns. */
  ghost predicate Opening(w0: World, w: World, files: seq<Path>, locals: seq<LocalOpen>, fds: seq<Fd>,
                          data: seq<Bytes>, i: nat)
    requires i <= |files| == |data| == |locals|
  {
    && Inv(w) && WellFormed(w0) && w.remote == w0.remote && w.remote.Keys == w0.remote.Keys && |fds| == i
    && Fresh(w, locals, i) && Free(Abs(w), files, i)
    && (forall j :: 0 <= j < i ==> fds[j] == locals[j].fd && fds[j] !in w0.handles)
    && Session(Abs(w0), Abs(w), files, fds, data, 0, i)
  }

  lemma OpenTurn(w0: World, w: World, files: seq<Path>, locals: seq<LocalOpen>, fds: seq<Fd>, data: seq<Bytes>,
                 i: nat, served: bool, incoming: seq<ReadEvent>)
    requires i < |files| == |locals| == |data| && Distinct(files) && CleanReads(incoming)
    requires files[i] in w.remote && w.remote[files[i]] == data[i]
    requires Opening(w0, w, files, locals, fds, data, i)
    ensures FreshLocal(w, locals[i]) && !w.over
    ensures var (w', r) := StepOpen(w, files[i], served, locals[i], incoming);
            && Inv(w') && w'.remote == w.remote
            && r == (if served then Opened(locals[i].fd) else Failed)
            && (served ==> Opening(w0, w', files, locals, fds + [locals[i].fd], data, i + 1))
  {
    OnlyHandles(w);
    OpenStep(w, files, locals, i, served, incoming);
    if served {
      var w' := StepOpen(w, files[i], served, locals[i], incoming).0;
      OpeningMore(w0, w, w', files, locals, fds, data, i, locals[i].fd);
    }
  }

  lemma OpeningMore(w0: World, w: World, w': World, files: seq<Path>, locals: seq<LocalOpen>, fds: seq<Fd>,
                    data: seq<Bytes>, i: nat, fd: Fd)
    requires i < |files| == |locals| == |data| && files[i] in w.remote && w.remote[files[i]] == data[i]
    requires Opening(w0, w, files, locals, fds, data, i)
    requires Inv(w') && w'.remote == w.remote && Fresh(w', locals, i + 1) && Free(Abs(w'), files, i + 1)
    requires fd == locals[i].fd && fd !in Abs(w).open
    requires Abs(w') == Abs(w).(open := Abs(w).open[fd := Snapshot(files[i], data[i], true)])
    ensures Opening(w0, w', files, locals, fds + [fd], data, i + 1)
  {
    var fds' := fds + [fd];
    assert Session(Abs(w0), Abs(w'), files, fds', data, 0, i + 1) by {
      assert fd !in Abs(w0).open;
      OpenOne(Abs(w0), Abs(w), files, fds, data, i, fd);
    }
    forall j | 0 <= j < i + 1
      ensures fds'[j] == locals[j].fd && fds'[j] !in w0.handles
    {
      if j == i {
        assert fd !in Abs(w0).open;
      } else {
        assert fds'[j] == fds[j];
      }
    }
  }

  /** One turn of the first loop. */
  method OpenNext(fs: Scpfs, files: seq<Path>, locals: seq<LocalOpen>, i: nat, served: bool, incoming: seq<ReadEvent>,
                  ghost w0: World, ghost fds: seq<Fd>, ghost data: seq<Bytes>)
    returns (r: Reply)
    requires fs.Valid() && i < |files| == |locals| == |data| && Distinct(files) && CleanReads(incoming)
    requires files[i] in w0.remote && w0.remote[files[i]] == data[i]
    requires Opening(w0, fs.world, files, locals, fds, data, i)
    modifies fs
    ensures fs.Valid() && Inv(fs.world) && fs.world.remote == w0.remote
    ensures r == if served then Opened(locals[i].fd) else Failed
    ensures served ==> Opening(w0, fs.world, files, locals, fds + [locals[i].fd], data, i + 1)
  {
    OpenTurn(w0, fs.world, files, locals, fds, data, i, served, incoming);
    r := fs.Open(files[i], served, locals[i], incoming);
  }

  /** The first loop of the client. It stops with an error at the first file the server
      refuses, number `refused`, if there is one. */
  method OpenFiles(fs: Scpfs, files: seq<Path>, refused: nat, locals: seq<LocalOpen>,
                   incoming: seq<seq<ReadEvent>>, ghost data: seq<Bytes>)
    returns (fds: seq<Fd>, ok: bool)
    requires fs.Valid() && |files| == |locals| == |incoming| == |data| && Distinct(files)
    requires Opening(fs.world, fs.world, files, locals, [], data, 0)
    requires forall i :: 0 <= i < |files| ==> CleanReads(incoming[i])
    requires forall i :: 0 <= i < |files| ==> files[i] in fs.world.remote && fs.world.remote[files[i]] == data[i]
    modifies fs
    ensures fs.Valid() && Inv(fs.world) && fs.world.remote == old(fs.world).remote
    ensures ok <==> |files| <= refused
    ensures ok ==> Opening(old(fs.world), fs.world, files, locals, fds, data, |files|)
  {
    fds := [];
    var i := 0;
    while i < |files|
      invariant i <= |files| && i <= refused && fs.Valid()
      invariant Opening(old(fs.world), fs.world, files, locals, fds, data, i)
    {
      var r := OpenNext(fs, files, locals, i, i != refused, incoming[i], old(fs.world), fds, data);
      if r.Failed? {
        return fds, false;
      }
      fds := fds + [r.fd];
      i := i + 1;
    }
    ok := true;
  }

  lemma PokeTurn(w: World, fds: seq<Fd>, roll: Roll, s0: Spec, files: seq<Path>, data: seq<Bytes>)
    requires Inv(w) && |files| == |data| == |fds| == MAX_FILES && Distinct(fds)
    requires forall j :: 0 <= j < MAX_FILES ==> fds[j] !in s0.open && data[j] != []
    requires Session(s0, Abs(w), files, fds, data, 0, MAX_FILES)
    ensures var j := roll.file % MAX_FILES;
            && fds[j] in w.handles && fds[j] in w.fds && w.fds[fds[j]].ino in w.inodes
            && |w.inodes[w.fds[fds[j]].ino]| == |data[j]|
            && var w' := StepWrite(w, fds[j], roll.position % |data[j]|, [(roll.byte % 256) as Byte], 1).0;
            && Inv(w') && w'.remote == w.remote
            && Session(s0, Abs(w'), files, fds, PokeOne(data, roll), 0, MAX_FILES)
  {
    var j := roll.file % MAX_FILES;
    var fd, pos, b := fds[j], roll.position % |data[j]|, (roll.byte % 256) as Byte;
    assert fd in Abs(w).open && Abs(w).open[fd].data == data[j];
    OverwriteByte(data[j], pos, b);
    EditRefines(w, fd, data[j][pos := b]);
    EditOne(s0, Abs(w), files, fds, data, j, data[j][pos := b]);
  }

  /** One turn of the second loop: seek to the end for the size, read a byte at a random
      position, write another one there. */
  method PokeOnce(fs: Scpfs, fds: seq<Fd>, roll: Roll, ghost s0: Spec, ghost files: seq<Path>, ghost data: seq<Bytes>)
    requires fs.Valid() && Inv(fs.world) && |files| == |data| == |fds| == MAX_FILES && Distinct(fds)
    requires forall j :: 0 <= j < MAX_FILES ==> fds[j] !in s0.open && data[j] != []
    requires Session(s0, Abs(fs.world), files, fds, data, 0, MAX_FILES)
    modifies fs
    ensures fs.Valid() && Inv(fs.world) && fs.world.remote == old(fs.world).remote
    ensures Session(s0, Abs(fs.world), files, fds, PokeOne(data, roll), 0, MAX_FILES)
  {
    PokeTurn(fs.world, fds, roll, s0, files, data);
    ghost var owner, home :| InvWith(fs.world, owner, home);
    var fd := fds[roll.file % MAX_FILES];
    var end := fs.FGetAttr(fd);
    var fileSize := end.size;
    var pos := roll.position % fileSize;
    var _ := fs.Read(fd, pos, 1);
    var newByte := (roll.byte % 256) as Byte;
    var _ := fs.Write(fd, pos, [newByte], 1);
  }

  lemma CloseTurn(w: World, s0: Spec, files: seq<Path>, fds: seq<Fd>, data: seq<Bytes>, lo: nat,
                  outgoing: seq<WriteEvent>)
    requires Inv(w) && lo < |files| == |data| == |fds| && Distinct(fds) && Distinct(files) && CleanWrites(outgoing)
    requires Session(s0, Abs(w), files, fds, data, lo, |files|)
    requires fds[lo] !in s0.open && files[lo] in s0.published
    ensures !w.over && fds[lo] in w.handles && w.handles[fds[lo]] == files[lo]
    ensures var w' := StepRelease(w, files[lo], fds[lo], true, outgoing, true).0;
            Inv(w') && Session(s0, Abs(w'), files, fds, data, lo + 1, |files|)
  {
    OnlyHandles(w);
    assert fds[lo] in Abs(w).open && Abs(w).open[fds[lo]] == Snapshot(files[lo], data[lo], true);
    ReleaseMeans(w, files[lo], fds[lo], outgoing);
    CloseOne(s0, Abs(w), files, fds, data, lo);
  }

  method CloseNext(fs: Scpfs, files: seq<Path>, fds: seq<Fd>, lo: nat, outgoing: seq<WriteEvent>,
                   ghost s0: Spec, ghost data: seq<Bytes>)
    requires fs.Valid() && Inv(fs.world)
    requires lo < |files| == |data| == |fds| && Distinct(fds) && Distinct(files) && CleanWrites(outgoing)
    requires Session(s0, Abs(fs.world), files, fds, data, lo, |files|)
    requires fds[lo] !in s0.open && files[lo] in s0.published
    modifies fs
    ensures fs.Valid() && Inv(fs.world) && Session(s0, Abs(fs.world), files, fds, data, lo + 1, |files|)
  {
    CloseTurn(fs.world, s0, files, fds, data, lo, outgoing);
    var _ := fs.Release(files[lo], fds[lo], true, outgoing, true);
  }

  /** The third loop of the client. */
  method CloseFiles(fs: Scpfs, files: seq<Path>, fds: seq<Fd>, outgoing: seq<seq<WriteEvent>>,
                    ghost s0: Spec, ghost data: seq<Bytes>)
    requires fs.Valid() && Inv(fs.world)
    requires |files| == |data| == |fds| == |outgoing| && Distinct(fds) && Distinct(files)
    requires forall j :: 0 <= j < |files| ==> CleanWrites(outgoing[j]) && fds[j] !in s0.open && files[j] in s0.published
    requires Session(s0, Abs(fs.world), files, fds, data, 0, |files|)
    modifies fs
    ensures fs.Valid() && Inv(fs.world) && Session(s0, Abs(fs.world), files, fds, data, |files|, |files|)
  {
    var i := 0;
    while i < |files|
      invariant i <= |files| && fs.Valid() && Inv(fs.world)
      invariant Session(s0, Abs(fs.world), files, fds, data, i, |files|)
    {
      CloseNext(fs, files, fds, i, outgoing[i], s0, data);
      i := i + 1;
    }
  }

  /** The state of the second loop after `n` turns. */
  ghost predicate Poking(s0: Spec, w: World, files: seq<Path>, fds: seq<Fd>, data: seq<Bytes>,
                         rolls: seq<Roll>, n: nat, now: seq<Bytes>)
  {
    && Inv(w) && n <= |rolls| && |files| == |data| == |fds| == MAX_FILES && Distinct(fds)
    && (forall j :: 0 <= j < MAX_FILES ==> fds[j] !in s0.open && data[j] != [])
    && IsPoked(data, rolls, n, now) && Session(s0, Abs(w), files, fds, now, 0, MAX_FILES)
  }

  method PokeNext(fs: Scpfs, fds: seq<Fd>, rolls: seq<Roll>, i: nat, ghost s0: Spec, ghost files: seq<Path>,
                  ghost data: seq<Bytes>, ghost now: seq<Bytes>)
    returns (ghost now': seq<Bytes>)
    requires fs.Valid() && i < |rolls| && Poking(s0, fs.world, files, fds, data, rolls, i, now)
    modifies fs
    ensures fs.Valid() && Poking(s0, fs.world, files, fds, data, rolls, i + 1, now')
  {
    PokedLengths(data, rolls, i, now);
    PokedMore(data, rolls, i, now);
    now' := PokeOne(now, rolls[i]);
    PokeOnce(fs, fds, rolls[i], s0, files, now);
  }

  /** The second loop of the client. */
  method PokeAll(fs: Scpfs, fds: seq<Fd>, rolls: seq<Roll>, ghost s0: Spec, ghost files: seq<Path>,
                 ghost data: seq<Bytes>)
    returns (ghost now: seq<Bytes>)
    requires fs.Valid() && Poking(s0, fs.world, files, fds, data, rolls, 0, data)
    modifies fs
    ensures fs.Valid() && Poking(s0, fs.world, files, fds, data, rolls, |rolls|, now)
  {
    now := data;
    var i: nat := 0;
    while i < |rolls|
      invariant fs.Valid() && Poking(s0, fs.world, files, fds, data, rolls, i, now)
    {
      now := PokeNext(fs, fds, rolls, i, s0, files, data, now);
      i := i + 1;
    }
  }

  /** What the first loop leaves for the others. */
  lemma OpeningDone(w0: World, w: World, files: seq<Path>, locals: seq<LocalOpen>, fds: seq<Fd>, data: seq<Bytes>)
    requires |files| == |data| == |locals| && Opening(w0, w, files, locals, fds, data, |files|)
    ensures |fds| == |files| && Distinct(fds) && Inv(w)
    ensures forall j :: 0 <= j < |fds| ==> fds[j] !in Abs(w0).open
    ensures Session(Abs(w0), Abs(w), files, fds, data, 0, |files|)
  {
  }

  lemma OpeningStart(w: World, files: seq<Path>, locals: seq<LocalOpen>, data: seq<Bytes>)
    requires Inv(w) && |files| == |data| == |locals| && Fresh(w, locals, 0) && Free(Abs(w), files, 0)
    ensures Opening(w, w, files, locals, [], data, 0)
  {
  }

  /** The last two loops: all files edited, all closed. */
  method EditAndClose(fs: Scpfs, files: seq<Path>, fds: seq<Fd>, rolls: seq<Roll>, outgoing: seq<seq<WriteEvent>>,
                      ghost s0: Spec, ghost data: seq<Bytes>)
    returns (ghost now: seq<Bytes>)
    requires fs.Valid() && Inv(fs.world)
    requires |files| == |data| == |fds| == |outgoing| == MAX_FILES && Distinct(fds) && Distinct(files)
    requires forall j :: 0 <= j < MAX_FILES ==>
               CleanWrites(outgoing[j]) && fds[j] !in s0.open && files[j] in s0.published && data[j] != []
    requires Session(s0, Abs(fs.world), files, fds, data, 0, MAX_FILES)
    modifies fs
    ensures fs.Valid() && Inv(fs.world)
    ensures IsPoked(data, rolls, |rolls|, now)
    ensures Session(s0, Abs(fs.world), files, fds, now, MAX_FILES, MAX_FILES)
  {
    now := PokeAll(fs, fds, rolls, s0, files, data);
    CloseFiles(fs, files, fds, outgoing, s0, now);
  }

  /** The whole client, for any number of rolls. The six files exist, are not empty and not
      open. If none is refused, the server ends up with each file edited by its own rolls in
      order and of its old size, all other files and open files as they were; if one is,
      the client gives up and the server is untouched. */
  method Workload(fs: Scpfs, files: seq<Path>, rolls: seq<Roll>, refused: nat, locals: seq<LocalOpen>,
                  incoming: seq<seq<ReadEvent>>, outgoing: seq<seq<WriteEvent>>)
    returns (code: int)
    requires fs.Valid() && Inv(fs.world)
    requires |files| == |locals| == |incoming| == |outgoing| == MAX_FILES && Distinct(files)
    requires Fresh(fs.world, locals, 0) && Free(Abs(fs.world), files, 0)
    requires forall i :: 0 <= i < MAX_FILES ==> CleanReads(incoming[i]) && CleanWrites(outgoing[i])
    requires forall i :: 0 <= i < MAX_FILES ==> files[i] in fs.world.remote && fs.world.remote[files[i]] != []
    modifies fs
    ensures fs.Valid() && Inv(fs.world)
    ensures code == if refused < MAX_FILES then 1 else 0
    ensures code == 1 ==> fs.world.remote == old(fs.world).remote
    ensures code == 0 ==> Abs(fs.world).open == Abs(old(fs.world)).open
    ensures code == 0 ==> forall j :: 0 <= j < MAX_FILES ==>
              && files[j] in fs.world.remote
              && fs.world.remote[files[j]] == Poked(old(fs.world).remote[files[j]], rolls, |rolls|, j)
              && |fs.world.remote[files[j]]| == |old(fs.world).remote[files[j]]|
    ensures code == 0 ==> fs.world.remote.Keys == old(fs.world).remote.Keys
    ensures code == 0 ==> forall q :: q in old(fs.world).remote && q !in files ==>
              fs.world.remote[q] == old(fs.world).remote[q]
  {
    ghost var w0, s0 := fs.world, Abs(fs.world);
    ghost var data := seq(MAX_FILES, j requires 0 <= j < MAX_FILES => w0.remote[files[j]]);
    OpeningStart(w0, files, locals, data);
    var fds, ok := OpenFiles(fs, files, refused, locals, incoming, data);
    if !ok {
      return 1;
    }
    OpeningDone(w0, fs.world, files, locals, fds, data);
    ghost var now := EditAndClose(fs, files, fds, rolls, outgoing, s0, data);
    AllClosed(s0, Abs(fs.world), files, fds, now);
    code := 0;
  }
}
