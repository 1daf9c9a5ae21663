/** Open and release told by the sizes of the chunks alone: what each turn of the two copy
    loops moves, what an error or a short write ends, and what a loss leaves out. */
module Chunks {
  import opened Posix
  import opened Transfer
  import opened CacheModel

  function Sum(ns: seq<nat>): nat {
    if ns == [] then 0 else ns[0] + Sum(ns[1..])
  }

  predicate Sized(ns: seq<nat>, limit: nat) {
    forall i :: 0 <= i < |ns| ==> 1 <= ns[i] <= limit
  }

  // ----- Open

  /** `sftp_read` returns these sizes one after the other, and each chunk is stored. */
  function Deliveries(ns: seq<nat>): seq<ReadEvent> {
    if ns == [] then [] else [Deliver(ns[0], 0)] + Deliveries(ns[1..])
  }

  lemma DeliveriesCons(ns: seq<nat>, rest: seq<ReadEvent>)
    requires ns != []
    ensures Deliveries(ns) + rest == [Deliver(ns[0], 0)] + (Deliveries(ns[1..]) + rest)
  {
    Rebracket([Deliver(ns[0], 0)], Deliveries(ns[1..]), rest);
  }

  /** One turn: the chunk that was offered, and the rest of it that was stored. */
  lemma DownloadOne(total: nat, got: nat, n: nat, stored: nat, rest: seq<ReadEvent>)
    requires 1 <= n <= 8192 && stored <= n && got + n <= total
    ensures stored == n ==>
              Download(total, got, [Deliver(n, n - stored)] + rest) == Download(total, got + n, rest)
    ensures stored < n ==> Download(total, got, [Deliver(n, n - stored)] + rest) == Unstored(got + stored)
  {
    var events := [Deliver(n, n - stored)] + rest;
    assert NextRead(events) == Deliver(n, n - stored) && Later(events) == rest;
    DownloadTurn(total, got, events, n, stored);
  }

  lemma {:induction false} DownloadChunks(total: nat, got: nat, ns: seq<nat>, rest: seq<ReadEvent>, end: nat)
    requires Sized(ns, 8192) && end == got + Sum(ns) <= total
    ensures Download(total, got, Deliveries(ns) + rest) == Download(total, end, rest)
    decreases |ns|
  {
    if ns == [] {
      assert Deliveries(ns) + rest == rest;
    } else {
      assert Sized(ns[1..], 8192);
      DownloadChunks(total, got + ns[0], ns[1..], rest, end);
      DownloadMore(total, got, ns, rest);
    }
  }

  lemma DownloadMore(total: nat, got: nat, ns: seq<nat>, rest: seq<ReadEvent>)
    requires ns != [] && 1 <= ns[0] <= 8192 && got + Sum(ns) <= total
    ensures Download(total, got, Deliveries(ns) + rest)
         == Download(total, got + ns[0], Deliveries(ns[1..]) + rest)
  {
    DeliveriesCons(ns, rest);
    DownloadOne(total, got, ns[0], ns[0], Deliveries(ns[1..]) + rest);
  }

  lemma DownloadError(total: nat, got: nat, rest: seq<ReadEvent>)
    requires got <= total
    ensures Download(total, got, [ReadError] + rest) == ReadFailed(got)
  {
  }

  /** Chunks of any sizes and then a read error: open succeeds, and the local copy is exactly
      what had been received. */
  lemma ReceivedChunks(w: World, p: Path, local: LocalOpen, ns: seq<nat>, rest: seq<ReadEvent>)
    requires WellFormed(w) && FreshLocal(w, local) && local.Local? && p in w.remote
    requires Sized(ns, 8192) && Sum(ns) <= |w.remote[p]|
    ensures var (w', r) := StepOpen(w, p, true, local, Deliveries(ns) + [ReadError] + rest);
            && r == Opened(local.fd) && w'.over == w.over && w'.remote == w.remote
            && local.fd in w'.handles && w'.handles[local.fd] == p
            && p in w'.names && w'.fds[local.fd] == OpenFile(w'.names[p], true)
            && w'.inodes[w'.names[p]] == w.remote[p][..Sum(ns)]
  {
    var total := |w.remote[p]|;
    Rebracket(Deliveries(ns), [ReadError], rest);
    DownloadChunks(total, 0, ns, [ReadError] + rest, Sum(ns));
    DownloadError(total, Sum(ns), rest);
  }

  lemma Rebracket<T>(a: seq<T>, b: seq<T>, c: seq<T>)
    ensures a + b + c == a + (b + c)
  {
  }

  /** Chunks of any sizes and then one of which the local write stores less: open fails, the
      session is over, no handle is left, and the local copy keeps what was stored. */
  lemma ShortChunk(w: World, p: Path, local: LocalOpen, ns: seq<nat>, n: nat, stored: nat, rest: seq<ReadEvent>)
    requires WellFormed(w) && FreshLocal(w, local) && local.Local? && p in w.remote
    requires Sized(ns, 8192) && 1 <= n <= 8192 && stored < n && Sum(ns) + n <= |w.remote[p]|
    ensures var (w', r) := StepOpen(w, p, true, local, Deliveries(ns) + [Deliver(n, n - stored)] + rest);
            && r == Failed && w'.over && w'.remote == w.remote && w'.fds == w.fds && w'.handles == w.handles
            && p in w'.names && w'.names[p] in w'.inodes
            && w'.inodes[w'.names[p]] == w.remote[p][..Sum(ns) + stored]
  {
    var total, last := |w.remote[p]|, [Deliver(n, n - stored)];
    Rebracket(Deliveries(ns), last, rest);
    DownloadChunks(total, 0, ns, last + rest, Sum(ns));
    DownloadOne(total, Sum(ns), n, stored, rest);
    Stopped(w, p, local, Deliveries(ns) + last + rest, Sum(ns) + stored);
  }

  lemma Stopped(w: World, p: Path, local: LocalOpen, incoming: seq<ReadEvent>, kept: nat)
    requires WellFormed(w) && FreshLocal(w, local) && local.Local? && p in w.remote && kept <= |w.remote[p]|
    requires Download(|w.remote[p]|, 0, incoming) == Unstored(kept)
    ensures var (w', r) := StepOpen(w, p, true, local, incoming);
            && r == Failed && w'.over && w'.remote == w.remote && w'.fds == w.fds && w'.handles == w.handles
            && p in w'.names && w'.names[p] in w'.inodes && w'.inodes[w'.names[p]] == w.remote[p][..kept]
  {
    var w' := StepOpen(w, p, true, local, incoming).0;
    assert p in w'.names && w'.names[p] == Target(w, p, local.ino);
    assert Referenced(w'.names[p], w'.names, w'.fds);
  }

  lemma {:induction false} DeliveriesClean(ns: seq<nat>)
    ensures CleanReads(Deliveries(ns))
  {
    if ns != [] {
      DeliveriesClean(ns[1..]);
    }
  }

  lemma {:induction false} SendsClean(ns: seq<nat>, losts: seq<nat>)
    requires |ns| == |losts| && forall i :: 0 <= i < |losts| ==> losts[i] == 0
    ensures CleanWrites(Sends(ns, losts))
    decreases |ns|
  {
    if ns != [] {
      SendsClean(ns[1..], losts[1..]);
    }
  }

  /** Chunks of any sizes and no error: the local copy is the whole file. */
  lemma AllChunks(w: World, p: Path, local: LocalOpen, ns: seq<nat>)
    requires WellFormed(w) && FreshLocal(w, local) && local.Local? && p in w.remote
    requires Sized(ns, 8192) && Sum(ns) == |w.remote[p]|
    ensures var (w', r) := StepOpen(w, p, true, local, Deliveries(ns));
            r == Opened(local.fd) && p in w'.names && w'.inodes[w'.names[p]] == w.remote[p]
    ensures CleanReads(Deliveries(ns))
  {
    DeliveriesClean(ns);
    assert Deliveries(ns) + [] == Deliveries(ns);
    DownloadChunks(|w.remote[p]|, 0, ns, [], Sum(ns));
    assert w.remote[p][..|w.remote[p]|] == w.remote[p];
  }

  /** A turn of the download that the loop reaches stores less than it was given. A read
      error is no such turn; it ends the loop. */
  predicate FallsShort(left: nat, events: seq<ReadEvent>)
    decreases left
  {
    0 < left &&
    match NextRead(events)
    case ReadError => false
    case Deliver(_, lost) => 0 < lost || FallsShort(left - ReadResult(NextRead(events), left), Later(events))
  }

  lemma {:induction false} DownloadStores(total: nat, got: nat, events: seq<ReadEvent>)
    requires got <= total
    ensures Download(total, got, events).Unstored? <==> FallsShort(total - got, events)
    decreases total - got
  {
    var n := ReadResult(NextRead(events), total - got);
    if 0 < n && Kept(n, NextRead(events).lost) == n {
      DownloadStores(total, got + n, Later(events));
    }
  }

  /** Where the server lets it in and there is a local file, open succeeds if and only if no
      local write falls short. */
  lemma OpensUnlessShort(w: World, p: Path, local: LocalOpen, incoming: seq<ReadEvent>)
    requires WellFormed(w) && FreshLocal(w, local) && local.Local? && p in w.remote
    ensures var r := StepOpen(w, p, true, local, incoming).1;
            && (r == Opened(local.fd) <==> !FallsShort(|w.remote[p]|, incoming))
            && (r == Failed <==> FallsShort(|w.remote[p]|, incoming))
  {
    DownloadStores(|w.remote[p]|, 0, incoming);
  }

  // ----- Release

  /** `readsome` returns these sizes one after the other, and `sftp_write` loses the last
      `losts[i]` bytes of the chunk. */
  function Sends(ns: seq<nat>, losts: seq<nat>): seq<WriteEvent>
    requires |ns| == |losts|
  {
    if ns == [] then [] else [Send(ns[0], losts[0])] + Sends(ns[1..], losts[1..])
  }

  /** What arrives: of each chunk what is not lost, in order, and behind the last one all
      the rest. */
  function Arrives(data: Bytes, ns: seq<nat>, losts: seq<nat>): Bytes
    requires |ns| == |losts| && Sum(ns) <= |data|
  {
    if ns == [] then data
    else data[..if losts[0] < ns[0] then ns[0] - losts[0] else 0] + Arrives(data[ns[0]..], ns[1..], losts[1..])
  }

  lemma UploadOne(data: Bytes, sent: nat, image: Bytes, n: nat, lost: nat, rest: seq<WriteEvent>)
    requires 1 <= n <= 1024 && sent + n <= |data|
    ensures UploadFrom(data, sent, image, [Send(n, lost)] + rest)
         == UploadFrom(data, sent + n, image + data[sent..sent + if lost < n then n - lost else 0], rest)
  {
    var events := [Send(n, lost)] + rest;
    assert NextWrite(events) == Send(n, lost) && Later(events) == rest;
    UploadTurn(data, sent, image, events, n, if lost < n then n - lost else 0);
  }

  lemma UploadRest(data: Bytes, sent: nat, image: Bytes)
    requires sent <= |data|
    ensures UploadFrom(data, sent, image, []) == image + data[sent..]
  {
    CleanNeverDrops(|data| - sent, []);
    UploadFromExact(data, sent, image, []);
  }

  lemma ArrivesFirst(data: Bytes, sent: nat, image: Bytes, ns: seq<nat>, losts: seq<nat>, kept: nat)
    requires |ns| == |losts| && ns != [] && sent + Sum(ns) <= |data|
    requires kept == if losts[0] < ns[0] then ns[0] - losts[0] else 0
    ensures image + Arrives(data[sent..], ns, losts)
         == (image + data[sent..sent + kept]) + Arrives(data[sent + ns[0]..], ns[1..], losts[1..])
  {
    assert data[sent..][ns[0]..] == data[sent + ns[0]..];
    assert data[sent..][..kept] == data[sent..sent + kept];
    Rebracket(image, data[sent..sent + kept], Arrives(data[sent + ns[0]..], ns[1..], losts[1..]));
  }

  lemma {:induction false} UploadChunks(data: Bytes, sent: nat, image: Bytes, ns: seq<nat>, losts: seq<nat>)
    requires |ns| == |losts| && Sized(ns, 1024) && sent + Sum(ns) <= |data|
    ensures UploadFrom(data, sent, image, Sends(ns, losts)) == image + Arrives(data[sent..], ns, losts)
    decreases |ns|
  {
    if ns == [] {
      UploadRest(data, sent, image);
    } else {
      assert Sized(ns[1..], 1024);
      var kept := if losts[0] < ns[0] then ns[0] - losts[0] else 0;
      UploadChunks(data, sent + ns[0], image + data[sent..sent + kept], ns[1..], losts[1..]);
      UploadMore(data, sent, image, ns, losts, kept);
      ArrivesFirst(data, sent, image, ns, losts, kept);
    }
  }

  lemma UploadMore(data: Bytes, sent: nat, image: Bytes, ns: seq<nat>, losts: seq<nat>, kept: nat)
    requires |ns| == |losts| && ns != [] && 1 <= ns[0] <= 1024 && sent + Sum(ns) <= |data|
    requires kept == if losts[0] < ns[0] then ns[0] - losts[0] else 0
    ensures UploadFrom(data, sent, image, Sends(ns, losts))
         == UploadFrom(data, sent + ns[0], image + data[sent..sent + kept], Sends(ns[1..], losts[1..]))
  {
    UploadOne(data, sent, image, ns[0], losts[0], Sends(ns[1..], losts[1..]));
  }

  /** Chunks of any sizes and any losses: what is published is what arrives of the file found
      by name. */
  lemma SentChunks(w: World, p: Path, fd: Fd, ns: seq<nat>, losts: seq<nat>, done: bool)
    requires WellFormed(w) && fd in w.handles && p in w.names
    requires |ns| == |losts| && Sized(ns, 1024) && Sum(ns) <= |w.inodes[w.names[p]]|
    ensures StepRelease(w, p, fd, true, Sends(ns, losts), done).0.remote
         == w.remote[p := Arrives(w.inodes[w.names[p]], ns, losts)]
    ensures (forall i :: 0 <= i < |losts| ==> losts[i] == 0) ==> CleanWrites(Sends(ns, losts))
  {
    if forall i :: 0 <= i < |losts| ==> losts[i] == 0 {
      SendsClean(ns, losts);
    }
    var data := w.inodes[w.names[p]];
    assert data[0..] == data;
    UploadChunks(data, 0, [], ns, losts);
    assert [] + Arrives(data, ns, losts) == Arrives(data, ns, losts);
  }
}
