/** The two copy loops of the cache, seen through the answers the environment gives to
    them: `scpfs_open` fills the local file from `sftp_read`, `scpfs_release` feeds
    `sftp_write` from the local file. A list of events drives each loop; once the list
    is used up the environment answers with full buffers and loses nothing. */
module Transfer {
  import opened Posix

  const READ_BUFFER := 8192
  const WRITE_BUFFER := 1024

  /** One turn of the download: `sftp_read` offers about `want` bytes and the local
      `write` fails to store the last `lost` of them, or `sftp_read` reports an error. */
  datatype ReadEvent = Deliver(want: nat, lost: nat) | ReadError

  /** One turn of the upload: `readsome` offers about `want` bytes and `sftp_write`,
      whose result nobody looks at, drops the last `lost` of them. */
  datatype WriteEvent = Send(want: nat, lost: nat)

  function NextRead(events: seq<ReadEvent>): ReadEvent {
    if events == [] then Deliver(READ_BUFFER, 0) else events[0]
  }

  function NextWrite(events: seq<WriteEvent>): WriteEvent {
    if events == [] then Send(WRITE_BUFFER, 0) else events[0]
  }

  function Later<T>(events: seq<T>): seq<T> {
    if events == [] then [] else events[1..]
  }

  /** Any non-empty chunk that fits both the buffer and what is left can be asked for. */
  function ChunkSize(want: nat, buffer: nat, left: nat): (n: nat)
    requires 0 < buffer && 0 < left
    ensures 1 <= n <= buffer && n <= left
  {
    Min(if want == 0 then 1 else want, Min(buffer, left))
  }

  /** The return value of `sftp_read`: -1 on error, 0 at the end, else a chunk size. */
  function ReadResult(event: ReadEvent, left: nat): (n: int)
    ensures -1 <= n <= READ_BUFFER && n <= left
    ensures n == 0 <==> event.Deliver? && left == 0
    ensures n == -1 <==> event.ReadError?
  {
    match event
    case ReadError => -1
    case Deliver(want, _) => if left == 0 then 0 else ChunkSize(want, READ_BUFFER, left)
  }

  /** The return value of `readsome` on a regular file: 0 exactly at the end. */
  function SomeResult(event: WriteEvent, left: nat): (n: nat)
    ensures n <= WRITE_BUFFER && n <= left
    ensures n == 0 <==> left == 0
  {
    if left == 0 then 0 else ChunkSize(event.want, WRITE_BUFFER, left)
  }

  /** What an I/O call that loses `lost` of `n` bytes gets through. */
  function Kept(n: nat, lost: nat): (k: nat)
    ensures k <= n
    ensures k == n <==> n == 0 || lost == 0
  {
    n - Min(n, lost)
  }

  /** The events leave nothing out: `sftp_read` can return any chunk size up to 8192 that the
      file has left, `readsome` any up to 1024, and any part of the chunk can get through. */
  lemma AnyChunk(n: nat, k: nat, left: nat)
    requires 1 <= n <= left && k <= n
    ensures n <= 8192 ==> ReadResult(Deliver(n, n - k), left) == n
    ensures n <= 1024 ==> SomeResult(Send(n, n - k), left) == n
    ensures Kept(n, n - k) == k
  {
  }

  /** How a download of `total` bytes ends: at the end of the file, on a read error the
      loop takes for the end, or on a short local write, with `kept` bytes stored. */
  datatype Ending = EndOfFile(kept: nat) | ReadFailed(kept: nat) | Unstored(kept: nat)

  function Download(total: nat, got: nat, events: seq<ReadEvent>): (e: Ending)
    requires got <= total
    ensures got <= e.kept <= total
    ensures e.EndOfFile? ==> e.kept == total
    decreases total - got
  {
    var n := ReadResult(NextRead(events), total - got);
    if n < 0 then ReadFailed(got)
    else if n == 0 then EndOfFile(got)
    else if Kept(n, NextRead(events).lost) == n then Download(total, got + n, Later(events))
    else Unstored(got + Kept(n, NextRead(events).lost))
  }

  /** The bytes the remote file ends up with when it holds `image` and the loop has `data`
      from position `sent` on still to go through. */
  function UploadFrom(data: Bytes, sent: nat, image: Bytes, events: seq<WriteEvent>): (final: Bytes)
    requires sent <= |data|
    ensures |image| <= |final| <= |image| + (|data| - sent)
    decreases |data| - sent
  {
    var n := SomeResult(NextWrite(events), |data| - sent);
    if n == 0 then
      image
    else
      UploadFrom(data, sent + n, image + data[sent..sent + Kept(n, NextWrite(events).lost)], Later(events))
  }

  function Upload(data: Bytes, events: seq<WriteEvent>): Bytes {
    UploadFrom(data, 0, [], events)
  }

  /** One turn of the upload. */
  lemma UploadTurn(data: Bytes, sent: nat, image: Bytes, events: seq<WriteEvent>, n: nat, kept: nat)
    requires sent <= |data| && n == SomeResult(NextWrite(events), |data| - sent) && 0 < n
    requires kept == Kept(n, NextWrite(events).lost)
    ensures UploadFrom(data, sent, image, events)
         == UploadFrom(data, sent + n, image + data[sent..sent + kept], Later(events))
  {
  }

  /** One turn of the download. */
  lemma DownloadTurn(total: nat, got: nat, events: seq<ReadEvent>, n: nat, kept: nat)
    requires got <= total && n == ReadResult(NextRead(events), total - got) && 0 < n
    requires kept == Kept(n, NextRead(events).lost)
    ensures kept == n ==> Download(total, got, events) == Download(total, got + n, Later(events))
    ensures kept < n ==> Download(total, got, events) == Unstored(got + kept)
  {
  }

  predicate CleanReads(events: seq<ReadEvent>) {
    forall e :: e in events ==> e.Deliver? && e.lost == 0
  }

  predicate CleanWrites(events: seq<WriteEvent>) {
    forall e :: e in events ==> e.lost == 0
  }

  /** With no error, every split of the file into chunks reaches the end of the file. */
  lemma {:induction false} CleanDownload(total: nat, got: nat, events: seq<ReadEvent>)
    requires got <= total && CleanReads(events)
    ensures Download(total, got, events) == EndOfFile(total)
    decreases total - got
  {
    var n := ReadResult(NextRead(events), total - got);
    if 0 < n {
      CleanDownload(total, got + n, Later(events));
    }
  }

  /** An error or a short local write hits the download before it has everything. */
  predicate BreaksOff(left: nat, events: seq<ReadEvent>)
    decreases left
  {
    0 < left &&
    match NextRead(events)
    case ReadError => true
    case Deliver(_, lost) => 0 < lost || BreaksOff(left - ReadResult(NextRead(events), left), Later(events))
  }

  /** Exactly then the local file is not the whole remote file. An error after the last
      byte does no harm, although the loop mistakes every error for the end of the file. */
  lemma {:induction false} DownloadExact(total: nat, got: nat, events: seq<ReadEvent>)
    requires got <= total
    ensures Download(total, got, events).kept == total <==> !BreaksOff(total - got, events)
    decreases total - got
  {
    var n := ReadResult(NextRead(events), total - got);
    if 0 < n && Kept(n, NextRead(events).lost) == n {
      DownloadExact(total, got + n, Later(events));
    }
  }

  /** Some turn of the upload that the loop really reaches drops bytes. */
  predicate Drops(left: nat, events: seq<WriteEvent>)
    decreases left
  {
    0 < left &&
    var n := SomeResult(NextWrite(events), left);
    (0 < NextWrite(events).lost || Drops(left - n, Later(events)))
  }

  lemma {:induction false} UploadFromExact(data: Bytes, sent: nat, image: Bytes, events: seq<WriteEvent>)
    requires sent <= |data|
    ensures UploadFrom(data, sent, image, events) == image + data[sent..] <==> !Drops(|data| - sent, events)
    ensures Drops(|data| - sent, events) ==> |UploadFrom(data, sent, image, events)| < |image| + (|data| - sent)
    decreases |data| - sent
  {
    var n := SomeResult(NextWrite(events), |data| - sent);
    if n != 0 {
      var k := Kept(n, NextWrite(events).lost);
      UploadFromExact(data, sent + n, image + data[sent..sent + k], Later(events));
      if k == n {
        assert image + data[sent..sent + n] + data[sent + n..] == image + data[sent..];
      }
    }
  }

  lemma NothingSentYet(data: Bytes)
    ensures [] + data[0..] == data
  {
  }

  /** The published bytes are the local bytes exactly when no write dropped anything:
      because the result of `sftp_write` is ignored, nothing else makes up for a loss. */
  lemma UploadExact(data: Bytes, events: seq<WriteEvent>)
    ensures Upload(data, events) == data <==> !Drops(|data|, events)
  {
    NothingSentYet(data);
    UploadFromExact(data, 0, [], events);
  }

  lemma {:induction false} CleanNeverDrops(left: nat, events: seq<WriteEvent>)
    requires CleanWrites(events)
    ensures !Drops(left, events)
    decreases left
  {
    if 0 < left {
      CleanNeverDrops(left - SomeResult(NextWrite(events), left), Later(events));
    }
  }

  lemma CleanUpload(data: Bytes, events: seq<WriteEvent>)
    requires CleanWrites(events)
    ensures Upload(data, events) == data
  {
    CleanNeverDrops(|data|, events);
    UploadExact(data, events);
  }
}
