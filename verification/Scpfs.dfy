/** The callbacks of `ulfs/scpfs.cpp`, line by line, over the system calls they make.
    Each is proved to have exactly the net effect `Step` gives it on every exit, and to
    leave no remote file or directory open behind it. */
module Scpfs {
  import opened Maps
  import opened Posix
  import opened Transfer
  import opened CacheModel
  import opened Directory

  /** One more chunk makes the local file one more chunk of the remote one's prefix. */
  lemma Appended(inodes: map<Ino, Bytes>, ino: Ino, data: Bytes, got: nat, n: nat, k: nat)
    requires got + n <= |data| && k <= n
    ensures inodes[ino := data[..got]][ino := data[..got] + data[got..got + n][..k]] == inodes[ino := data[..got + k]]
  {
    assert data[..got] + data[got..got + n][..k] == data[..got + k];
  }

  /** What a write of the first `kept` bytes of a chunk adds to the remote file. */
  lemma Sent(remote: map<Path, Bytes>, p: Path, image: Bytes, data: Bytes, sent: nat, n: nat, kept: nat)
    requires sent + n <= |data| && kept <= n
    ensures remote[p := image][p := image + data[sent..sent + n][..kept]]
         == remote[p := image + data[sent..sent + kept]]
  {
    assert data[sent..sent + n][..kept] == data[sent..sent + kept];
  }

  /** Closing and then removing reaps what doing both at once reaps. */
  lemma ReapTwice(w: World, p: Path, fd: Fd)
    ensures Reap(Reap(w.inodes, w.names, w.fds - {fd}), w.names - {p}, w.fds - {fd})
         == Reap(w.inodes, w.names - {p}, w.fds - {fd})
    ensures p !in w.names ==> w.names - {p} == w.names
  {
    forall i | Referenced(i, w.names - {p}, w.fds - {fd})
      ensures Referenced(i, w.names, w.fds - {fd})
    {
      if q :| q in w.names - {p} && (w.names - {p})[q] == i {
        assert w.names[q] == i;
      }
    }
  }

  /** `world` is the state the callbacks share; `openRemote` holds the `sftp_file` and
      `sftp_dir` objects that are open right now. */
  class Scpfs {
    var world: World
    var openRemote: set<nat>
    var nextRemote: nat

    ghost predicate Valid()
      reads this
    {
      && WellFormed(world)
      && forall h :: h in openRemote ==> h < nextRemote
    }

    constructor (store: map<Path, Bytes>)
      ensures Valid() && world == Start(store) && openRemote == {}
    {
      world, openRemote, nextRemote := Start(store), {}, 0;
    }

    // ----- libssh

    /** A successful sftp_open or sftp_opendir. */
    method SftpOpened() returns (h: nat)
      requires Valid()
      modifies `openRemote, `nextRemote
      ensures Valid() && h !in old(openRemote) && openRemote == old(openRemote) + {h}
    {
      h := nextRemote;
      nextRemote := nextRemote + 1;
      openRemote := openRemote + {h};
    }

    /** sftp_read from an open file on `p` whose offset is `pos`. */
    method SftpRead(h: nat, p: Path, pos: nat, event: ReadEvent) returns (n: int, buffer: Bytes)
      requires h in openRemote && p in world.remote && pos <= |world.remote[p]|
      ensures n == ReadResult(event, |world.remote[p]| - pos)
      ensures 0 <= n ==> buffer == world.remote[p][pos..pos + n]
    {
      n := ReadResult(event, |world.remote[p]| - pos);
      buffer := if 0 <= n then world.remote[p][pos..pos + n] else [];
    }

    /** sftp_write at the end of an open file on `p`. */
    method SftpWrite(h: nat, p: Path, buffer: Bytes, lost: nat) returns (n: nat)
      requires h in openRemote && p in world.remote
      modifies `world
      ensures n == Kept(|buffer|, lost)
      ensures world == old(world).(remote := world.remote)
      ensures world.remote == old(world).remote[p := old(world).remote[p] + buffer[..n]]
    {
      n := Kept(|buffer|, lost);
      OverwriteAppends(world.remote[p], buffer[..n]);
      world := world.(remote := world.remote[p := Overwrite(world.remote[p], |world.remote[p]|, buffer[..n])]);
    }

    /** Serves sftp_close and sftp_closedir: closing what is not open is out of contract. */
    method SftpClose(h: nat)
      requires h in openRemote
      modifies `openRemote
      ensures openRemote == old(openRemote) - {h}
    {
      openRemote := openRemote - {h};
    }

    // ----- System calls on the cache directory

    /** open(2) with O_CREAT | O_TRUNC. */
    method OpenTruncated(p: Path, local: LocalOpen, readable: bool) returns (fd: int)
      requires WellFormed(world) && FreshLocal(world, local)
      modifies `world
      ensures local.NoLocal? ==> fd == -1 && world == old(world)
      ensures local.Local? ==> fd == local.fd
      ensures local.Local? ==>
                var w := SetLocal(old(world), p, local.ino, []);
                world == w.(fds := w.fds[local.fd := OpenFile(Target(old(world), p, local.ino), readable)])
    {
      match local
      case NoLocal =>
        fd := -1;
      case Local(f, ino) =>
        var i := if p in world.names then world.names[p] else ino;
        world := world.(names := world.names[p := i], inodes := world.inodes[i := []]);
        world := world.(fds := world.fds[f := OpenFile(i, readable)]);
        fd := f;
    }

    /** pwrite(2). */
    method WriteAt(fd: Fd, pos: nat, buffer: Bytes, lost: nat) returns (n: nat)
      requires fd in world.fds && world.fds[fd].ino in world.inodes
      modifies `world
      ensures n == Kept(|buffer|, lost)
      ensures world == old(world).(inodes := world.inodes)
      ensures var w, i := old(world), old(world).fds[fd].ino;
              world.inodes == w.inodes[i := Overwrite(w.inodes[i], pos, buffer[..n])]
    {
      n := Kept(|buffer|, lost);
      var i := world.fds[fd].ino;
      world := world.(inodes := world.inodes[i := Overwrite(world.inodes[i], pos, buffer[..n])]);
    }

    /** write(2) through a descriptor whose position is the end of the file, as it is after
        any number of such writes to an emptied file. */
    method WriteNext(fd: Fd, buffer: Bytes, lost: nat) returns (n: nat)
      requires fd in world.fds && world.fds[fd].ino in world.inodes
      modifies `world
      ensures n == Kept(|buffer|, lost)
      ensures world == old(world).(inodes := world.inodes)
      ensures var w, i := old(world), old(world).fds[fd].ino;
              world.inodes == w.inodes[i := w.inodes[i] + buffer[..n]]
    {
      ghost var data := world.inodes[world.fds[fd].ino];
      n := WriteAt(fd, |world.inodes[world.fds[fd].ino]|, buffer, lost);
      OverwriteAppends(data, buffer[..n]);
    }

    method Close(fd: Fd)
      requires fd in world.fds
      modifies `world
      ensures var w, fds := old(world), old(world).fds - {fd};
              world == w.(fds := fds, inodes := Reap(w.inodes, w.names, fds))
    {
      world := world.(fds := world.fds - {fd});
      world := world.(inodes := Reap(world.inodes, world.names, world.fds));
    }

    /** unlink(2) and remove(3). */
    method Remove(p: Path, done: bool) returns (ok: bool)
      modifies `world
      ensures ok == (p in old(world).names && done)
      ensures var w, names := old(world), old(world).names - {p};
              world == if ok then w.(names := names, inodes := Reap(w.inodes, names, w.fds)) else w
    {
      ok := p in world.names && done;
      if ok {
        world := world.(names := world.names - {p});
        world := world.(inodes := Reap(world.inodes, world.names, world.fds));
      }
    }

    // ----- The callbacks

    method GetAttr(p: Path, served: bool) returns (r: Reply)
      requires Valid() && Legal(world, Call.GetAttr(p, served))
      ensures (world, r) == Step(world, Call.GetAttr(p, served))
    {
      if p in world.names {
        r := Size(|world.inodes[world.names[p]]|);
      } else {
        if p !in world.remote || !served {
          return Failed;
        }
        r := Size(|world.remote[p]|);
      }
    }

    method Create(p: Path, local: LocalOpen) returns (r: Reply)
      requires Valid() && Legal(world, Call.Create(p, local))
      modifies this
      ensures (world, r) == Step(old(world), Call.Create(p, local))
      ensures Valid() && openRemote == old(openRemote)
    {
      var fd := OpenTruncated(p, local, false);
      if fd == -1 {
        return Failed;
      }
      world := world.(handles := world.handles[fd := p]);
      r := Opened(fd);
    }

    method Open(p: Path, served: bool, local: LocalOpen, incoming: seq<ReadEvent>) returns (r: Reply)
      requires Valid() && Legal(world, Call.Open(p, served, local, incoming))
      modifies this
      ensures (world, r) == Step(old(world), Call.Open(p, served, local, incoming))
      ensures Valid() && openRemote == old(openRemote)
    {
      if p !in world.remote || !served {
        return Failed;
      }
      var remoteFile := SftpOpened();
      var localFile := OpenTruncated(p, local, true);
      if localFile == -1 {
        SftpClose(remoteFile);
        world := world.(over := true);
        return Failed;
      }

      var complete := ReceiveAll(remoteFile, p, localFile, incoming);
      ghost var data := world.remote[p][..Download(|world.remote[p]|, 0, incoming).kept];
      Rebind(old(world).inodes, Target(old(world), p, local.ino), [], data);
      if !complete {
        Close(localFile);
        Unbind(old(world).fds, localFile, OpenFile(Target(old(world), p, local.ino), true));
        SftpClose(remoteFile);
        world := world.(over := true);
        return Failed;
      }
      world := world.(handles := world.handles[localFile := p]);
      SftpClose(remoteFile);
      r := Opened(localFile);
    }

    /** The two calls of one turn of the download. */
    method ReceiveNext(remoteFile: nat, p: Path, localFile: Fd, got: nat, event: ReadEvent, ghost w: World)
      returns (bytesRead: int, bytesWritten: nat)
      requires remoteFile in openRemote && p in w.remote && localFile in w.fds && w.fds[localFile].ino in w.inodes
      requires got <= |w.remote[p]|
      requires world == w.(inodes := w.inodes[w.fds[localFile].ino := w.remote[p][..got]])
      modifies `world
      ensures bytesRead == ReadResult(event, |w.remote[p]| - got)
      ensures bytesWritten == if 0 < bytesRead then Kept(bytesRead, event.lost) else 0
      ensures world == w.(inodes := w.inodes[w.fds[localFile].ino := w.remote[p][..got + bytesWritten]])
    {
      var buffer;
      bytesRead, buffer := SftpRead(remoteFile, p, got, event);
      bytesWritten := 0;
      if 0 < bytesRead {
        bytesWritten := WriteNext(localFile, buffer, event.lost);
        Appended(w.inodes, w.fds[localFile].ino, w.remote[p], got, bytesRead, bytesWritten);
      }
    }

    /** The download loop of open: after every turn the local file is the prefix of the
        remote one received so far. The loop gives up on a short local write; a read error
        looks to it like the end of the file. */
    method ReceiveAll(remoteFile: nat, p: Path, localFile: Fd, incoming: seq<ReadEvent>) returns (complete: bool)
      requires remoteFile in openRemote && p in world.remote && localFile in world.fds
      requires var i := world.fds[localFile].ino; i in world.inodes && world.inodes[i] == []
      modifies `world
      ensures var w, ending := old(world), Download(|old(world).remote[p]|, 0, incoming);
              && complete == !ending.Unstored?
              && world == w.(inodes := w.inodes[w.fds[localFile].ino := w.remote[p][..ending.kept]])
    {
      ghost var w, ino, data := world, world.fds[localFile].ino, world.remote[p];
      Restate(w.inodes, ino);
      ghost var ending := Download(|data|, 0, incoming);
      var events := incoming;
      var got := 0;
      while true
        invariant got <= |data| && ending == Download(|data|, got, events)
        invariant world == w.(inodes := w.inodes[ino := data[..got]])
        decreases |data| - got
      {
        var bytesRead, bytesWritten := ReceiveNext(remoteFile, p, localFile, got, NextRead(events), w);
        if bytesRead <= 0 {
          break;
        }
        DownloadTurn(|data|, got, events, bytesRead, bytesWritten);
        if bytesWritten != bytesRead {
          return false;
        }
        got := got + bytesWritten;
        events := Later(events);
      }
      complete := true;
    }

    method Read(fd: Fd, offset: int, size: nat) returns (r: Reply)
      requires Valid() && Legal(world, Call.Read(fd, offset, size))
      ensures (world, r) == Step(world, Call.Read(fd, offset, size))
    {
      if !world.fds[fd].readable || offset < 0 {
        return Failed;
      }
      r := Data(ReadAt(world.inodes[world.fds[fd].ino], offset, size));
    }

    method Write(fd: Fd, offset: int, data: Bytes, accepted: int) returns (r: Reply)
      requires Valid() && Legal(world, Call.Write(fd, offset, data, accepted))
      modifies this
      ensures (world, r) == Step(old(world), Call.Write(fd, offset, data, accepted))
      ensures Valid() && openRemote == old(openRemote)
    {
      if offset < 0 || accepted < 0 {
        return Failed;
      }
      var res := WriteAt(fd, offset, data, |data| - accepted);
      r := Count(res);
    }

    method FTruncate(fd: Fd, length: int) returns (r: Reply)
      requires Valid() && Legal(world, Call.FTruncate(fd, length))
      modifies this
      ensures (world, r) == Step(old(world), Call.FTruncate(fd, length))
      ensures Valid() && openRemote == old(openRemote)
    {
      if length < 0 {
        return Failed;
      }
      var i := world.fds[fd].ino;
      world := world.(inodes := world.inodes[i := Resize(world.inodes[i], length)]);
      r := Done;
    }

    method FGetAttr(fd: Fd) returns (r: Reply)
      requires Valid() && Legal(world, Call.FGetAttr(fd))
      ensures (world, r) == Step(world, Call.FGetAttr(fd))
    {
      r := Size(|world.inodes[world.fds[fd].ino]|);
    }

    /** FUSE forgets the handle whatever release returns. */
    method Release(p: Path, fd: Fd, served: bool, outgoing: seq<WriteEvent>, done: bool) returns (r: Reply)
      requires Valid() && Legal(world, Call.Release(p, fd, served, outgoing, done))
      modifies this
      ensures (world, r) == Step(old(world), Call.Release(p, fd, served, outgoing, done))
      ensures Valid() && openRemote == old(openRemote)
    {
      world := world.(handles := world.handles - {fd});
      if !served {
        return Failed;
      }
      var remoteFile := SftpOpened();
      world := world.(remote := world.remote[p := []]);
      var localFile := if p in world.names then world.inodes[world.names[p]] else [];
      SendAll(remoteFile, p, localFile, outgoing);
      Rebind(old(world).remote, p, [], Upload(localFile, outgoing));
      SftpClose(remoteFile);

      Close(fd);
      var ok := Remove(p, done);
      ReapTwice(old(world), p, fd);
      r := if ok then Done else Failed;
    }

    /** The upload loop of release, from the file found by name. */
    method SendAll(remoteFile: nat, p: Path, localFile: Bytes, outgoing: seq<WriteEvent>)
      requires remoteFile in openRemote && p in world.remote && world.remote[p] == []
      modifies `world
      ensures world == old(world).(remote := old(world).remote[p := Upload(localFile, outgoing)])
    {
      ghost var w, image, final := world, [], Upload(localFile, outgoing);
      Restate(w.remote, p);
      var events := outgoing;
      var sent := 0;
      while true
        invariant sent <= |localFile| && final == UploadFrom(localFile, sent, image, events)
        invariant world == w.(remote := w.remote[p := image])
        decreases |localFile| - sent
      {
        var nbytes := SomeResult(NextWrite(events), |localFile| - sent);
        if nbytes <= 0 {
          break;
        }
        var buffer := localFile[sent..sent + nbytes];
        var kept := SftpWrite(remoteFile, p, buffer, NextWrite(events).lost);
        UploadTurn(localFile, sent, image, events, nbytes, kept);
        Sent(w.remote, p, image, localFile, sent, nbytes, kept);
        image := image + localFile[sent..sent + kept];
        sent := sent + nbytes;
        events := Later(events);
      }
    }

    method Unlink(p: Path, done: bool) returns (r: Reply)
      requires Valid() && Legal(world, Call.Unlink(p, done))
      modifies this
      ensures (world, r) == Step(old(world), Call.Unlink(p, done))
      ensures Valid() && openRemote == old(openRemote)
    {
      if p in world.names {
        var ok := Remove(p, done);
        r := if ok then Done else Failed;
      } else {
        if p !in world.remote || !done {
          return Failed;
        }
        world := world.(remote := world.remote - {p});
        r := Done;
      }
    }

    method Truncate(p: Path, length: int) returns (r: Reply)
      requires Valid() && Legal(world, Call.Truncate(p, length))
      modifies this
      ensures (world, r) == Step(old(world), Call.Truncate(p, length))
      ensures Valid() && openRemote == old(openRemote)
    {
      if p !in world.names || length < 0 {
        return Failed;
      }
      var i := world.names[p];
      world := world.(inodes := world.inodes[i := Resize(world.inodes[i], length)]);
      r := Done;
    }

    method Rename(from: Path, to: Path, done: bool) returns (r: Reply)
      requires Valid() && Legal(world, Call.Rename(from, to, done))
      modifies this
      ensures (world, r) == Step(old(world), Call.Rename(from, to, done))
      ensures Valid() && openRemote == old(openRemote)
    {
      if from !in world.names || !done {
        return Failed;
      }
      if to !in world.names || world.names[to] != world.names[from] {
        world := world.(names := (world.names - {from})[to := world.names[from]]);
        world := world.(inodes := Reap(world.inodes, world.names, world.fds));
      }
      world := world.(handles := MoveHandles(world.handles, from, to));
      r := Done;
    }

    /** The loop of scpfs.cpp: the filler's answer is ignored, so it runs to the end of
        the listing, and yet leaves in the filler exactly what `BbReaddir` leaves. */
    method Readdir(served: bool, listing: seq<string>, filler: Filler) returns (r: Reply)
      requires Valid() && !filler.full
      modifies this, filler
      ensures Valid() && world == old(world) && openRemote == old(openRemote)
      ensures r == if served then Done else Failed
      ensures filler.stored == old(filler.stored) +
              if served then listing[..Fitting(filler.accepts, old(filler.stored), listing)] else []
    {
      if !served {
        return Failed;
      }
      var dir := SftpOpened();
      ghost var fitting := Fitting(filler.accepts, old(filler.stored), listing);
      var i := 0;
      while i < |listing|
        invariant i <= |listing| && (filler.full <==> fitting < i)
        invariant filler.stored == old(filler.stored) + listing[..Min(i, fitting)]
        invariant Valid() && world == old(world) && openRemote == old(openRemote) + {dir}
      {
        if i <= fitting {
          FittingSplit(filler.accepts, old(filler.stored), listing, i);
        }
        var _ := filler.Fill(listing[i]);
        assert listing[..i + 1] == listing[..i] + [listing[i]];
        i := i + 1;
      }
      SftpClose(dir);
      r := Done;
    }
  }
}
