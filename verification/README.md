# A model of the user-level file system

`ulfs/scpfs.cpp` is a FUSE file system over SFTP. Opening a file downloads the whole of it
into `/tmp/aos/` and keeps a local descriptor; reads and writes go to that descriptor;
releasing the file uploads the local copy *by name*, closes the descriptor and deletes the
copy. Lookups ask the cache directory first and the server second. This project models
that protocol and proves what it does and does not guarantee, together with three smaller
pieces of the repository: the client loop of `testing/editrandom.cpp`, the `@KEY@` expander
inside `config.status`, and two buffer loops of `bbfs.c`.

| file | content |
|---|---|
| `Posix.dfy`, `Maps.dfy` | file contents under pread, pwrite and ftruncate (POSIX.1-2017); facts about map updates |
| `Transfer.dfy` | the download and the upload loop, driven by lists of environment events |
| `Chunks.dfy` | open and release told by the chunk sizes alone, without those loops |
| `CacheModel.dfy` | the state (server, names, inodes, descriptors, handles) and the net effect of each callback |
| `Scpfs.dfy` | the callbacks as methods of a class, call by call, proved to have that net effect |
| `CloseToOpen.dfy` | the specification "an open file is a private snapshot, published whole at release", and the refinement |
| `Promises.dfy` | consequences for single paths: invariants, lookup, round trip, rename, unlink, failures |
| `LastWriter.dfy` | every byte of a published file, through whole runs, told by the edits and by the calls |
| `Failures.dfy` | the specification and the refinement for runs in which anything may fail: refused releases, broken-off and lossy transfers, a cache directory that cannot create, fill or remove a file |
| `Discipline.dfy` | runs without any guard: who changes the server, where descriptors and pending bytes go, which calls fail |
| `Overlap.dfy` | what happens when one path is open twice |
| `Independence.dfy` | calls on distinct paths commute; runs on one region are isolated from the rest, in the specification and in the cache |
| `KernelChoices.dfy` | the kernel's choice of descriptors and inodes and the split into chunks never show, and calls on distinct paths commute under any such choice |
| `EditRandom.dfy` | the benchmark client, run against the class |
| `Directory.dfy`, `ListXattr.dfy` | the directory and attribute loops of `bbfs.c` |
| `Expander.dfy` | the in-place template expander and the one-pass scanner it computes |

## How to read the model

*Environment.* The server, the kernel and libssh are not modelled; their answers are
parameters of each call (module `CacheModel`, datatype `Call`): whether the server lets a
call in, which unused descriptor and inode the kernel picks, how `sftp_read` and `readsome`
split a file into chunks, where a transfer fails, how much a write accepts. The theorems
hold for all answers their hypotheses do not exclude. `Clean` excludes failures of the
transport and of the cache directory, and nothing else: the server may still refuse to
open, stat or unlink, and a write may store less than it was given. Module `Failures`
does without it.

*State.* The process has no state of its own but the SFTP session, so class `Scpfs` keeps
one record, `world`, that the methods for the single system and library calls reassign,
and the set of remote files and directories that are open at the moment.

*Names and inodes are separate*, because the code reads by descriptor and publishes by
path. An inode disappears with its last name and last descriptor.

*Guard.* `Guarded` says what clients must do: never have one path open twice, and neither
unlink a path nor rename over it while it is open (hard links, device nodes, directories
and symbolic links are outside the promise altogether). The repository states no such rule;
`Overlap`, `Promises.UnlinkWhileOpen` and `Promises.RenameOverOpen` show, for all contents,
what happens without it for the callbacks in the stated order, and `Discipline` holds
without it. libfuse 2 does not always pass them in that order: by default it renames an open
file to a hidden name instead of unlinking it or renaming over it
(`Promises.UnlinkByRenaming`), and with its option `hard_remove` it calls the release of an
unlinked file with the path "-" (`Promises.UnlinkWithoutPath`).

*Directories and symbolic links.* mkdir and symlink put names into the cache directory that
every later lookup finds and that are no regular files. The model has them as the call
`Foreign`, which ends the run if it succeeds.

*Where the code surprises.* A read error during the download passes for the end of the
file, and the result of `sftp_write` is ignored, so open and release report success on a
truncated file; `Promises.OpenReleaseExact` gives the exact condition under which the file
survives, and `Failures` carries such losses through whole runs. A release that the server refuses leaves its descriptor open and its bytes in the
cache. The next open of the path overwrites them if the server has the file and lets the
open in; if it does not have the file, which was made with create, the open fails and the
path stays visible (`Discipline.ReopenExact`). No guarded run ever brings the bytes to the server
(`Failures.EditsNeverReach`).

*Files made with create* are write-only, as in the code; files opened are always readable
and writable, whatever flags the client asked for.

## Model

| member | source | states |
|---|---|---|
| Posix.ReadBytes | ulfs/scpfs.cpp:311 | a read returns the bytes from its offset on, as many as are asked for and exist |
| Posix.ReadBack | ulfs/scpfs.cpp:335 | what a write stored is what a read at the same place gives back |
| LastWriter.ApplyOne | ulfs/scpfs.cpp:335 | the length and every byte of a file after one write or truncate, gaps and extensions being zero |
| Transfer.AnyChunk | ulfs/scpfs.cpp:276-367 | sftp_read can return every chunk size up to 8192, readsome every one up to 1024, and every part of a chunk can get through |
| Transfer.Download | ulfs/scpfs.cpp:274-287 | the loop never stores more than the file has, and a final read result of 0 means that everything was stored |
| Transfer.CleanDownload | ulfs/scpfs.cpp:274-287 | with no error, every split into chunks of at most 8192 bytes ends with the whole file |
| Transfer.DownloadExact | ulfs/scpfs.cpp:276-287 | the local file is complete if and only if no error and no short write came before the last byte |
| Transfer.UploadExact | ulfs/scpfs.cpp:365-369 | the published bytes equal the local ones if and only if no turn of the loop dropped any |
| Transfer.CleanUpload | ulfs/scpfs.cpp:365-369 | with full writes, every split into chunks of at most 1024 bytes publishes the file unchanged |
| Chunks.ReceivedChunks | ulfs/scpfs.cpp:274-296 | chunks of any sizes from 1 to 8192 and then a read error: open succeeds with a handle on exactly the prefix received |
| Chunks.ShortChunk | ulfs/scpfs.cpp:276-287 | chunks of any sizes and then a short local write: open fails, no handle is left, the session is over, and the local file keeps what was stored |
| Chunks.OpensUnlessShort | ulfs/scpfs.cpp:264-296 | with the server and the local file there, open succeeds if and only if no local write the loop reaches falls short |
| Chunks.AllChunks | ulfs/scpfs.cpp:274-296 | chunks of any sizes that make up the file: open succeeds and the local copy is the whole file |
| Chunks.SentChunks | ulfs/scpfs.cpp:364-369 | chunks of any sizes from 1 to 1024 and any losses: what is published is the kept part of each chunk in order, and the rest of the file |
| CacheModel.RunAt | ulfs/scpfs.cpp:37-471 | a run takes one step after the other, each call in the state left by the calls before it, and collects the replies in order |
| CacheModel.RunIs | ulfs/scpfs.cpp:37-471 | every chain of legal steps is a legal run with its last state and its replies |
| CloseToOpen.LookUpRefines | ulfs/scpfs.cpp:37-69 | the size reported is that of the open snapshot of the path if there is one, and of the published file otherwise |
| Scpfs.Scpfs.Create | ulfs/scpfs.cpp:227-244 | a truncated local file and a write-only handle on it; nothing changes if the local open fails |
| Scpfs.Scpfs.Open | ulfs/scpfs.cpp:254-297 | on every exit exactly the effect of Step; every remote file it opened is closed once |
| Scpfs.Scpfs.ReceiveAll | ulfs/scpfs.cpp:274-287 | after every turn the local file is the prefix received so far, for all chunk sizes and failures |
| CloseToOpen.ReadRefines | ulfs/scpfs.cpp:299-320 | a read, and the size behind a handle, come from the handle's own snapshot; a write-only handle and a negative offset fail |
| Scpfs.Scpfs.Write | ulfs/scpfs.cpp:322-344 | pwrite on the handle's inode of as many bytes as were accepted |
| CloseToOpen.FTruncateRefines | ulfs/scpfs.cpp:465-467 | cuts or extends the handle's own snapshot and no other |
| Scpfs.Scpfs.Release | ulfs/scpfs.cpp:352-388 | on every exit exactly the effect of Step; every remote file it opened is closed once |
| Scpfs.Scpfs.SendAll | ulfs/scpfs.cpp:364-369 | the remote file becomes the uploaded image of the file found by name, for all chunk sizes and losses |
| Scpfs.Scpfs.Unlink | ulfs/scpfs.cpp:176-191 | removes the local copy if there is one and the remote file otherwise |
| CloseToOpen.TruncateRefines | ulfs/scpfs.cpp:151-158 | by path it edits the one snapshot open on the path, never the published file, and fails if none is open |
| Scpfs.Scpfs.Rename | ulfs/scpfs.cpp:113-121 | renames in the cache directory only, failing without a local copy |
| Scpfs.Scpfs.Readdir | ulfs/scpfs.cpp:422-446 | leaves in the filler the longest accepted prefix although it ignores refusals, and closes the remote directory on every exit |
| CloseToOpen.StepRefines | ulfs/scpfs.cpp:113-471 | under the guard, one callback is one step of the snapshot specification with the same reply, and keeps the invariant |
| CloseToOpen.Refinement | ulfs/scpfs.cpp:227-388 | for every interleaving on any number of paths, all replies and all remote files are those of the specification, and after the last release the cache is empty |
| CloseToOpen.ReleaseMeans | ulfs/scpfs.cpp:352-388 | the upload by path publishes the bytes of the descriptor, and the snapshot is gone |
| CloseToOpen.EditRefines | ulfs/scpfs.cpp:322-344 | an edit of one handle's inode changes its snapshot and no other |
| CloseToOpen.RenameRefines | ulfs/scpfs.cpp:113-121 | a rename moves the open snapshot to the new path and publishes nothing |
| Promises.ReachableInvariant | ulfs/scpfs.cpp:227-388 | in every reachable state a path has a local copy iff it is open, once; descriptor and path name one inode; handles share none; nothing else is left over |
| Promises.GuardMeans | ulfs/scpfs.cpp:113-388 | in reachable states the guard asks exactly that a path opened, created, unlinked or renamed over has no local copy |
| Promises.ReadYourWrites | ulfs/scpfs.cpp:299-344 | a read through the handle at the place of a write returns the bytes the write accepted |
| Promises.SizeIsReadable | ulfs/scpfs.cpp:299-471 | the size reported at a handle is the number of bytes there are to read |
| Promises.TruncatedSize | ulfs/scpfs.cpp:151-471 | after a truncation by the descriptor or by the path both report the new size |
| Promises.FirstRead | ulfs/scpfs.cpp:254-320 | what an opened file reads at first is the file on the server |
| Promises.CreatedFile | ulfs/scpfs.cpp:227-388 | a created file is empty, cannot be read, and publishes an empty file |
| Promises.OpenIsInvisible | ulfs/scpfs.cpp:37-69 | a successful open changes the existence and size of no path, at any point of any run |
| Promises.ReleaseIsInvisible | ulfs/scpfs.cpp:37-69 | neither does a release |
| Promises.RoundTrip | ulfs/scpfs.cpp:254-388 | open followed by release restores the whole state, remote and local, for all chunk splits |
| Promises.OpenReleaseExact | ulfs/scpfs.cpp:276-370 | with failures, the remote file survives open and release if and only if the download was not broken off early and the upload dropped nothing |
| Promises.RenameMovesSnapshot | ulfs/scpfs.cpp:113-121 | after a rename the release publishes under the new path; the old path keeps and shows its published contents |
| Promises.UnlinkWhileOpen | ulfs/scpfs.cpp:176-191 | unlinking an open path makes its release publish an empty file and fail; the snapshot survives iff it was empty |
| Promises.UnlinkWithoutPath | ulfs/scpfs.cpp:176-382 | a release whose path is lost publishes an empty file under "-" and fails; the unlinked file stays on the server |
| Promises.UnlinkByRenaming | ulfs/scpfs.cpp:113-191 | rename of an open path to a hidden name, release and unlink of that name leave the server unchanged: the unlinked file is still there |
| Promises.RenameOverOpen | ulfs/scpfs.cpp:113-121 | renaming one open file over another leaves an empty file after both releases, in either order |
| LastWriter.FinalLength | ulfs/scpfs.cpp:322-344 | position k exists at the end iff a write or truncate reached it, or it was there, and nothing cut it off since |
| LastWriter.FinalByte | ulfs/scpfs.cpp:322-344 | position k holds the byte of the last write covering it unless cut off since; otherwise the original byte, or zero |
| LastWriter.SnapshotIsPrivate | ulfs/scpfs.cpp:299-344 | over any run a snapshot is its first contents with its own edits folded in, whatever else happens |
| LastWriter.PublishedFile | ulfs/scpfs.cpp:254-388 | from open to release through any guarded run, the server ends up with the file found at open and its own edits folded in |
| LastWriter.PublishedByte | ulfs/scpfs.cpp:254-388 | told by the calls: the published byte is that of the last write call to its position, unless a call cut it off since; otherwise the byte found at open, if never cut off; otherwise zero; and how long the file is |
| LastWriter.ReadByte | ulfs/scpfs.cpp:299-344 | the same for what a read through the descriptor returns at any time |
| Discipline.FailedChangesNothing | ulfs/scpfs.cpp:37-471 | exactly when each call fails, and that a failing call changes nothing but in release and in an open that ends the session |
| Discipline.StepDiscipline | ulfs/scpfs.cpp:76-388 | on every exit of every callback, a remote file changes only in a release of its path or an unlink without a local copy, and how |
| Discipline.WriteBackOnly | ulfs/scpfs.cpp:76-388 | over any run, guarded or not, without such a call the remote file stays the same |
| Discipline.StepStrands | ulfs/scpfs.cpp:361-378 | a callback strands a descriptor if and only if it is a release the server refuses |
| Discipline.DescriptorsConserved | ulfs/scpfs.cpp:257-378 | in every reachable state the open descriptors are the live handles and those of the refused releases |
| Discipline.DescriptorsCounted | ulfs/scpfs.cpp:257-378 | and their numbers add up over the run |
| Discipline.PendingBytesKept | ulfs/scpfs.cpp:371-375 | the bytes of a refused release stay until a call writes that very inode |
| Discipline.ReopenExact | ulfs/scpfs.cpp:257-287 | the next open of the path overwrites them iff the server has the file and lets the open in and the local open succeeds; for a path the server lacks it fails and changes nothing |
| Discipline.ReopenLosesPending | ulfs/scpfs.cpp:264-382 | where it succeeds, the release that follows puts the old remote file back |
| Failures.StepStored | ulfs/scpfs.cpp:113-471 | whatever the environment answers, one guarded callback is one step of a specification that keeps the copies left behind by path, with the same reply |
| Failures.FailureRefinement | ulfs/scpfs.cpp:227-388 | over whole guarded runs with any failures, all replies and all remote files are those of that specification |
| Failures.CleanLeavesNothing | ulfs/scpfs.cpp:227-388 | without failures nothing is left behind, and that specification is the snapshot specification |
| Failures.FetchStored | ulfs/scpfs.cpp:264-297 | an open whose download breaks off gets the prefix it kept; one the cache directory has no room for fails and leaves that prefix |
| Failures.RefusedStored | ulfs/scpfs.cpp:361-375 | a refused release publishes nothing and turns the snapshot into a left copy |
| Failures.AcceptedStored | ulfs/scpfs.cpp:361-388 | any other publishes what the upload gets through of its own snapshot |
| Failures.LeftStaysBehind | ulfs/scpfs.cpp:361-375 | the bytes of left copies influence no remote file, no snapshot and no reply but sizes reported by path |
| Failures.EditsNeverReach | ulfs/scpfs.cpp:254-375 | the edits of a refused release never reach the server: with any other bytes in their place every guarded run, with any failures, is possible as before and leaves the same remote files |
| Overlap.SecondReleaseEmpties | ulfs/scpfs.cpp:361-382 | in any run, the second release of a path not named again in between leaves an empty remote file or none |
| Overlap.RepeatedOpen | ulfs/scpfs.cpp:264-382 | after n opens of one path followed by n releases the remote file is intact if and only if n is 1 or it was empty |
| Overlap.Interleaved | ulfs/scpfs.cpp:264-382 | for any interleaving of opens and releases of one path that ends with it closed, the remote file is intact if and only if the path was never open twice at a time or the file was empty |
| Independence.Frame | ulfs/scpfs.cpp:227-388 | a callback changes nothing outside the paths it is about |
| Independence.Locality | ulfs/scpfs.cpp:227-388 | its reply and effect depend on those paths alone |
| Independence.Commute | ulfs/scpfs.cpp:227-388 | guarded calls on distinct paths that get the same descriptors and inodes in either order give the same replies and the very same state |
| KernelChoices.StepAlike | ulfs/scpfs.cpp:227-388 | the same request on the same files gets the same reply and leaves the same files, whatever the descriptors |
| KernelChoices.Reorder | ulfs/scpfs.cpp:227-388 | guarded calls on distinct paths commute for any unused descriptors and inodes and any chunks in either order, reuse of a descriptor just closed included: the same replies but for descriptors, and the same state up to renumbering, with untouched handles keeping theirs |
| KernelChoices.OtherOrder | ulfs/scpfs.cpp:227-388 | the other order is legal and guarded as soon as the kernel has unused numbers |
| KernelChoices.ChoicesInvisible | ulfs/scpfs.cpp:227-388 | two whole runs with the same requests get the same replies but for descriptors and end in the same state up to renumbering, whatever the kernel and the transport chose |
| Independence.Isolation | ulfs/scpfs.cpp:227-388 | take the positions of a run at which the footprint lies within a set of paths: the calls there, made alone, get one for one the replies of the run and leave the same files |
| Independence.FootprintIs | ulfs/scpfs.cpp:37-471 | the footprint is the paths a call names or the path of its handle, and no other |
| Independence.CacheIsolation | ulfs/scpfs.cpp:227-388 | the same from cache to cache: the calls at exactly the positions about the region, made alone on a cache of their own, are possible, get one for one the replies of the run and leave the same files and snapshots |
| EditRandom.OpenFiles | testing/editrandom.cpp:29-36 | six private snapshots, or an error and an untouched server |
| EditRandom.PokeOnce | testing/editrandom.cpp:43-67 | exactly one byte of one snapshot changes and no size does |
| EditRandom.PokedByte | testing/editrandom.cpp:43-67 | every byte of a file is that of the last roll that hits it, or the original one |
| EditRandom.Workload | testing/editrandom.cpp:29-83 | for any number of rolls each remote file keeps its size and ends up with its own edits in order, all other files as they were |
| Directory.FittingIsLongest | fuse-tutorial-2018-02-04/src/bbfs.c:623-633 | the entries stored are the longest prefix accepted one after the other |
| Directory.BbReaddir | fuse-tutorial-2018-02-04/src/bbfs.c:616-637 | stores that prefix; -ENOMEM iff an entry was refused; a read error iff there is no entry |
| Directory.Filler.Fill | fuse-tutorial-2018-02-04/src/bbfs.c:594-595 | refuses what does not fit and everything after the first refusal |
| ListXattr.StrLen | fuse-tutorial-2018-02-04/src/bbfs.c:525 | stops at the first NUL |
| ListXattr.PackInjective | fuse-tutorial-2018-02-04/src/bbfs.c:521-527 | a buffer is the layout of one list of names only |
| ListXattr.Walk | fuse-tutorial-2018-02-04/src/bbfs.c:521-528 | ends exactly at the end of the buffer; the visited names, and no others, rejoin to the buffer |
| Expander.ScanLength | fuse-tutorial-2018-02-04/config.status:725-736 | the output is longer by value length minus key length minus 2 for every replaced key |
| Expander.ScanCandidate | fuse-tutorial-2018-02-04/config.status:726-735 | a set key is replaced and its value never rescanned; an unset one stays and its closing @ opens the next candidate |
| Expander.ScanIdle | fuse-tutorial-2018-02-04/config.status:720-738 | a line in which no key is set comes out unchanged |
| Expander.Split | fuse-tutorial-2018-02-04/config.status:722 | the fields have no @ and rejoin to the line |
| Expander.OutputIsScan | fuse-tutorial-2018-02-04/config.status:725-736 | going through the fields, two at a time after a substitution, equals going through the characters |
| Expander.Turned | fuse-tutorial-2018-02-04/config.status:726-735 | one turn of the loop keeps len the length of the finished prefix and the rest of the line original |
| Expander.ExpandFields | fuse-tutorial-2018-02-04/config.status:721-736 | the in-place loop with its double increment stays in range and produces the field-wise output |
| Expander.ExpandLine | fuse-tutorial-2018-02-04/config.status:720-738 | the program computes what the left-to-right scanner computes, reports whether it replaced anything, and accounts for the length |

## Left out

- SSH and SFTP connection, authentication and `main`: network set-up without file system state.
- The freed SFTP session: after the two failure exits of open that free it, a run ends; later uses of the pointer are not modelled.
- Local directories and symbolic links: mkdir and symlink appear in `Step` as `Foreign`, but what the cache does after one of them has succeeded is not modelled; the theorems over runs then speak of the run up to there.
- rmdir, readlink, chmod, chown, utime, statfs, access and extended attributes of the cache: one forwarded local call each, the call `Forwarded` with whatever answer it gets. Before any `Foreign` there is no directory to remove and no link to read.
- Permission bits: a cache file that chmod makes unreadable could not be opened for the upload, which is not modelled.
- link and mknod appear in `Step` only, since the callbacks add nothing to it.
- `scpfs_opendir`, `scpfs_releasedir`, `scpfs_fsync` and `scpfs_getxattr`: not in the operations table.
- Permissions, times, owners and `st_blocks`.
- errno values: every failure is the one reply `Failed`. This assumes that errno is set: the callbacks return `-errno` after libssh calls that need not set it, and a stale 0 would tell FUSE that a refused open or release had succeeded.
- `readsome` is taken to report 0 only at the end of a regular file, as the GNU C++ library does; the C++ standard lets it report 0 earlier.
- Concurrency inside one callback: each callback is one step, and interleaving is between callbacks.
- A local write that fails while the download is on, in `Scpfs.Scpfs.Open`, keeps a prefix of the last chunk; other outcomes of a full disk are not modelled.
- The handle table and its update by rename belong to libfuse, which is not part of this model; the model states what path it passes along.
- The other callbacks of `bbfs.c`, its symlink and readlink pair among them: thin pass-throughs to one system call each.
- Logging, the other benchmark programs and the rest of `config.status`.
