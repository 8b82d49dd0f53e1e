# Pereprava, verified

A model in Dafny of the parts of Pereprava that decide what happens to a user's files: the device
actor with its metadata cache, the write-back NFS adapter, the recursive transfers, the bundles and
the path and id schemes underneath. The model is checked with `dafny verify dfyconfig.toml`.

## What is modelled

**The phone** (`phone.dfy`). One storage is a finite forest of objects under handles that are never
used twice; a directory that is not empty refuses deletion. Everything else MTP leaves open is a
function-valued parameter of `Behaviour`: the order of a listing, which requests are refused
(listings and metadata requests among them), how an upload ends, how much of a requested range is
delivered, in what pieces a download arrives, and the lower-casing and normalisation tables of
names. A theorem about every `Phone` holds for every choice of these.

**The actor** (`plain.dfy`, `requests.dfy`, `answers.dfy`, `served.dfy`, `storages.dfy`,
`cache.dfy`, `coherence.dfy`, `removal.dfy`, `mkdirs.dfy`, `actor.dfy`, `protocol.dfy`).
`PlainActor` answers each request straight from the device; `ActorState` answers from a cache that
expires, is capped, and is repaired by selective invalidation. Each method of `ActorState` is proved
to give the plain answer and to leave the plain device, and `Serve` lifts that to runs. A cache can
hide that a phone refuses to list a directory, so "plain" means that listings are answered: a method
that is refused one it asks for (counted in `balks`) answers an error instead, and its contract says
what then holds of the cache. Refused metadata requests are part of the plain answer. `Answers` says
what each request means, in terms of the objects a storage holds and of the phone's own answers
alone: where a path leads, which object is removed, renamed or made, which bytes are read. `Served`
shows that the plain actor, and with it the cached one, serves every request and every run so.
`TreeRemoval` and `MkdirTheorem` go on from there. `Protocol` is the mailbox around the actor:
calls, `Shutdown`, abort and `close` as steps that interleave freely.

**The NFS adapter** (`staging.dfy`, `stagesteps.dfy`, `bytefiles.dfy`, `durable.dfy`,
`fileviews.dfy`, `adapterfacts.dfy`, `adapter.dfy`, `filecalls.dfy`, `sessions.dfy`, `paging.dfy`,
`dirlists.dfy`, `fileids.dfy`, `staleness.dfy`, `witnesses.dfy`). `MtpNfs` has the stage map, the
stage files, the virtual-id counter and the attribute cache as fields; each VFS call is one method
and one atomic step. Its `link` says whether the phone is there and which directories it will not
have listed, and may change in any way between two calls. What a client sees is a relation from
names to ids (`Binds`) and a map from ids to bytes (`Content`). `FileViews` replays runs of events
on names and byte arrays. `FileCalls` says what each call's answer and event mean for an ordinary
file system (`Means`), for what reasons a call can fail (`MayFail`), and exactly what it has to
observe (`Fair`). A `Session` keeps the history of any run of calls, with the link changing, and
shows that every answer is what replaying that history says. `Witnesses` builds phones on which the
code falls short and makes the calls.

The staging theory starts from a phone that has no two objects of one folded name in a directory.
The code accepts phones that do; there, removing the one LOOKUP finds succeeds and leaves the name
in use exactly when it had another bearer (`AdapterFacts.TwinRemains`).

**Transfers and bundles** (`path.dfy`, `names.dfy`, `transfer.dfy`, `pulling.dfy`, `pullpaths.dfy`,
`pushing.dfy`, `roundtrip.dfy`, `bundle.dfy`, `bundleproofs.dfy`). `PullTree` and `PushTree` work
through the cached actor. `Pulling` says name by name what a pull leaves of whatever stood there,
`Pushing` what a push leaves on any device. The pack walk runs on a graph of inodes, so shared
directories and cycles are covered; an archive is a sequence of members.

## Where the code falls short of its promise

Each of these is a theorem with the exact condition, read off the state before the call, and a
member of `Witnesses` in which it happens.

- A recommit can leave two objects under one name: exactly when the phone refuses to delete the
  previous copy and takes the new one, since the refusal is ignored (`MtpNfs.FlushStage`,
  `RecommitKeepsBoth`).
- A failed commit can leave an object on the phone under the file's name: exactly when the phone
  breaks the upload off midway and refuses to delete what arrived, or takes the whole file and
  refuses the metadata request that follows (`MtpNfs.FlushStage`, `CutUploadStays`,
  `UnreportedCopy`). After a part is left the actor's listing cache is wrong as well, exactly when
  the parent's listing was cached (`ActorState.UploadFile`, `LeftoverUnlisted`).
- `remove` of a file whose recommit deleted the old copy and then failed asks the phone to delete
  that copy again, so it answers NOENT, although LOOKUP finds the file, for as long as the handle
  its stage remembers is gone (`MtpNfs.Remove` with `CopyLost`, `StuckFile`).
- `write` raises the recorded size past the end of the stage file exactly when it is empty and
  starts beyond the end; READ and GETATTR then disagree (`MtpNfs.Write`, `EmptyWriteLies`).
- `mkdir` does not look for the name first: it breaks the one-object-per-name invariant exactly when
  the name was bound (`MtpNfs.Mkdir`, `MkdirTwice`).
- A failing lookup is taken for a missing name, so CREATE while the phone is away, or refuses to
  list the directory, gives an empty new file for any name not yet staged, and breaks the invariant
  exactly when the phone holds that name (`MtpNfs.StageNew`, `BlindCreate`, `DeafCreate`).
- CREATE and the rename of a local file do not look at the directory: under the id of a file, or of
  a directory that is gone, they succeed exactly as elsewhere, and the phone will not take the file
  from there (`FileCalls.Misplaces` is the guard, `Session.Do` and `AdapterFacts.NoDirectoryAstray`
  say what becomes of the file, `FileInAFile`).
- A file staged from the phone and not flushed since cannot be renamed: the call answers NOENT, and
  in every other case it succeeds exactly when the file is local only, or the phone is there, lists
  the directory, shows the file, accepts what it is asked for and reports the result
  (`MtpNfs.Rename`, `WrittenStaysPut`).
- `rename` does not look for the new name: a successful rename breaks the invariant exactly when the
  name was taken, or the target's id is a stage's own or the device root's and so not of the form of
  a directory's (`MtpNfs.Rename`, `RenameOntoTaken`). An error may leave the file in its new
  directory: under the old name when the phone accepts the move and refuses the name, under the new
  one when it accepts both and refuses the metadata request that follows. The invariant then
  survives exactly when that place is free or the file's own, and no stage is left behind under
  another name (`StrayIsSafe`, `HalfRenamed`, `UnreportedRename`).
- `remove` takes a directory away that holds unpublished files and nothing else; handles are never
  reused, so those files cannot be committed there any more (`Session.OrphansStay`, `OrphanedFile`).
- `readdir` hides a flushed file whose recommit deleted the old copy and then failed, although
  `lookup` still finds it: a name is listed exactly when the phone shows it or an unflushed stage
  has it (`DirLists.ListedIff`, `HiddenButThere`).
- `readdir` hands out the phone's own ids where `lookup` gives the stage's. Staging a file under
  such an id makes a second stage of one name exactly when another stage stands for the object
  (`AdapterFacts.ListedId`, `TwoIds`).
- A pull asks for each entry by path, and a path drops the white space at the end of a name and
  finds the first child of a name up to case. It takes another object's bytes for the entry, or
  fails, exactly when the entry's name less that white space is no good component or another child
  is the first to bear it (`PullPaths.EntryLeadsBack`, `TwinIsPulled`).
- `parse` gives a printed path back exactly when its last component does not end in white space
  (`Paths.ParseDisplay`, `TrailingSpace`).
- Encoding a real id loses information exactly when the storage index reaches 2^14 or the handle
  2^48 (`FileIds.DecodeEncode`, `TooWide`).
- `promote` fails without a destination and then installs the backup of an earlier run as one,
  exactly when that backup could not be cleared and is moved (`Bundle.Destination.Promote`,
  `StaleBackup`).

## Where the code and its documentation differ

The model follows the code.

- `crates/nfs-mount/src/adapter.rs:13-14` says `decode` rejects handles that do not fit; it masks
  them.
- `crates/nfs-mount/src/adapter.rs:3-4` calls the adapter read-only; it stages and writes back.
- `docs/adr/ADR-004-writable-volume-staging.md:30-38` says stage files are removed on flush and that
  renaming an unflushed file only edits metadata; stages are kept after a flush, and the second
  holds only for files the phone has never had.
- The comment on `DevPath::parse` mentions empty and `..` components; `.` and control characters are
  rejected as well.

## Model

| member | source | states |
|---|---|---|
| Actor.ActorState.Serve | crates/core/src/actor.rs:674-915 | over every run whose requests meet two provisos (a directory listed by handle still exists; a failed removal changed nothing and a failed upload left no part), on a phone that refuses no listing, the cached actor gives the replies and the device of an actor without a cache, each of them what its request means for the objects (`ServesRun`), answers nothing after `Shutdown`, and ends coherent |
| Actor.ActorState.Dispatch | crates/core/src/actor.rs:694-915 | one request, likewise, on any phone, as long as it is refused no listing it asks for; refused one, it answers an error and stays coherent, a removal excepted that had deleted something; without the first proviso a handle listing is an error or the directory's last, empty, listing |
| Served.StepServes | crates/core/src/actor.rs:694-915 | for every request and device, the reply and the new device in terms of the objects and the phone's answers: a ranged read is the file's bytes from the offset on, as many as asked unless the phone sends fewer; a deletion takes exactly the one object; a new directory or file is one new object under the next handle; refusals change nothing but what was done before them |
| Served.RunServes | crates/core/src/actor.rs:674-692 | a run is one request after the other, each served so from the device the one before left, up to the first `Shutdown` |
| Served.AdapterRequests | crates/core/src/actor.rs:420-460 | what the adapter asks for by handle is what these requests are served with |
| Answers.WalkLeads | crates/core/src/actor.rs:1012-1066 | a walk arrives at an object, or ends in an error, if and only if the names lead there, each to the first child that bears it up to case and composition; a path has one end only |
| Answers.ListListsPath | crates/core/src/actor.rs:1068-1109 | listing a path gives the children of the directory it leads to, each described once in the phone's order, or says why it leads to none; the device root lists every storage under a handle of its own |
| Answers.ResolveResolves | crates/core/src/actor.rs:1016-1066 | resolving gives the object the path leads to with the metadata the phone reports, or why not |
| Answers.MkdirAllMakes | crates/core/src/actor.rs:1124-1180 | what exists is walked through; the missing names become directories with exactly those names, each inside the one before, as far as the phone makes them; a file in the way changes nothing |
| Answers.RemoveRemoves | crates/core/src/actor.rs:1182-1240 | of the object the path leads to: a directory without the recursive flag is WrongKind and nothing changes; with it exactly its subtree goes and is counted; a file goes alone; a path that leads nowhere changes nothing |
| Answers.RenameRenames | crates/core/src/actor.rs:1299-1339 | the object the path leads to has the new name and the same parent, kind and bytes, no other object changes, and the reply describes it; it succeeds if and only if there is one, the name has no slash and the phone accepts and reports; a refused rename changes nothing |
| Answers.RenamedIsFound | crates/core/src/actor.rs:1299-1339 | the path with its last name replaced then leads to the object if and only if the phone lists it first of that name, as it must when nothing else there has the name |
| Answers.MoveMoves | crates/core/src/actor.rs:1341-1390 | the object the first path leads to gets the directory the second leads to as its parent and stays as it was otherwise; or the first reason why not, and nothing changes |
| Answers.RenameHandleRenames | crates/core/src/actor.rs:1246-1297 | the first child of the old name is moved, then renamed, then reported; what was done before a refusal stays done |
| Answers.UploadUploads | crates/core/src/actor.rs:1430-1540 | an accepted upload is one new object with all the bytes; one broken off, or of another length than declared, is deleted again unless the phone refuses that |
| Answers.DownloadDownloads | crates/core/src/actor.rs:1392-1428 | a download gives all of the object's bytes if and only if the pieces add up to them and the stream does not break |
| StorageNames.StorageIsFound | crates/core/src/actor.rs:954-976 | a reference finds the first storage of that description up to case; without one, the storage whose number, counted from one, it spells, with any leading zeros and at most one plus sign |
| Actor.ActorState.ChildrenOf | crates/core/src/actor.rs:979-1010 | a cached or fetched listing of an existing directory is the device's, of one that is gone it is an error or empty, and a refused one is the phone's own error; whichever, no other directory becomes stale |
| Actor.ActorState.ResolvePath | crates/core/src/actor.rs:1016-1066 | resolving through the cache is resolving on the device, unless a listing is refused, and then it is an error |
| Actor.ActorState.ListPath | crates/core/src/actor.rs:1068-1109 | the same for listing |
| Actor.ActorState.MkdirPath | crates/core/src/actor.rs:1124-1180 | the same for creating a path, the cache coherent even after a refusal midway |
| Actor.ActorState.RemovePath | crates/core/src/actor.rs:1182-1214 | same result and device as without a cache unless a listing is refused, and what they mean (`RemovesPath`); coherent afterwards unless it failed after deleting something, and then only listings inside the subtree of the target the path names can be stale |
| Actor.ActorState.DeleteBelow | crates/core/src/actor.rs:1216-1240 | the recursion through the cache deletes what the plain recursion deletes, unless a listing is refused; coherent except for the directories still open on the path, and on failure for the subtree |
| Actor.ActorState.RenameByHandle | crates/core/src/actor.rs:1246-1297 | move, then rename, then report, as on the device, each of them refusable; coherent afterwards |
| Actor.ActorState.RenameByPath | crates/core/src/actor.rs:1299-1339 | as on the device: the object the path leads to is renamed and nothing else (`RenamesPath`); coherent afterwards |
| Actor.ActorState.MoveByPath | crates/core/src/actor.rs:1341-1390 | as on the device: the object the path leads to changes its parent and nothing else does (`MovesPath`); coherent afterwards |
| Actor.ActorState.DownloadInto | crates/core/src/actor.rs:1392-1428 | success only with all of the object's bytes; a stream that breaks midway gives its error, one that ends early is an error |
| Actor.ActorState.UploadFile | crates/core/src/actor.rs:1430-1540 | the device and the answer of an upload with its ignored clean-up and its closing metadata request; after an error coherent if and only if the phone will not keep a part of the file or the parent's listing was not cached |
| Actor.ActorState.DeleteByHandle | crates/core/src/actor.rs:741-763 | deleting by handle finds the listing that showed the object and keeps the cache coherent |
| Actor.UploadKeepsInv | crates/core/src/actor.rs:1486-1524 | the same condition for an upload, on states |
| Cache.MetaCache.StoreListing | crates/core/src/cache.rs:79-103 | drops expired listings, evicts a least recently fetched one only at the cap and for a new directory, records the new listing and what it teaches about parents |
| Cache.MetaCache.InvalidateHandle | crates/core/src/cache.rs:125-130 | forgets the directory that showed the object, or the whole storage when none did, and nothing of other storages |
| Cache.StoreKeepsCap | crates/core/src/cache.rs:79-103 | storing never takes a storage over 256 listings |
| Cache.Learned | crates/core/src/cache.rs:98-100 | a listing teaches its own key as the parent of exactly the children it shows |
| Coherence.ApplyCoherent | crates/core/src/actor.rs:1124-1390 | a device change leaves every listing coherent except those of the directories it touches |
| Coherence.TouchedIsStale | crates/core/src/cache.rs:116-118 | and a touched directory whose children changed is stale: the invalidation is needed |
| Coherence.ForgetHandleCoherent | crates/core/src/cache.rs:125-135 | after deleting an object, invalidating by its handle restores coherence |
| Coherence.StoreCoherent | crates/core/src/cache.rs:79-103 | storing a fresh listing makes its directory coherent and disturbs no other |
| Coherence.UploadCoherent | crates/core/src/actor.rs:1430-1540 | coherence after an upload, failed or not, decided by the phone's answers and the cache before it; an upload taken whole keeps it, reported or not |
| TreeRemoval.DeleteTreeExact | crates/core/src/actor.rs:1216-1240 | success removes exactly the subtree of the target, counts its objects and leaves every other object as it was; failure removes only objects inside it, and not the target |
| TreeRemoval.DeleteTreeSucceeds | crates/core/src/actor.rs:1216-1240 | it succeeds when no object of the subtree is refused, although non-empty directories refuse deletion |
| Requests.StepValid | crates/core/src/actor.rs:694-915 | every request leaves every storage a forest |
| MkdirTheorem.MkdirAllTheorem | crates/core/src/actor.rs:1124-1180 | on success every prefix walks to a directory, the leaf lists, exactly the missing suffix was created and a second call changes nothing and names the same leaf; a refusal midway leaves what a shorter path would have made |
| MkdirTheorem.CreateAllWalks | crates/core/src/actor.rs:1140-1164 | directories created one inside the other are found again under their names |
| MkdirTheorem.MkdirEndsEmpty | crates/core/src/actor.rs:1140-1164 | the leaf of a path part of which was missing is empty, and a phone that refuses no directory makes it |
| Phones.ApplyValid | crates/core/src/actor.rs:949-952 | every mutation the phone admits keeps it a forest under handles that are never reused |
| Phones.UploadValid | crates/core/src/actor.rs:1486-1524 | an upload adds the object with all its bytes, or reports an error and leaves the old objects and at most its own leftover |
| Phones.LeavesObjectIff | crates/core/src/actor.rs:1486-1524 | an upload that ends in an error leaves an object if and only if it was broken off, or its stream had another length, and the phone refuses to delete what arrived, or it was taken whole and the phone refuses to report it |
| PlainActor.ChildIsFirst | crates/core/src/actor.rs:1012-1014 | searching a listing finds the first entry of that folded name, or there is none |
| Names.NamesEqCiIsFoldEquality | crates/core/src/names.rs:11-25 | the fast paths of name matching never change its answer, which is equality of one fold |
| Protocol.EveryCallIsSettled | crates/core/src/actor.rs:386-418 | over every interleaving: calls begin in the order sent, every answered call got the reply of its own request in a run of exactly those requests, every other call of an ended actor is told that it is closed, and the first `close` reports success only if the loop ended with a clean device close |
| Protocol.NothingAfterShutdown | crates/core/src/actor.rs:674-692 | once `Shutdown` was received or the actor is gone, no step begins or answers a request or changes the device |
| Protocol.CloseTellsTheRun | crates/core/src/actor.rs:43-56 | over every interleaving the first `close` reports success if and only if the session was closed cleanly; a failed closing, a lost actor and the time limit are told apart, each if and only if it happened |
| Protocol.CloseCanSucceed | crates/core/src/actor.rs:386-402 | from every reachable state in which the loop runs there are further steps after which `close` has reported success |
| Protocol.OutcomesStay | crates/core/src/actor.rs:411-418 | an outcome is never replaced by another |
| Protocol.StepIsGood | crates/core/src/actor.rs:386-418 | every step keeps: the queue is what was sent and not taken, in order; the device is that of the answered requests |
| Paths.Parse | crates/core/src/path.rs:23-66 | the parsing loop computes `ParseSpec`, which `ParsesIff` characterises |
| Paths.Display | crates/core/src/path.rs:76-87 | the printing loop computes `DisplaySpec` |
| Paths.ParsedIsWellFormed | crates/core/src/path.rs:23-66 | parsed components are never empty, dotted, control-bearing or with a slash, and a root path has no segments |
| Paths.ParsesIff | crates/core/src/path.rs:23-66 | any text parses to a path if and only if, without the white space around it, it is the path's components between single slashes, with one more slash before and one more after at will, none of them blank, a dot form or with a control character; every other text is an invalid argument |
| Paths.TrimIs | crates/core/src/path.rs:24 | trimming removes white space at both ends and leaves none there |
| Paths.ParseDisplay | crates/core/src/path.rs:23-87 | printing then parsing is the identity if and only if the last component does not end in white space |
| Paths.ParseJoin | crates/core/src/ops.rs:267-272 | parsing a printed path joined with a good component appends exactly that component |
| FileIds.DecodeEncode | crates/nfs-mount/src/adapter.rs:165-190 | decoding an encoded pair gives it back if and only if the index is below 2^14 and the handle below 2^48 |
| FileIds.EncodeDecode | crates/nfs-mount/src/adapter.rs:165-190 | encoding a decoded real id gives the word back |
| FileIds.Partition | crates/nfs-mount/src/adapter.rs:170-190 | null, device root, storage roots, real and virtual ids are disjoint ranges of 64-bit words |
| FileIds.VirtualIds.Next | crates/nfs-mount/src/adapter.rs:249-257 | a new virtual id differs from all issued before and never decodes |
| FileViews.NamesAreReplayed | crates/nfs-mount/src/adapter.rs:768-1197 | over every run each name is bound to what the run's creations, removals and renames make of it |
| FileViews.BytesAreReplayed | crates/nfs-mount/src/adapter.rs:768-1197 | over every run each file a client has at its start or creates in it shows what a byte array shows after the run's writes and truncations of it |
| FileViews.BytesSince | crates/nfs-mount/src/adapter.rs:768-1197 | the same from any point of the run on, for files first looked up there |
| Sessions.Session.Do | crates/nfs-mount/src/adapter.rs:768-1327 | any call after any run of an adapter, the link changing in any way between calls: the history stays a run of an ordinary file system that ends in the present; a lookup answers what the run makes of the name, a read a window of what it makes of the bytes, GETATTR their number, and after a successful COMMIT the phone holds them; an error has one of the reasons listed and changes nothing, but for a rename the phone carried out in part or did not report; a file put where no directory is cannot be flushed |
| Sessions.Session.WholeFile | crates/nfs-mount/src/adapter.rs:880-979 | after any run, reading to the end mark gives exactly the bytes the run's events make of the file |
| Sessions.Perform | crates/nfs-mount/src/adapter.rs:768-1327 | every call that observes `Fair` keeps the invariant, is one step of an ordinary file system, and answers as one |
| Sessions.PerformUnfairly | crates/nfs-mount/src/adapter.rs:981-1327 | `Fair` is exact: a call outside it, on ids the client was given, breaks the invariant (a write, when it goes through) |
| Sessions.AnswersTellTheRun | crates/nfs-mount/src/adapter.rs:768-1327 | what an answer means for one step is, over a run, what replaying the run says |
| Sessions.Session.OrphansStay | crates/nfs-mount/src/adapter.rs:524-547 | a stage whose directory was gone at any point of the run is not taken by the phone any more |
| Adapter.MtpNfs.Lookup | crates/nfs-mount/src/adapter.rs:768-813 | staged names first, then the device: a found name is bound to the answered id, and while the directory's listing is answered a name not found is bound to nothing; the device root answers its storages by description or number |
| StorageNames.RootNameIsFirst | crates/nfs-mount/src/adapter.rs:783-792 | at the root of the volume a name means the first storage it describes up to case or numbers in plain decimal |
| Adapter.MtpNfs.EnsureStagedExisting | crates/nfs-mount/src/adapter.rs:299-377 | the chunk loop registers a clean stage holding exactly the object's bytes, of any size, or nothing; it succeeds whenever the phone is there and delivers |
| Adapter.MtpNfs.StageForWrites | crates/nfs-mount/src/adapter.rs:461-490 | a file is staged unseen and clean, always when its bytes can be had; a directory never is |
| Adapter.MtpNfs.StageNew | crates/nfs-mount/src/adapter.rs:384-458 | an existing file keeps its bytes, a new name gets an empty file under a new id, always when the name is good and the bytes can be had; the invariant survives if and only if the phone did not hold the name while its listing could not be had |
| Adapter.MtpNfs.GetAttr | crates/nfs-mount/src/adapter.rs:815-841 | the size of an existing file is the number of bytes a read would see, and kind and size of an unstaged object are the phone's |
| Adapter.MtpNfs.SetAttr | crates/nfs-mount/src/adapter.rs:843-878 | a size change cuts or zero-fills the one file; nothing else is seen to change |
| Adapter.MtpNfs.Write | crates/nfs-mount/src/adapter.rs:981-1020 | the bytes of the one file change as a byte array's; size and file agree again if and only if the write carries data or starts within the file |
| ByteFiles.OverwriteShows | crates/nfs-mount/src/adapter.rs:1000-1008 | after a write: the data in its window, the old bytes elsewhere, zeros in a gap |
| ByteFiles.ResizeShows | crates/nfs-mount/src/adapter.rs:843-878 | after a change of size: the old bytes as far as they go, zeros beyond |
| ByteFiles.WindowOfOverwrite | crates/nfs-mount/src/adapter.rs:880-908 | reading what was written gives it back |
| Adapter.MtpNfs.Read | crates/nfs-mount/src/adapter.rs:880-979 | an answer is a stretch of the file from the offset on, marked as the end only at the end, and never empty before it; answered whenever staged or the phone makes progress |
| Adapter.MtpNfs.ReadDevice | crates/nfs-mount/src/adapter.rs:909-978 | the same for the device branch, for phones that truncate and phones that reject a window past the end |
| Adapter.MtpNfs.ReadWhole | crates/nfs-mount/src/adapter.rs:880-979 | reading until the end mark with any positive counts ends and reassembles the file, as section 3.3.6 of RFC 1813 asks |
| Adapter.MtpNfs.FlushStage | crates/nfs-mount/src/adapter.rs:494-569 | bytes, size, name and directory of the stage always stay; it succeeds if and only if there is nothing to flush or the phone is there, takes the bytes and reports them; a failure leaves it dirty and breaks the invariant if and only if the phone keeps a part or does not report the whole; a success puts exactly the staged bytes in a new object of the parent's storage, the only one of that name if and only if the previous copy could be deleted |
| Adapter.MtpNfs.Commit | crates/nfs-mount/src/adapter.rs:1313-1327 | the same for COMMIT; with no intervening write the device is not changed; a success with the invariant kept means the phone holds the file as clients see it, clean files included |
| AdapterFacts.CommitPublishesTheRun | crates/nfs-mount/src/adapter.rs:494-569 | a successful commit after any run, failed commits included, publishes what the run's writes make of the file, from wherever the client came by it, created in the run or not |
| StagingSteps.PublishedOk | crates/nfs-mount/src/adapter.rs:533-568 | with the previous copy gone, an upload and the new bookkeeping are unseen and leave exactly one object of that directory and folded name |
| StagingSteps.DuplicateCopy | crates/nfs-mount/src/adapter.rs:529-532 | with the previous copy refused, both copies show under the name and the invariant is broken |
| StagingSteps.LeftoverCopy | crates/nfs-mount/src/adapter.rs:533-547 | a failed upload keeps the invariant if and only if the phone will neither keep a part of it nor take it whole without reporting it |
| Adapter.MtpNfs.CreateFile | crates/nfs-mount/src/adapter.rs:1022-1035 | CREATE does not truncate an existing file without an asked size, and committing it unwritten has nothing to do; a new name gets a file of the asked size |
| Adapter.MtpNfs.CreateExclusive | crates/nfs-mount/src/adapter.rs:1037-1050 | success for a name that was bound to nothing, and for no other while the directory's listing is answered; while it is not, a name the phone holds passes too, and breaks the invariant |
| Adapter.MtpNfs.Mkdir | crates/nfs-mount/src/adapter.rs:1052-1066 | succeeds if and only if the phone is there and makes it; the invariant survives if and only if the name was bound to nothing |
| Adapter.MtpNfs.Remove | crates/nfs-mount/src/adapter.rs:1068-1130 | succeeds if and only if the name is bound and its file is local only, or the phone deletes the copy it stands for, found by listing when unstaged; then the name and its file are gone, on the phone too; an error leaves device and stages untouched; a stage whose copy is gone answers NOENT |
| Adapter.MtpNfs.Rename | crates/nfs-mount/src/adapter.rs:1132-1197 | succeeds if and only if the file is local only, or is not a pulled, unflushed stage and the phone lists the directory, shows the file, accepts the requests and reports the result; a pulled, unflushed stage answers NOENT; a success moves the name with its file, no bytes change, and the invariant survives if and only if the new name is free or the file's own, under an id of a directory's form; an error changes nothing, unless the second of two requests or the report was refused, and then the file has moved, and the invariant survives if and only if `StrayIsSafe` |
| Adapter.MtpNfs.Readdir | crates/nfs-mount/src/adapter.rs:1199-1277 | it succeeds if and only if the phone has the directory and its listing is answered; every entry stands, under its id, with its name, kind and size, for a storage, an object of the directory or an unflushed stage of it; the page's lower-case names and its end mark depend on the directory and the request alone, whatever order the stage map is walked in |
| Adapter.MtpNfs.ReadNames | crates/nfs-mount/src/adapter.rs:1199-1277 | pages asked at "entries received so far" with a positive limit cover the directory's names once each and end |
| Paging.ListingIsExact | crates/nfs-mount/src/adapter.rs:1247-1261 | sorted and deduplicated names strictly increase, represent every child up to case and composition, and the second sort changes nothing |
| Paging.ListingIsOrderFree | crates/nfs-mount/src/adapter.rs:1247-1258 | and do not depend on the order in which the children were collected |
| DirLists.ListedIff | crates/nfs-mount/src/adapter.rs:1199-1261 | a name is listed if and only if the phone shows it there or an unflushed stage has it |
| Staging.BindsOnce | crates/nfs-mount/src/adapter.rs:290-296 | under the invariant (among it: one stage per directory and folded name, recorded sizes equal file lengths) a name is bound to one id at most |
| AdapterFacts.HeardBinding | crates/core/src/actor.rs:979-1010 | whichever listing by handle the cached actor may give, a lookup in it finds exactly what the name is bound to |
| AdapterFacts.ListedId | crates/nfs-mount/src/adapter.rs:1218-1246 | staging a file of the phone under the raw id a listing shows keeps the invariant if and only if no other stage stands for that object |
| AdapterFacts.NoDirectoryAstray | crates/nfs-mount/src/adapter.rs:524-547 | a dirty stage whose parent id names no existing directory is not taken by the phone |
| AdapterFacts.TwinRemains | crates/nfs-mount/src/adapter.rs:1113-1128 | with several objects of one name, deleting the one found leaves the name in use if and only if another bears it |
| StagingSteps.PulledOk | crates/nfs-mount/src/adapter.rs:299-377 | pulling an object into a stage is invisible |
| StagingSteps.CreatedOk | crates/nfs-mount/src/adapter.rs:437-457 | a fresh virtual file changes the one name only |
| StagingSteps.RenamedOk | crates/nfs-mount/src/adapter.rs:1151-1177 | renaming a file the phone never had moves the one name |
| StagingSteps.RenamedStageOk | crates/nfs-mount/src/adapter.rs:1179-1196 | renaming a flushed file on the phone and in its stage moves the one name |
| StagingSteps.ForgottenOk | crates/nfs-mount/src/adapter.rs:1096-1110 | forgetting a stage whose object is gone unbinds the one name |
| Staleness.Watcher.GetAttr | crates/nfs-mount/src/adapter.rs:815-838 | whatever the phone's owner does, the answered attribute was true of the object at some instant of the last 62 seconds |
| Staleness.Watcher.Children | crates/core/src/actor.rs:979-1010 | a listing was true at some instant of the last 60 seconds |
| Staleness.Watcher.Readdir | crates/nfs-mount/src/adapter.rs:1218-1246 | seeded attributes are stamped with the present however old the listing |
| Staleness.OldestAnswer | crates/nfs-mount/src/adapter.rs:630-644 | the two limits add up: 62 seconds after a listing its attributes can still be answered |
| Transfer.PullTree | crates/core/src/ops.rs:94-156 | pulling through the cached actor gives what pulling from the device gives, as long as no listing it asks for is refused |
| Pulling.PullIs | crates/core/src/ops.rs:94-156 | pulling any remote directory into any local one succeeds if and only if nothing lies too deep, every directory lists, every file arrives and no name is a directory on one side and a file on the other; then every safe file listed is a file with the bytes its path gives, every safe directory is merged with what stood there, every other local name is as it was, and the counters are those of what was listed, unsafe names counted as skipped |
| Pulling.MergedTwice | crates/core/src/ops.rs:94-156 | pulling again into what a pull left changes nothing |
| PullPaths.EntryLeadsBack | crates/core/src/ops.rs:267-272 | the path made for a listed entry leads back to it if and only if its name, less the white space at its end, is a good component and the entry the first child to bear it |
| PullPaths.PulledIsMirrored | crates/core/src/ops.rs:94-156 | where all paths lead back, what stands there after a pull is the phone's own tree of objects laid over what stood there |
| PullPaths.SafeIsOneStep | crates/core/src/ops.rs:15-17 | a name is safe if and only if it adds exactly one component wherever it is put, and is not empty, a dot form, or with a backslash or NUL |
| Transfer.PushTree | crates/core/src/ops.rs:168-191 | the same for pushing |
| Transfer.PushInto | crates/core/src/ops.rs:210-263 | the same for one directory's contents |
| Pushing.PushTreeArrives | crates/core/src/ops.rs:168-263 | to any target on any device, a push that succeeds has counted every item; the new files are exactly the tree's files, one object each with its name and bytes, beside whatever had that name, and nothing that was there has changed |
| Pushing.FileStored | crates/core/src/actor.rs:563-591 | each file becomes a child of the directory its parent's path resolves to |
| RoundTrip.PushThenPull | crates/core/src/ops.rs:94-263 | to a target part of whose path is missing or where an empty directory stands, a push that succeeds and a pull from a phone that delivers files whole and refuses no metadata request give the tree back without links and special files, with equal counts and nothing skipped; on an accepting phone the push fails only for depth beyond 64 |
| RoundTrip.MadeTarget | crates/core/src/ops.rs:168-191 | making the path of such a target leaves an empty directory that is found by it |
| RoundTrip.PushedItems | crates/core/src/ops.rs:210-263 | a directory whose push succeeded holds exactly the items, is found by its path, and nothing outside it changed |
| RoundTrip.PulledFolder | crates/core/src/ops.rs:94-156 | pulling a directory that holds the items gives them, whatever the order of its listing |
| RoundTrip.TallyInAnyOrder | crates/core/src/ops.rs:110-151 | the counters do not depend on the order of the listing |
| Bundle.WalkState.WalkAdd | crates/cli/src/bundle.rs:191-253 | on success the stack of ancestors is restored and archive and counters have grown by exactly the walk |
| Bundle.UnpackArchive | crates/cli/src/bundle.rs:302-354 | the unpacking loop computes `Unpack`: unsafe paths, limits and conflicts are errors |
| Bundle.Destination.Promote | crates/cli/src/bundle.rs:370-391 | exactly when it succeeds and what becomes of destination and backup in every case: the destination is the new tree whole, or the old one if the put-back works, or, without an old one, nothing unless a stale backup stayed and is moved |
| Bundle.Destination.Extract | crates/cli/src/bundle.rs:302-368 | it succeeds if and only if the archive decodes and its tree can be promoted, and then the destination is that tree; an archive that does not decode leaves destination and backup alone; after a failed promotion both are what `Promote` keeps |
| BundleProofs.PackSucceedsIff | crates/cli/src/bundle.rs:191-253 | packing succeeds if and only if no chain of directories inside one another is longer than 129: always on a shallow tree, never on a reachable cycle |
| BundleProofs.FailureHasReason | crates/cli/src/bundle.rs:198-215 | a failed walk met a chain that is too deep or comes back to an ancestor |
| BundleProofs.ArchiveIsTheTree | crates/cli/src/bundle.rs:217-250 | the archive holds exactly the files and directories reachable without following links |
| BundleProofs.WalkMeetsOnce | crates/cli/src/bundle.rs:191-253 | no two members have one path, and the entries counted as skipped are exactly the paths of links and special files, once each |
| BundleProofs.AnyArchive | crates/cli/src/bundle.rs:302-354 | any archive unpacks if and only if no member is absolute or climbs with `..`, the limits are kept and no path is a file of one member and a directory of another; then exactly the members and the directories above them stand there, each file as its last member has it, and nothing outside |
| BundleProofs.PackThenUnpack | crates/cli/src/bundle.rs:148-354 | unpacking what was packed succeeds if and only if it is within the limits, reproduces the tree without links and special files, and both sides count the same |
| BundleProofs.PackThenExtract | crates/cli/src/bundle.rs:148-391 | a directory packed and extracted over any destination: success if and only if no chain is too long, the limits are kept and the promotion is let through; then the destination is the whole tree and both sides count the same; otherwise destination and backup are what they keep |
| Witnesses.RecommitKeepsBoth | crates/nfs-mount/src/adapter.rs:529-532 | two successful commits leave two objects of one name |
| Witnesses.CutUploadStays | crates/nfs-mount/src/adapter.rs:533-547 | a failed commit leaves a part of the file under its name |
| Witnesses.UnreportedCopy | crates/core/src/actor.rs:1526-1532 | a commit fails although the whole file arrived, and no stage stands for the object |
| Witnesses.EmptyWriteLies | crates/nfs-mount/src/adapter.rs:981-1020 | after an empty write past the end GETATTR says five bytes of a file of one |
| Witnesses.BlindCreate | crates/nfs-mount/src/adapter.rs:384-458 | CREATE while the phone is away hides a file the phone holds behind an empty one |
| Witnesses.DeafCreate | crates/nfs-mount/src/adapter.rs:413-435 | the same while the phone is there and refuses to list the directory |
| Witnesses.MkdirTwice | crates/nfs-mount/src/adapter.rs:1052-1066 | a directory is made under a name that is taken, up to case |
| Witnesses.WrittenStaysPut | crates/nfs-mount/src/adapter.rs:1175-1178 | a file of the phone that was written to and not flushed answers NOENT to RENAME |
| Witnesses.RenameOntoTaken | crates/nfs-mount/src/adapter.rs:1132-1197 | a rename makes two objects of one name |
| Witnesses.HalfRenamed | crates/nfs-mount/src/adapter.rs:1183-1197 | RENAME answers an error and the file has moved |
| Witnesses.UnreportedRename | crates/core/src/actor.rs:1286-1297 | RENAME answers an error, the file has its new name, and its stage the old one |
| Witnesses.FileInAFile | crates/nfs-mount/src/adapter.rs:281-287 | CREATE under the id of a file succeeds, and the COMMIT of the result cannot |
| Witnesses.StuckFile | crates/nfs-mount/src/adapter.rs:1096-1110 | after a recommit that deleted the old copy and failed, REMOVE answers NOENT |
| Witnesses.TwoIds | crates/nfs-mount/src/adapter.rs:1218-1246 | a committed file LOOKUP gives one id for and the phone's listing another, which cannot be staged beside it |
| Witnesses.HiddenButThere | crates/nfs-mount/src/adapter.rs:1247-1258 | a file LOOKUP finds is not on the page READDIR gives |
| Witnesses.OrphanedFile | crates/nfs-mount/src/adapter.rs:1068-1130 | a directory is removed with an unpublished file in it, which then cannot be committed |
| Witnesses.LeftoverUnlisted | crates/core/src/actor.rs:1486-1524 | a cut upload leaves the cached listing of its directory wrong |
| Witnesses.StaleBackup | crates/cli/src/bundle.rs:370-391 | a failed unpacking installs the backup of an earlier run |
| Witnesses.TwinIsPulled | crates/core/src/ops.rs:138-152 | of two files of one name up to case, a pull gives the second the bytes of the first |

## Left out

- Actor.ActorState.RemovePath: after an interrupted recursive removal the contract bounds the stale listings but does not name them.
- Staleness.Watcher.GetAttr: fetching and stamping a listing are one instant; the time a request takes adds to the 62 seconds.
- Adapter.MtpNfs: the adapter asks `PlainActor`, its listings answered or not as `link` says, cached or refused; the cached actor differs further only in listing a directory already removed, which may answer an empty listing instead of an error (`Requests.MayHear`). A lookup finds the same either way (`AdapterFacts.HeardBinding`); READDIR of such a directory may answer an empty page.
- Actor.ActorState.Serve: says nothing of what follows a refused listing in a run; `Dispatch` says it of each request.
- Refusals are functions of the request and of what the phone holds (or, for the adapter's listings, of `link`): a phone that answers the same request differently without having changed is a change of `link` between calls, and not within one. A storage that cannot be opened is a refusal of the request that opens it.
- Adapter.MtpNfs.Lookup: ids are structured values; their 64-bit words are related by `FileIds` only.
- Calls that interleave inside one VFS call: the checks and inserts of the adapter straddle awaits, and the model takes each call as one step.
- Local disk errors: stage files, downloads and extraction always succeed locally.
- Counter widths: the `u32` and `u64` counters and sizes are unbounded, `saturating_add` is plain addition; file ids are the exception.
- Renumbered storages and handles after a new session: `attach` and `detach` are of one phone that keeps them, and `link` does not change within a call.
- Agreement of `readdir` ids and sizes with `lookup` for staged files, which the code does not provide, and the stability answer of section 3.3.7 of RFC 1813.
- Unicode: lower-casing, normalisation, white space and control classes are parameters; the blank-name test of `stage_new` knows ASCII white space only.
- The size of a storage root (capacity less free space) and the space figures of `Storages`.
- `Info`, `symlink`, `link`, `mknod`, `fsinfo` and the fixed fields of attributes: constants or refusals.
- Time limits of `close`, cancellation inside a send, and the candidate scan of `connect_first`.
- Tar and zstd encodings, progress reports, transfer-rate counters, error texts, USB and the command line.
- Temporary-file names and their clean-up in pulls, stages and bundles; a pull is modelled without the skip of a file whose temporary cannot be created.
