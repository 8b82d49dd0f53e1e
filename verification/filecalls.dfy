/** The NFS calls, their answers, and what both mean for an ordinary file system of byte arrays. */
module FileCalls {
  import opened Wrappers
  import opened Names
  import opened Phones
  import opened PlainActor
  import opened Staging
  import opened ByteFiles
  import opened FileViews
  import opened Durability
  import opened AdapterFacts
  import opened Paging
  import opened DirLists

  datatype Call =
    | DoLookup(dir: Id, name: string)
    | DoGetAttr(id: Id)
    | DoRead(id: Id, offset: nat, count: nat)
    | DoWrite(id: Id, offset: nat, data: Bytes)
    | DoTruncate(id: Id, size: nat)
    | DoCreate(dir: Id, name: string, length: Option<nat>)
    | DoCreateExclusive(dir: Id, name: string)
    | DoMkdir(dir: Id, name: string)
    | DoRemove(dir: Id, name: string)
    | DoRename(dir: Id, name: string, to: Id, toName: string)
    | DoReaddir(dir: Id, startAfter: nat, maxEntries: nat)
    | DoCommit(id: Id)

  datatype Answer =
    | Named(id: Id)
    | Described(attr: Attr)
    | NamedFile(id: Id, attr: Attr)
    | Data(data: Bytes, eof: bool)
    | Written(count: nat)
    | Listed(names: seq<string>, end: bool)
    | Done

  /** The name, in a directory or at the device root, names `id`. */
  ghost predicate NamesId(su: Setup, v: View, dir: Id, name: string, id: Id) {
    if dir.DeviceRoot? then exists i: nat :: StorageNamed(su, name, 0) == Some(i) && id == StorageRoot(i)
    else Binds(su, v, KeyOf(su, dir, name), id)
  }

  ghost predicate NamesNothing(su: Setup, v: View, dir: Id, name: string) {
    if dir.DeviceRoot? then StorageNamed(su, name, 0).None? else Unbound(su, v, KeyOf(su, dir, name))
  }

  ghost predicate DirectoryThere(v: View, id: Id) {
    id !in v.staged
    && (id.DeviceRoot? || id.StorageRoot?
        || (id.Real? && id.storage < |v.dev| && id.handle in v.dev[id.storage].objects && v.dev[id.storage].objects[id.handle].isDir))
  }

  /** What an ordinary file system answers and does when a call succeeds: the call leads from `v` to
      `w` by the event `e`. `Misplaces` names the successes an ordinary file system would refuse. */
  ghost predicate Means(su: Setup, v: View, c: Call, a: Answer, e: Event, w: View) {
    match c
    case DoLookup(dir, name) => e == Quiet && a.Named? && a.id in w.known && NamesId(su, v, dir, name, a.id)
    case DoGetAttr(id) =>
      && e == Quiet && a.Described?
      && (Content(v, id).Some? ==> a.attr == Attr(false, |Content(v, id).value|))
      && (DirectoryThere(v, id) ==> a.attr.isDir)
    case DoRead(id, offset, count) =>
      && e == Quiet && a.Data? && Content(v, id).Some?
      && Reads(Content(v, id).value, offset, count, a.data, a.eof)
      && (0 < count && (id in v.staged || Progressive(su.phone)) ==> a.eof || a.data != [])
    case DoWrite(id, offset, data) => e == Wrote(id, offset, data) && a == Written(|data|)
    case DoTruncate(id, size) => e == Resized(id, size) && a == Described(Attr(false, size))
    case DoCreate(dir, name, length) =>
      var key := KeyOf(su, dir, name);
      && a.NamedFile? && Content(w, a.id).Some? && a.attr == Attr(false, |Content(w, a.id).value|)
      && (if Unbound(su, v, key) then e == Made(key, a.id, Some(Zeros(SizeOr0(length))))
          else Binds(su, v, key, a.id) && e == (match length case Some(n) => Resized(a.id, n) case None => Quiet))
    case DoCreateExclusive(dir, name) => a.Named? && e == Made(KeyOf(su, dir, name), a.id, Some([]))
    case DoMkdir(dir, name) => a.NamedFile? && a.attr.isDir && e == Made(KeyOf(su, dir, name), a.id, None)
    case DoRemove(dir, name) => a == Done && e.Removed? && e.key == KeyOf(su, dir, name)
    case DoRename(dir, name, to, toName) =>
      a == Done && e.Renamed? && e.key == KeyOf(su, dir, name) && e.to == KeyOf(su, to, toName)
    case DoReaddir(dir, startAfter, maxEntries) =>
      && e == Quiet && a.Listed? && |v.dev| == |su.storages| && DeviceChildren(su, v.dev, dir).Some?
      && (a.names, a.end) == Page(DirNames(su, v, dir), startAfter, maxEntries)
    case DoCommit(id) =>
      && e == Quiet && a.Described? && PhoneCopy(w, id) == Content(w, id)
      && (Content(w, id).Some? ==> a.attr == Attr(false, |Content(w, id).value|))
  }

  /** An error changes nothing, but for a rename the phone carried out in part or did not report. */
  ghost predicate MeansFailure(su: Setup, v: View, link: Link, writable: bool, c: Call, e: Event) {
    match Stray(su, v, link, writable, c)
    case None => e == Quiet
    case Some(landed) => c.DoRename? && e.Renamed? && e.key == KeyOf(su, c.dir, c.name) && e.to == KeyOf(su, c.to, landed)
  }

  ghost function Stray(su: Setup, v: View, link: Link, writable: bool, c: Call): Option<string> {
    if c.DoRename? then RenameStrays(su, v, link, writable, c.dir, c.name, c.to, c.toName) else None
  }

  /** A call that puts a file where there is no directory. It succeeds all the same, and the file can
      never be committed there. */
  ghost predicate Misplaces(su: Setup, v: View, c: Call) {
    match c
    case DoCreate(dir, name, _) => Unbound(su, v, KeyOf(su, dir, name)) && NoDirectory(v, dir)
    case DoCreateExclusive(dir, name) => NoDirectory(v, dir)
    case DoRename(dir, name, to, _) => LocalOnly(su, v, KeyOf(su, dir, name)) && NoDirectory(v, to)
    case _ => false
  }

  /** The reasons a call can fail for: with none of them, it succeeds. */
  ghost predicate MayFail(su: Setup, v: View, link: Link, writable: bool, c: Call) {
    match c
    case DoLookup(dir, name) =>
      NamesNothing(su, v, dir, name) || (!link.Hears(dir) && !StagedUnder(su, v, KeyOf(su, dir, name)))
    case DoGetAttr(id) =>
      Content(v, id).Some? || DirectoryThere(v, id) ==> id !in v.staged && id.Real? && !(link.online && Reports(su, v.dev, id))
    case DoRead(id, _, count) => !Readable(su, v, link, id) || (count == 0 && id !in v.staged)
    case DoWrite(id, _, _) => !writable || !Readable(su, v, link, id)
    case DoTruncate(id, _) => !writable || !Readable(su, v, link, id)
    case DoCreate(dir, name, _) => !writable || !Creatable(su, v, link, dir, name)
    case DoCreateExclusive(dir, name) =>
      !writable || DirOf(dir).None? || !NameOk(name) || !Unbound(su, v, KeyOf(su, dir, name))
    case DoMkdir(dir, name) => !(writable && link.online && PhoneCreates(su, v.dev, dir, name))
    case DoRemove(dir, name) =>
      !(writable && exists a :: Binds(su, v, KeyOf(su, dir, name), a) && Deletable(su, v, link, dir, a))
    case DoRename(dir, name, to, toName) => !RenameGoes(su, v, link, writable, dir, name, to, toName)
    case DoReaddir(dir, _, _) => |v.dev| == |su.storages| ==> DeviceChildren(su, v.dev, dir).None? || !link.Hears(dir)
    case DoCommit(id) => writable && id in v.staged ==> v.staged[id].dirty && !(link.online && FlushTaken(su, v, id))
  }

  ghost predicate IsAstray(su: Setup, e: Event, w: View) {
    match e
    case Made(_, id, _) => Astray(su, w, id)
    case Renamed(_, _, id) => Astray(su, w, id)
    case _ => false
  }

  /** A call is one step of an ordinary file system of byte arrays, and answers as one. */
  ghost predicate Settles(su: Setup, v: View, link: Link, writable: bool, c: Call, r: Nfs<Answer>, e: Event, w: View) {
    && Does(su, v, e, w) && Ages(v.dev, w.dev)
    && (r.Good? ==> Means(su, v, c, r.value, e, w) && (Misplaces(su, v, c) ==> IsAstray(su, e, w)))
    && (r.Bad? ==> MeansFailure(su, v, link, writable, c, e) && MayFail(su, v, link, writable, c))
  }

  /** The calls that only ask. */
  predicate Asks(c: Call) {
    c.DoLookup? || c.DoGetAttr? || c.DoRead? || c.DoReaddir?
  }

  /** The calls that take a name away. */
  predicate Unmakes(c: Call) {
    c.DoRemove? || c.DoRename?
  }

  /** The calls about one file's bytes. */
  predicate Edits(c: Call) {
    c.DoWrite? || c.DoTruncate? || c.DoCommit?
  }

  /** Only files of the phone have bytes unstaged. */
  lemma UnstagedFile(v: View, id: Id)
    requires id !in v.staged && Content(v, id).Some?
    ensures id.Real? && id.storage < |v.dev| && id.handle in v.dev[id.storage].objects
  {
  }

  /** The call speaks of ids the client was given. */
  ghost predicate GivenIds(v: View, c: Call) {
    match c
    case DoGetAttr(id) => id in v.known
    case DoRead(id, _, _) => id in v.known
    case DoWrite(id, _, _) => id in v.known
    case DoTruncate(id, _) => id in v.known
    case DoCommit(id) => id in v.known
    case DoRename(dir, _, to, _) => dir in v.known && to in v.known
    case _ => c.dir in v.known
  }

  /** CREATE would take a name the phone holds for free. */
  ghost predicate CreatesBlindly(su: Setup, v: View, link: Link, writable: bool, dir: Id, name: string) {
    writable && DirOf(dir).Some? && NameOk(name) && Blind(su, v, link, KeyOf(su, dir, name))
  }

  /** What a call has to observe for its outcome to be that of an ordinary file system. Beyond ids
      the client was given these are the cases in which the code breaks its own invariant: an empty
      write past the end, a name taken for free because the phone could not be asked for it, a directory
      made or a file renamed onto a taken name, a rename done in part or not reported that a stage or
      a taken name is in the way of, and a commit of which the phone keeps the old copy or an object
      it does not report. */
  ghost predicate Fair(su: Setup, v: View, link: Link, writable: bool, c: Call) {
    GivenIds(v, c) &&
    match c
    case DoWrite(id, offset, data) => Content(v, id).Some? ==> data != [] || offset <= |Content(v, id).value|
    case DoCreate(dir, name, _) => !CreatesBlindly(su, v, link, writable, dir, name)
    case DoCreateExclusive(dir, name) => !CreatesBlindly(su, v, link, writable, dir, name)
    case DoMkdir(dir, name) => writable && link.online && PhoneCreates(su, v.dev, dir, name) ==> Unbound(su, v, KeyOf(su, dir, name))
    case DoRename(dir, name, to, toName) =>
      var key := KeyOf(su, dir, name);
      && (RenameGoes(su, v, link, writable, dir, name, to, toName) ==> NewPlace(su, v, key, to, toName))
      && var stray := RenameStrays(su, v, link, writable, dir, name, to, toName);
         (stray.Some? ==> StrayIsSafe(su, v, key, to, stray.value))
    case DoCommit(id) => writable && link.online && id in v.staged ==> FlushSafe(su, v, id)
    case _ => true
  }
}
