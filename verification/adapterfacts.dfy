/** Facts about the adapter's state that its methods use, on values. */
module AdapterFacts {
  import opened Wrappers
  import opened Names
  import opened Phones
  import opened PlainActor
  import opened Staging
  import opened StagingSteps
  import opened Durability
  import opened ByteFiles
  import opened FileViews
  import Cache
  import opened Coherence
  import Requests

  type Time = Cache.Time

  const ATTR_TTL: Time := 2_000

  datatype Status = NoEnt | Stale | Acces | NoSpc | Inval | NotDir | IsDir | Exist | RoFs | BadHandle | IO

  /** The session at the time of a call: whether the phone is there, and the directories whose listing
      the actor answers with an error, be it the phone's refusal or a time limit. Both may change
      between any two calls. */
  datatype Link = Link(online: bool, mute: map<(nat, Handle), Error>) {
    /** A listing of the directory will be answered. */
    predicate Hears(dir: Id) {
      DirOf(dir).Some? ==> online && DirOf(dir).value !in mute
    }
  }

  /** What an NFS procedure answers. */
  datatype Nfs<+T> = Good(value: T) | Bad(status: Status)

  datatype Attr = Attr(isDir: bool, size: nat)

  datatype AttrCache = AttrCache(size: nat, isDir: bool, at: Time)

  /** `nfserr`. */
  function NfsErr(e: Error): Status {
    match e
    case NotFound => NoEnt
    case StaleHandle => Stale
    case AccessDenied => Acces
    case StorageFull => NoSpc
    case InvalidArgument => Inval
    case WrongKind => NotDir
    case _ => IO
  }

  /** The status `?` hands on. */
  function StatusOf<T>(r: Nfs<T>): Status {
    match r case Bad(s) => s case Good(_) => IO
  }

  function StatusOfResult<T>(r: Result<T>): Status {
    match r case Err(e) => NfsErr(e) case Ok(_) => IO
  }

  // ---------- the attribute cache ----------

  /** A cached attribute of an object still there is the object's; handles are never reused. */
  ghost predicate AttrsOk(dev: Dev, attrs: map<Id, AttrCache>) {
    forall id :: id in attrs ==> AttrOk(dev, attrs[id], id)
  }

  ghost predicate AttrOk(dev: Dev, a: AttrCache, id: Id) {
    && id.Real? && id.storage < |dev| && id.handle < dev[id.storage].next
    && (id.handle in dev[id.storage].objects ==>
          var o := dev[id.storage].objects[id.handle]; a.size == |o.data| && a.isDir == o.isDir)
  }

  /** Objects keep their kind and bytes for life. */
  ghost predicate Evolves(s: Store, t: Store) {
    && s.next <= t.next
    && (forall h :: h in t.objects && h < s.next ==>
          h in s.objects && t.objects[h].isDir == s.objects[h].isDir && t.objects[h].data == s.objects[h].data)
  }

  lemma ApplyEvolves(ph: Phone, s: Store, op: Op)
    requires Valid(s)
    ensures Evolves(s, Apply(ph, s, op).0)
  {
    ApplyValid(ph, s, op);
  }

  /** One call's device, later: handles are never reused, and what remains is what it was. */
  ghost predicate Ages(before: Dev, after: Dev) {
    |before| == |after| && forall i :: 0 <= i < |before| ==> Evolves(before[i], after[i])
  }

  lemma SameAge(dev: Dev)
    ensures Ages(dev, dev)
  {
  }

  lemma OneStoreAges(dev: Dev, i: nat, t: Store)
    requires i < |dev| && Evolves(dev[i], t)
    ensures Ages(dev, dev[i := t])
  {
  }

  lemma AgesOn(a: Dev, b: Dev, c: Dev)
    requires Ages(a, b) && Ages(b, c)
    ensures Ages(a, c)
  {
    hide Evolves;
    forall i | 0 <= i < |a|
      ensures Evolves(a[i], c[i])
    {
      EvolvesOn(a[i], b[i], c[i]);
    }
  }

  lemma EvolvesOn(s: Store, t: Store, u: Store)
    requires Evolves(s, t) && Evolves(t, u)
    ensures Evolves(s, u)
  {
  }

  /** A directory once gone is gone for good. */
  lemma GoneForGood(before: Dev, after: Dev, i: nat, d: Handle)
    requires Ages(before, after) && i < |before| && d < before[i].next && !IsDirectory(before[i], d)
    ensures !IsDirectory(after[i], d)
  {
    assert Evolves(before[i], after[i]);
  }

  lemma AttrsKept(dev: Dev, i: nat, t: Store, attrs: map<Id, AttrCache>)
    requires AttrsOk(dev, attrs) && i < |dev| && Evolves(dev[i], t)
    ensures AttrsOk(dev[i := t], attrs)
  {
    forall id | id in attrs
      ensures AttrOk(dev[i := t], attrs[id], id)
    {
      assert AttrOk(dev, attrs[id], id);
    }
  }

  /** The entries of a name of the device root: description or 1-based number, first match. */
  function StorageNamed(su: Setup, name: string, from: nat): Option<nat>
    decreases |su.storages| - from
  {
    if from >= |su.storages| then None
    else if Fold(su.phone.folding, su.storages[from].description) == Fold(su.phone.folding, name) || name == Decimal(from + 1) then Some(from)
    else StorageNamed(su, name, from + 1)
  }

  // ---------- lookups on values ----------

  lemma StagedIsKnown(su: Setup, v: View, id: Id)
    requires Inv(su, v) && id in v.staged
    ensures id in v.known
  {
  }

  lemma DirIsKnown(su: Setup, v: View, dir: Id)
    requires Inv(su, v) && dir in v.known && DirOf(dir).Some?
    ensures |v.dev| == |su.storages| && DirOf(dir).value.0 < |v.dev| && DirectoryId(dir)
    ensures dir == DirId(DirOf(dir).value.0, DirOf(dir).value.1)
  {
    assert KnownId(v, dir);
  }

  lemma NothingInVirtual(su: Setup, v: View, dir: Id, name: string)
    requires dir.Virtual? && !StagedUnder(su, v, KeyOf(su, dir, name))
    ensures Unbound(su, v, KeyOf(su, dir, name))
  {
  }

  lemma UnlistedIsUnbound(su: Setup, v: View, dir: Id, name: string)
    requires Inv(su, v) && dir in v.known && DirOf(dir).Some? && !StagedUnder(su, v, KeyOf(su, dir, name))
    requires ListHandle(su, v.dev, DirOf(dir).value.0, DirOf(dir).value.1).Err?
    ensures Unbound(su, v, KeyOf(su, dir, name))
  {
    hide Inv, Shows, ListHandle;
    UnlistedIsUnshown(su, v, dir, name);
  }

  lemma NoKidsUnlisted(ph: Phone, s: Store, h: Handle)
    requires Valid(s) && ListObjects(ph, s, h).Err?
    ensures Kids(s, h) == map[]
  {
    forall x | x in s.objects
      ensures s.objects[x].parent != h
    {
      assert Rooted(s, x);
    }
  }

  lemma ShownIsKid(su: Setup, v: View, dir: Id, name: string, x: Id)
    requires DirOf(dir).Some? && dir == DirId(DirOf(dir).value.0, DirOf(dir).value.1) && DirOf(dir).value.0 < |v.dev|
    ensures var (i, h) := DirOf(dir).value;
            Shows(su, v.dev, KeyOf(su, dir, name), x) <==>
              && x.Real? && x.storage == i && x.handle in Kids(v.dev[i], h)
              && Fold(su.phone.folding, v.dev[i].objects[x.handle].name) == Fold(su.phone.folding, name)
  {
  }

  /** Searching a listing finds what the device shows under the name. */
  lemma ListedShows(su: Setup, v: View, dir: Id, name: string)
    requires Inv(su, v) && dir in v.known && DirOf(dir).Some?
    requires ListHandle(su, v.dev, DirOf(dir).value.0, DirOf(dir).value.1).Ok?
    ensures var (i, h) := DirOf(dir).value;
            var key := KeyOf(su, dir, name);
            match ChildByName(su.phone.folding, ListHandle(su, v.dev, i, h).value, name)
            case None => forall x :: !Shows(su, v.dev, key, x)
            case Some(e) =>
              && Shows(su, v.dev, key, Real(i, e.handle)) && e.handle in Kids(v.dev[i], h)
              && e == Describe(e.handle, v.dev[i].objects[e.handle])
  {
    hide AllValid, DistinctKeys, StageOk, Shows;
    DirIsKnown(su, v, dir);
    var (i, h) := DirOf(dir).value;
    var key := KeyOf(su, dir, name);
    var es := ListHandle(su, v.dev, i, h).value;
    var child := ChildByName(su.phone.folding, es, name);
    ChildIsListed(su.phone.folding, es, name);
    if child.Some? {
      EntriesAreKids(su.phone, Kids(v.dev[i], h), child.value);
      ShownIsKid(su, v, dir, name, Real(i, child.value.handle));
    } else {
      forall x
        ensures !Shows(su, v.dev, key, x)
      {
        ShownIsKid(su, v, dir, name, x);
        if x.Real? && x.handle in Kids(v.dev[i], h) {
          EntriesAreKids(su.phone, Kids(v.dev[i], h), Describe(x.handle, v.dev[i].objects[x.handle]));
        }
      }
    }
  }

  lemma ListedBinding(su: Setup, v: View, dir: Id, name: string)
    requires Inv(su, v) && dir in v.known && DirOf(dir).Some? && !StagedUnder(su, v, KeyOf(su, dir, name))
    requires ListHandle(su, v.dev, DirOf(dir).value.0, DirOf(dir).value.1).Ok?
    ensures var (i, h) := DirOf(dir).value;
            var key := KeyOf(su, dir, name);
            match ChildByName(su.phone.folding, ListHandle(su, v.dev, i, h).value, name)
            case None => Unbound(su, v, key)
            case Some(e) => Binds(su, v, key, Real(i, e.handle))
  {
    hide Inv, Shows, ListHandle;
    ListedShows(su, v, dir, name);
  }

  /** Whichever of the answers to a listing the cached actor gives, a lookup finds what the name is
      bound to. */
  lemma HeardBinding(su: Setup, v: View, dir: Id, name: string, heard: Result<seq<Entry>>)
    requires Inv(su, v) && dir in v.known && DirOf(dir).Some? && !StagedUnder(su, v, KeyOf(su, dir, name))
    requires DirOf(dir).value.0 < |v.dev| == |su.storages|
    requires Requests.MayHear(su, v.dev, DirOf(dir).value.0, DirOf(dir).value.1, heard)
    ensures var (i, d) := DirOf(dir).value;
            var key := KeyOf(su, dir, name);
            match (if heard.Ok? then ChildByName(su.phone.folding, heard.value, name) else None)
            case None => Unbound(su, v, key)
            case Some(e) => Binds(su, v, key, Real(i, e.handle))
  {
    hide Inv, Shows;
    var (i, d) := DirOf(dir).value;
    if Listable(v.dev[i], d) {
      if ListHandle(su, v.dev, i, d).Ok? {
        ListedBinding(su, v, dir, name);
      } else {
        UnlistedIsUnbound(su, v, dir, name);
      }
    } else {
      UnlistedIsUnbound(su, v, dir, name);
    }
  }

  /** On a phone with several objects of one folded name in a directory, deleting the one a lookup
      finds leaves the name in use exactly when it had another bearer. */
  lemma TwinRemains(ph: Phone, s: Store, d: Handle, name: string)
    requires ListObjects(ph, s, d).Ok? && ChildByName(ph.folding, ListObjects(ph, s, d).value, name).Some?
    requires var h := ChildByName(ph.folding, ListObjects(ph, s, d).value, name).value.handle;
             h != d && Apply(ph, s, Delete(h)).1.Ok?
    ensures var h := ChildByName(ph.folding, ListObjects(ph, s, d).value, name).value.handle;
            var t := Apply(ph, s, Delete(h)).0;
            && ListObjects(ph, t, d).Ok?
            && (ChildByName(ph.folding, ListObjects(ph, t, d).value, name).Some? <==>
                  exists x :: x in Kids(s, d) && x != h && Fold(ph.folding, s.objects[x].name) == Fold(ph.folding, name))
  {
    var h := ChildByName(ph.folding, ListObjects(ph, s, d).value, name).value.handle;
    var t := Apply(ph, s, Delete(h)).0;
    var left := ListObjects(ph, t, d).value;
    ChildIsListed(ph.folding, left, name);
    forall x | x in Kids(s, d) && x != h
      ensures Describe(x, s.objects[x]) in left
    {
      EntriesAreKids(ph, Kids(t, d), Describe(x, s.objects[x]));
    }
    forall e | e in left
      ensures e.handle in Kids(s, d) && e.handle != h && e.name == s.objects[e.handle].name
    {
      EntriesAreKids(ph, Kids(t, d), e);
    }
  }

  // ---------- small facts the methods use ----------

  /** `name.trim().is_empty()`, for the white space of ASCII. */
  predicate Blank(name: string) {
    forall i :: 0 <= i < |name| ==> name[i] in {' ', '\t', '\n', '\r'}
  }

  /** A phone that, inside an object, delivers at least a byte, and rejects a window only when it
      reaches past the end. */
  ghost predicate Progressive(ph: Phone) {
    forall data, offset: nat, count: nat :: 0 < count && offset < |data| ==>
      match ph.range(data, offset, count)
      case Ok(n) => 0 < n
      case Err(_) => |data| < offset + count
  }

  /** Inside an object such a phone delivers something. */
  lemma ProgressReads(ph: Phone, s: Store, h: Handle, offset: nat, count: nat)
    requires Progressive(ph) && h in s.objects && !s.objects[h].isDir && 0 < count && offset + count <= |s.objects[h].data|
    ensures ReadRange(ph, s, h, offset, count).Ok? && ReadRange(ph, s, h, offset, count).value != []
  {
    var answer := ph.range(s.objects[h].data, offset, count);
  }

  /** The device root holds no stages. */
  lemma NoStageInRoot(su: Setup, v: View, name: string)
    requires Inv(su, v)
    ensures !StagedUnder(su, v, KeyOf(su, DeviceRoot, name))
  {
    forall a | a in v.staged
      ensures StageKey(su, v.staged[a]) != KeyOf(su, DeviceRoot, name)
    {
      assert StageOk(su, v, a);
    }
  }

  predicate NameOk(name: string) {
    '/' !in name && !Blank(name)
  }

  /** The phone reports the object's metadata. */
  predicate Reports(su: Setup, dev: Dev, id: Id) {
    id.Real? && id.storage < |dev| && su.phone.informs(dev[id.storage], id.handle).None?
  }

  /** The bytes of the file can be had: staged, or from a phone that is there, reports and delivers. */
  ghost predicate Readable(su: Setup, v: View, link: Link, id: Id) {
    Content(v, id).Some? && (id in v.staged || (link.online && Progressive(su.phone) && Reports(su, v.dev, id)))
  }

  /** A new name, or the name of a file whose bytes can be had. */
  ghost predicate Creatable(su: Setup, v: View, link: Link, dir: Id, name: string) {
    && DirOf(dir).Some? && NameOk(name)
    && (Unbound(su, v, KeyOf(su, dir, name))
        || exists a :: Binds(su, v, KeyOf(su, dir, name), a) && Readable(su, v, link, a))
  }

  /** The phone makes the directory. */
  predicate PhoneCreates(su: Setup, dev: Dev, dir: Id, name: string) {
    match DirOf(dir)
    case Some((i, d)) => i < |dev| && Apply(su.phone, dev[i], Create(d, name)).1.Ok?
    case None => false
  }

  /** The file of the name can go: the phone never had it, or is there, shows it and deletes it. */
  predicate Deletable(su: Setup, v: View, link: Link, dir: Id, id: Id) {
    if id in v.staged then
      match OnDevice(v.staged[id])
      case None => true
      case Some(h) => link.online && PhoneDeletes(su, v.dev, v.staged[id].storageIndex, h)
    else id.Real? && link.online && link.Hears(dir) && PhoneDeletes(su, v.dev, id.storage, id.handle)
  }

  /** A stage under the name stands for an object the phone no longer has. */
  ghost predicate CopyLost(su: Setup, v: View, key: Key) {
    exists a :: a in v.staged && StageKey(su, v.staged[a]) == key && LostCopy(v, a)
  }

  predicate LostCopy(v: View, a: Id)
    requires a in v.staged
  {
    var s := v.staged[a];
    OnDevice(s).Some? && s.storageIndex < |v.dev| && OnDevice(s).value !in v.dev[s.storageIndex].objects
  }

  /** Nothing of the file is left on the phone. */
  predicate OffPhone(before: View, dev: Dev, id: Id) {
    if id in before.staged then
      match OnDevice(before.staged[id])
      case None => true
      case Some(h) => before.staged[id].storageIndex < |dev| && h !in dev[before.staged[id].storageIndex].objects
    else id.Real? && id.storage < |dev| && id.handle !in dev[id.storage].objects
  }

  predicate PhoneDeletes(su: Setup, dev: Dev, i: nat, h: Handle) {
    i < |dev| && Apply(su.phone, dev[i], Delete(h)).1.Ok?
  }

  lemma StagedBinds(su: Setup, v: View, key: Key, id: Id)
    requires id in v.staged && StageKey(su, v.staged[id]) == key
    ensures Binds(su, v, key, id) && !Unbound(su, v, key) && StagedUnder(su, v, key)
  {
    hide Shows;
    assert StagedUnder(su, v, key);
    assert Binds(su, v, key, id);
  }

  lemma LookupKind(su: Setup, v: View, dir: Id, name: string, id: Id)
    requires Inv(su, v) && DirectoryId(dir) && Binds(su, v, KeyOf(su, dir, name), id) && !StagedUnder(su, v, KeyOf(su, dir, name))
    ensures id.Real? && id.storage < |v.dev| == |su.storages| && id.handle in v.dev[id.storage].objects
    ensures dir == DirId(id.storage, v.dev[id.storage].objects[id.handle].parent)
  {
  }

  lemma RealIsKnown(su: Setup, v: View, id: Id)
    requires Inv(su, v) && id in v.known && id.Real?
    ensures id.storage < |v.dev| == |su.storages| && ROOT < id.handle < v.dev[id.storage].next
  {
    assert KnownId(v, id);
  }

  lemma StagedSize(su: Setup, v: View, id: Id)
    requires Inv(su, v) && id in v.staged
    ensures id in v.files && |v.files[id]| == v.staged[id].size
  {
  }

  lemma StagedContent(su: Setup, v: View, id: Id)
    requires Inv(su, v) && id in v.staged
    ensures id in v.files && |v.files[id]| == v.staged[id].size && Content(v, id) == Some(v.files[id])
  {
  }

  lemma NoAttrs(dev: Dev)
    ensures AttrsOk(dev, map[])
  {
  }

  // ---------- editing a staged file ----------

  /** What `write` makes of a staged file and its record. */
  function WrittenStage(v: View, id: Id, offset: nat, data: Bytes): View
    requires id in v.staged && id in v.files
  {
    WithStage(v, id, v.staged[id].(size := Max(v.staged[id].size, offset + |data|), dirty := true), Overwrite(v.files[id], offset, data))
  }

  /** Two views that differ only in one stage's recorded size. */
  lemma SizeOnly(su: Setup, w: View, x: View, id: Id, size: nat)
    requires Inv(su, w) && id in w.staged && x == w.(staged := w.staged[id := w.staged[id].(size := size)])
    ensures Inv(su, x) <==> size == w.staged[id].size
    ensures Unseen(su, w, x)
  {
    hide DevOk, KnownOk, StagesOk, NoAlias, UniqueOk, Binds;
    if size == w.staged[id].size {
      assert x == w;
    }
    SameKeysBind(su, w, x);
  }

  /** The record agrees with the file again unless an empty write started past the end. */
  lemma WrittenOk(su: Setup, u: View, v: View, id: Id, offset: nat, data: Bytes)
    requires Inv(su, v) && id in v.staged && id in v.files && Unseen(su, u, v) && id in u.known
    ensures Content(u, id) == Some(v.files[id])
    ensures var x := WrittenStage(v, id, offset, data);
            && Does(su, u, Wrote(id, offset, data), x)
            && (Inv(su, x) <==> data != [] || offset <= |v.files[id]|)
  {
    hide Inv, Binds, SameNamesExcept;
    StagedContent(su, v, id);
    var bytes := Overwrite(v.files[id], offset, data);
    EditedOk(su, v, id, bytes);
    var w := WithStage(v, id, v.staged[id].(size := |bytes|, dirty := true), bytes);
    var x := WrittenStage(v, id, offset, data);
    WrittenSize(v.files[id], offset, data);
    assert x == w.(staged := w.staged[id := w.staged[id].(size := x.staged[id].size)]);
    SizeOnly(su, w, x, id, x.staged[id].size);
    QuietThen(su, u, v, Wrote(id, offset, data), w);
    ThenQuiet(su, u, Wrote(id, offset, data), w, x);
  }

  lemma WrittenDurable(v: View, id: Id, offset: nat, data: Bytes)
    requires Durable(v) && id in v.staged && id in v.files
    ensures Durable(WrittenStage(v, id, offset, data))
  {
    var w := WrittenStage(v, id, offset, data);
    StageSetDurable(v, w, id, w.staged[id], w.files[id]);
  }

  lemma ResizedOk(su: Setup, u: View, v: View, id: Id, size: nat)
    requires Inv(su, v) && id in v.staged && id in v.files && Unseen(su, u, v) && id in u.known
    ensures var bytes := Resize(v.files[id], size);
            var w := WithStage(v, id, v.staged[id].(size := size, dirty := true), bytes);
            && Inv(su, w) && Does(su, u, Resized(id, size), w)
  {
    hide Inv, Binds, SameNamesExcept;
    StagedContent(su, v, id);
    var bytes := Resize(v.files[id], size);
    EditedOk(su, v, id, bytes);
    QuietThen(su, u, v, Resized(id, size), WithStage(v, id, v.staged[id].(size := size, dirty := true), bytes));
  }

  // ---------- creating ----------

  lemma CreatedDoes(su: Setup, u: View, v: View, dir: Id, name: string)
    requires Inv(su, v) && DirectoryId(dir) && Unbound(su, v, KeyOf(su, dir, name)) && Unseen(su, u, v)
    ensures var w, id := Created(v, dir, name), Virtual(v.lastVirtual + 1);
            Inv(su, w) && Does(su, u, Made(KeyOf(su, dir, name), id, Some([])), w)
  {
    hide AllValid, DevOk, NoAlias, KnownOk, StagesOk, StageOk, FilesOk, Binds;
    CreatedOk(su, v, dir, name);
    var w, id := Created(v, dir, name), Virtual(v.lastVirtual + 1);
    var key := KeyOf(su, dir, name);
    OnlyOne(su, w, key, id);
    QuietThen(su, u, v, Made(key, id, Some([])), w);
  }

  lemma OnlyOne(su: Setup, v: View, key: Key, id: Id)
    requires Inv(su, v) && Binds(su, v, key, id)
    ensures Only(su, v, key, id)
  {
    hide Inv, Binds;
    forall a
      ensures Binds(su, v, key, a) <==> a == id
    {
      if Binds(su, v, key, a) {
        BindsOnce(su, v, key, a, id);
      }
    }
  }

  lemma MadeBinds(su: Setup, u: View, key: Key, id: Id, w: View)
    requires Does(su, u, Made(key, id, Some([])), w)
    ensures Binds(su, w, key, id) && Unbound(su, u, key)
  {
    hide Binds, Content;
  }

  lemma AttrCached(dev: Dev, attrs: map<Id, AttrCache>, id: Id, a: AttrCache)
    requires AttrsOk(dev, attrs) && AttrOk(dev, a, id)
    ensures AttrsOk(dev, attrs[id := a])
  {
    forall x | x in attrs && x != id
      ensures AttrOk(dev, attrs[x], x)
    {
    }
  }

  // ---------- reading ----------

  /** A reply to READ: the file's own bytes from the offset on, an end mark only at the end. */
  predicate Reads(content: Bytes, offset: nat, count: nat, data: Bytes, eof: bool) {
    |data| <= count && data == Window(content, offset, |data|) && (eof ==> offset + |data| >= |content|)
  }

  /** The raw id of an object, as listings show it, may be staged exactly when no stage of another id
      stands for the object: `lookup` never gives such an id away, `readdir` does. */
  lemma ListedId(su: Setup, v: View, i: nat, h: Handle)
    requires Inv(su, v) && i < |v.dev| && h in v.dev[i].objects && !v.dev[i].objects[h].isDir && Real(i, h) !in v.staged
    ensures var id, o := Real(i, h), v.dev[i].objects[h];
            Inv(su, WithStage(v.(known := v.known + {id}), id, PulledStage(i, h, o), o.data))
            <==> forall b :: b in v.staged ==> !(OnDevice(v.staged[b]) == Some(h) && v.staged[b].storageIndex == i)
  {
    hide AllValid, Valid, DistinctKeys, DevOk, FilesOk, KnownOk, NoAlias;
    var id, o := Real(i, h), v.dev[i].objects[h];
    var w := WithStage(v.(known := v.known + {id}), id, PulledStage(i, h, o), o.data);
    if b :| b in v.staged && OnDevice(v.staged[b]) == Some(h) && v.staged[b].storageIndex == i {
      assert StageOk(su, v, b);
      assert StageKey(su, w.staged[id]) == ObjKey(su, i, o) == StageKey(su, w.staged[b]) && b != id;
    } else {
      ItsOwnKey(su, v, i, h);
      ObjectIsKnown(su, v, i, h);
      LearnId(su, v, id);
      PulledOk(su, v.(known := v.known + {id}), i, h);
    }
  }

  lemma ObjectIsKnown(su: Setup, v: View, i: nat, h: Handle)
    requires DevOk(su, v) && i < |v.dev| && h in v.dev[i].objects
    ensures KnownId(v, Real(i, h))
  {
  }

  // ---------- flushing ----------

  /** The previous copy is not there, or the phone lets it go: what `flush_stage` hopes for. */
  ghost predicate CopyGoes(su: Setup, v: View, id: Id)
    requires id in v.staged
  {
    var s := v.staged[id];
    OnDevice(s).Some? && s.storageIndex < |v.dev| && OnDevice(s).value in v.dev[s.storageIndex].objects ==>
      Apply(su.phone, v.dev[s.storageIndex], Delete(OnDevice(s).value)).1.Ok?
  }

  /** Deleting the previous copy, whether or not it works. */
  function CopyDropped(su: Setup, v: View, id: Id, p: nat): View
    requires id in v.staged && p < |v.dev|
  {
    match OnDevice(v.staged[id])
    case None => v
    case Some(h) => WithStore(v, p, Apply(su.phone, v.dev[p], Delete(h)).0)
  }

  lemma CopyDroppedOk(su: Setup, v: View, id: Id, p: nat)
    requires Inv(su, v) && id in v.staged && DirOf(v.staged[id].parent).Some? && p == DirOf(v.staged[id].parent).value.0 < |v.dev|
    ensures var w := CopyDropped(su, v, id, p);
            && Inv(su, w) && Unseen(su, v, w) && Evolves(v.dev[p], w.dev[p]) && w.dev[p].next == v.dev[p].next
            && (CopyGoes(su, v, id) <==> CopyGone(w, id, p))
  {
    hide AllValid, Valid, FilesOk, UniqueOk, KnownOk, NoAlias, DistinctKeys, Binds, Content;
    SameIsUnseen(su, v);
    assert StageOk(su, v, id);
    StoreValid(su, v, p);
    if OnDevice(v.staged[id]).Some? {
      OldCopyOk(su, v, id);
      ApplyEvolves(su.phone, v.dev[p], Delete(OnDevice(v.staged[id]).value));
    }
  }

  ghost predicate CopyGone(v: View, id: Id, p: nat)
    requires id in v.staged && p < |v.dev|
  {
    OnDevice(v.staged[id]).Some? ==> OnDevice(v.staged[id]).value !in v.dev[p].objects
  }

  /** The phone will take the upload: the directory is there, the phone accepts all the bytes and
      reports the new object. */
  predicate UploadTaken(ph: Phone, s: Store, d: Handle, name: string, bytes: Bytes) {
    && IsDirectory(s, d) && ph.upload(s, d, name, |bytes|, bytes).Accepted?
    && ph.informs(Add(s, Object(d, name, false, bytes)), s.next).None?
  }

  lemma ReportEvolves(ph: Phone, s: Store, parent: Handle, name: string, size: nat, stream: Bytes)
    requires Valid(s)
    ensures Evolves(s, UploadReport(ph, s, parent, name, size, stream).0)
  {
    hide Upload;
    UploadValid(ph, s, parent, name, size, stream);
    var t := Upload(ph, s, parent, name, size, stream).0;
    forall h | h in t.objects && h < s.next
      ensures h in s.objects && t.objects[h] == s.objects[h]
    {
      assert t.objects != s.objects ==> h in t.objects - {s.next};
    }
  }

  /** An upload of the stage, and what it leaves. */
  lemma UploadedOk(su: Setup, v: View, id: Id, p: nat, d: Handle)
    requires Inv(su, v) && id in v.staged && id in v.files && DirOf(v.staged[id].parent) == Some((p, d)) && p < |v.dev|
    ensures var s := v.staged[id];
            var (t, r) := UploadReport(su.phone, v.dev[p], d, s.name, s.size, v.files[id]);
            && Evolves(v.dev[p], t)
            && (r.Ok? <==> UploadTaken(su.phone, v.dev[p], d, s.name, v.files[id]))
            && (r.Ok? ==>
                  var w := Published(v, id, p, d);
                  && r.value.handle == v.dev[p].next && w == WithStage(WithStore(v, p, t), id, Flushed(s, p, r.value.handle), v.files[id])
                  && (Inv(su, w) <==> CopyGone(v, id, p))
                  && (CopyGone(v, id, p) ==> Unseen(su, v, w) && OneObject(su, w, id)))
            && (r.Err? ==>
                  var w := WithStore(v, p, t);
                  && (Inv(su, w) <==> !LeavesObject(su.phone, v.dev[p], d, s.name, s.size, v.files[id]))
                  && (Inv(su, w) ==> Unseen(su, v, w)))
  {
    hide AllValid, Valid, Sound, UniqueOk, KnownOk, NoAlias, DistinctKeys, Binds, Content, Shows, StageOk, Unseen,
      LeavesObject, UploadReport;
    var s := v.staged[id];
    var (t, r) := UploadReport(su.phone, v.dev[p], d, s.name, s.size, v.files[id]);
    StoreValid(su, v, p);
    ReportEnds(su.phone, v.dev[p], d, s.name, s.size, v.files[id]);
    ReportEvolves(su.phone, v.dev[p], d, s.name, s.size, v.files[id]);
    if r.Ok? {
      if CopyGone(v, id, p) {
        PublishedOk(su, v, id, p, d);
        var w := Published(v, id, p, d);
        assert w.staged[id] == Flushed(s, p, v.dev[p].next) && StageKey(su, w.staged[id]) == StageKey(su, s);
        assert OneObject(su, w, id);
      } else {
        DuplicateCopy(su, v, id, p, d, OnDevice(s).value);
      }
    } else {
      NextIsFree(v.dev[p]);
      LeftoverCopy(su, v, id, p, d);
    }
  }

  lemma NextIsFree(s: Store)
    requires Valid(s)
    ensures s.next !in s.objects
  {
  }

  lemma CopyDroppedDurable(su: Setup, v: View, id: Id, p: nat)
    requires Inv(su, v) && Durable(v) && id in v.staged && v.staged[id].dirty
    requires DirOf(v.staged[id].parent).Some? && p == DirOf(v.staged[id].parent).value.0 < |v.dev|
    ensures Durable(CopyDropped(su, v, id, p))
  {
    hide Inv, Durable, Apply;
    StagedDir(su, v, id);
    if OnDevice(v.staged[id]).Some? {
      DropCopyDurable(su, v, id, p);
    }
  }

  lemma UploadedDurable(su: Setup, v: View, id: Id, p: nat, d: Handle)
    requires Inv(su, v) && Durable(v) && id in v.staged && id in v.files && p < |v.dev| && v.dev[p].next !in v.dev[p].objects
    ensures var s := v.staged[id];
            && Durable(WithStore(v, p, UploadReport(su.phone, v.dev[p], d, s.name, s.size, v.files[id]).0))
            && Durable(Published(v, id, p, d))
  {
    hide Inv, Upload, Durable, Valid;
    var s := v.staged[id];
    DevIsValid(su, v, p);
    UploadValid(su.phone, v.dev[p], d, s.name, s.size, v.files[id]);
    var t := Upload(su.phone, v.dev[p], d, s.name, s.size, v.files[id]).0;
    assert forall h :: h in v.dev[p].objects ==> h in t.objects && t.objects[h] == v.dev[p].objects[h];
    StoreDurable(v, p, t, None);
    PublishedDurable(v, id, p, d);
  }

  /** The device shows exactly one object under the stage's directory and name: the stage's. */
  ghost predicate OneObject(su: Setup, v: View, id: Id)
    requires id in v.staged
  {
    var s := v.staged[id];
    && OnDevice(s).Some?
    && forall x :: Shows(su, v.dev, StageKey(su, s), x) <==> x == Real(s.storageIndex, OnDevice(s).value)
  }

  /** What `flush_stage` finds on the phone once it has asked for the previous copy's deletion. */
  ghost predicate Flushing(v: View, id: Id) {
    id in v.staged && id in v.files && v.staged[id].dirty && DirOf(v.staged[id].parent).Some?
    && DirOf(v.staged[id].parent).value.0 < |v.dev|
  }

  /** The phone will take the staged bytes. */
  ghost predicate FlushTaken(su: Setup, v: View, id: Id) {
    Flushing(v, id)
    && var (p, d) := DirOf(v.staged[id].parent).value;
       UploadTaken(su.phone, CopyDropped(su, v, id, p).dev[p], d, v.staged[id].name, v.files[id])
  }

  /** The phone will break the upload off and keep the part that arrived. */
  ghost predicate FlushLeaves(su: Setup, v: View, id: Id) {
    Flushing(v, id)
    && var (p, d) := DirOf(v.staged[id].parent).value;
       LeavesObject(su.phone, CopyDropped(su, v, id, p).dev[p], d, v.staged[id].name, v.staged[id].size, v.files[id])
  }

  /** A flush will do no harm: a new copy arrives only in place of the old one, and no part of one
      stays. */
  ghost predicate FlushSafe(su: Setup, v: View, id: Id)
    requires id in v.staged
  {
    (FlushTaken(su, v, id) ==> CopyGoes(su, v, id)) && !FlushLeaves(su, v, id)
  }

  /** The state a successful flush leads to. */
  ghost function AfterFlush(su: Setup, v: View, id: Id): View {
    if Flushing(v, id) then
      var (p, d) := DirOf(v.staged[id].parent).value;
      Published(CopyDropped(su, v, id, p), id, p, d)
    else v
  }

  /** The device a failed one leaves. */
  ghost function FailedFlush(su: Setup, v: View, id: Id): Dev {
    if Flushing(v, id) then
      var (p, d) := DirOf(v.staged[id].parent).value;
      var s := v.staged[id];
      v.dev[p := UploadReport(su.phone, CopyDropped(su, v, id, p).dev[p], d, s.name, s.size, v.files[id]).0]
    else v.dev
  }

  lemma AfterFlushIs(su: Setup, v: View, id: Id, p: nat, d: Handle)
    requires id in v.staged && id in v.files && v.staged[id].dirty && DirOf(v.staged[id].parent) == Some((p, d)) && p < |v.dev|
    ensures AfterFlush(su, v, id) == Published(CopyDropped(su, v, id, p), id, p, d)
    ensures FailedFlush(su, v, id) ==
        v.dev[p := UploadReport(su.phone, CopyDropped(su, v, id, p).dev[p], d, v.staged[id].name, v.staged[id].size, v.files[id]).0]
  {
    hide CopyDropped, Published, UploadReport;
  }

  lemma FlushTakenIs(su: Setup, v: View, id: Id, p: nat, d: Handle)
    requires id in v.staged && id in v.files && v.staged[id].dirty && DirOf(v.staged[id].parent) == Some((p, d)) && p < |v.dev|
    ensures FlushTaken(su, v, id) <==> UploadTaken(su.phone, CopyDropped(su, v, id, p).dev[p], d, v.staged[id].name, v.files[id])
    ensures FlushLeaves(su, v, id) <==>
        LeavesObject(su.phone, CopyDropped(su, v, id, p).dev[p], d, v.staged[id].name, v.staged[id].size, v.files[id])
  {
    hide UploadTaken, LeavesObject, CopyDropped;
  }

  lemma CleanIsNotFlushed(su: Setup, v: View, id: Id)
    ensures id !in v.staged || !v.staged[id].dirty ==>
        !FlushTaken(su, v, id) && !FlushLeaves(su, v, id) && AfterFlush(su, v, id) == v
  {
  }

  lemma FarStageIsNotFlushed(su: Setup, v: View, id: Id)
    requires Inv(su, v) && id in v.staged && DirOf(v.staged[id].parent).Some? && DirOf(v.staged[id].parent).value.0 >= |su.storages|
    ensures !FlushTaken(su, v, id) && !FlushLeaves(su, v, id) && FailedFlush(su, v, id) == v.dev
  {
  }

  /** A phone does not both take the bytes and keep a part of them. */
  lemma LeavesOrTakes(su: Setup, v: View, id: Id)
    requires Inv(su, v) && FlushLeaves(su, v, id)
    ensures !FlushTaken(su, v, id)
  {
    hide DevOk, UniqueOk, KnownOk, NoAlias, StagesOk, CopyDropped;
  }

  /** A directory that is gone takes its unpublished files with it: none can be flushed again. */
  lemma NoFlushWithoutDirectory(su: Setup, v: View, id: Id, p: nat, d: Handle)
    requires id in v.staged && DirOf(v.staged[id].parent) == Some((p, d)) && p < |v.dev| && !IsDirectory(v.dev[p], d)
    ensures !FlushTaken(su, v, id) && !FlushLeaves(su, v, id)
  {
  }

  /** The device holds the stage's bytes as a new object in the stage's directory. */
  predicate HoldsStage(before: Dev, v: View, id: Id) {
    && id in v.staged && id in v.files && OnDevice(v.staged[id]).Some? && DirOf(v.staged[id].parent).Some?
    && var s := v.staged[id];
       var (p, d) := DirOf(s.parent).value;
       && s.storageIndex == p < |v.dev| && p < |before|
       && before[p].next <= OnDevice(s).value
       && OnDevice(s).value in v.dev[p].objects
       && v.dev[p].objects[OnDevice(s).value] == Object(d, s.name, false, v.files[id])
  }

  /** A stage without its bookkeeping of the device's copy. */
  function LocalPart(s: Stage): (Id, string, nat) {
    (s.parent, s.name, s.size)
  }

  /** What `flush_stage` and `commit` keep of the stages, whatever happens. */
  ghost predicate StagesKept(v: View, w: View, id: Id) {
    && w.files == v.files && w.known == v.known && w.lastVirtual == v.lastVirtual && w.staged.Keys == v.staged.Keys
    && (forall a :: a in v.staged && a != id ==> w.staged[a] == v.staged[a])
    && (id in v.staged ==> LocalPart(w.staged[id]) == LocalPart(v.staged[id]))
  }

  lemma StagedDir(su: Setup, v: View, id: Id)
    requires Inv(su, v) && id in v.staged
    ensures DirOf(v.staged[id].parent).Some? && DirectoryId(v.staged[id].parent) && id in v.files && |v.dev| == |su.storages|
    ensures OnDevice(v.staged[id]).Some? ==> v.staged[id].storageIndex == DirOf(v.staged[id].parent).value.0 < |v.dev|
  {
    assert StageOk(su, v, id);
  }

  lemma StorageCount(su: Setup, v: View)
    requires Inv(su, v)
    ensures |v.dev| == |su.storages|
  {
  }

  lemma CopyDroppedKeeps(su: Setup, v: View, id: Id, p: nat)
    requires Inv(su, v) && id in v.staged && p < |v.dev|
    ensures var w := CopyDropped(su, v, id, p);
            && Valid(v.dev[p]) && w == v.(dev := w.dev) && w.dev == v.dev[p := w.dev[p]]
            && w.dev[p].next == v.dev[p].next && w.dev[p].objects.Keys <= v.dev[p].objects.Keys
  {
    StoreValid(su, v, p);
  }

  // ---------- creating, continued ----------

  function SizeOr0(size: Option<nat>): nat {
    match size case Some(n) => n case None => 0
  }

  /** `create` is a creation of the asked size, or a truncation of what was there. */
  lemma CreateDoes(su: Setup, u: View, v: View, w: View, key: Key, id: Id, size: Option<nat>)
    requires if Unbound(su, u, key) then Does(su, u, Made(key, id, Some([])), v) else Unseen(su, u, v) && Binds(su, u, key, id)
    requires if size.Some? then Does(su, v, Resized(id, size.value), w) else v == w
    requires id in v.known && (!Unbound(su, u, key) ==> Content(u, id) == Content(v, id))
    ensures if Unbound(su, u, key) then Does(su, u, Made(key, id, Some(Zeros(SizeOr0(size)))), w)
            else Binds(su, u, key, id) && Does(su, u, if size.Some? then Resized(id, size.value) else Quiet, w)
  {
    hide Binds, Content;
    assert Zeros(0) == [] && Resize([], SizeOr0(size)) == Zeros(SizeOr0(size));
    if !Unbound(su, u, key) && size.Some? {
      QuietThen(su, u, v, Resized(id, size.value), w);
    }
  }

  lemma MkdirDoes(su: Setup, v: View, dir: Id, i: nat, d: Handle, name: string)
    requires Inv(su, v) && DirectoryId(dir) && i < |v.dev| == |su.storages| && DirOf(dir) == Some((i, d)) && dir == DirId(i, d)
    ensures var (dev, r) := MakeDir(su, v.dev, i, d, name);
            && |dev| == |v.dev| && Evolves(v.dev[i], dev[i]) && dev == v.dev[i := dev[i]]
            && (r.Err? ==> dev == v.dev)
            && (r.Ok? ==>
                  var id := Real(i, r.value.handle);
                  var w := v.(dev := dev, known := v.known + {id});
                  && (Inv(su, w) <==> Unbound(su, v, KeyOf(su, dir, name)))
                  && (Inv(su, w) ==> Does(su, v, Made(KeyOf(su, dir, name), id, None), w)))
  {
    hide AllValid, Valid, DevOk, DistinctKeys, FilesOk, UniqueOk, KnownOk, NoAlias, StagesOk, StageOk, Binds, Content;
    StoreValid(su, v, i);
    ApplyEvolves(su.phone, v.dev[i], Create(d, name));
    var (dev, r) := MakeDir(su, v.dev, i, d, name);
    if r.Ok? {
      var id, key := Real(i, r.value.handle), KeyOf(su, dir, name);
      var w := v.(dev := dev, known := v.known + {id});
      if Unbound(su, v, key) {
        MadeDirOk(su, v, i, d, name);
        OnlyOne(su, w, key, id);
        DirHasNoContent(su, v, w, i, d, name);
      } else {
        MkdirClash(su, v, w, i, d, name);
      }
    }
  }

  lemma MkdirDurable(su: Setup, v: View, i: nat, d: Handle, name: string)
    requires Inv(su, v) && Durable(v) && i < |v.dev| == |su.storages|
    ensures var (dev, r) := MakeDir(su, v.dev, i, d, name);
            && Durable(v.(dev := dev)) && (r.Ok? <==> Apply(su.phone, v.dev[i], Create(d, name)).1.Ok?)
            && (r.Ok? ==> Durable(v.(dev := dev, known := v.known + {Real(i, r.value.handle)})))
  {
    hide Inv, Durable, Valid;
    DevIsValid(su, v, i);
    NextIsFree(v.dev[i]);
    var (dev, r) := MakeDir(su, v.dev, i, d, name);
    StoreDurable(v, i, dev[i], None);
    assert v.(dev := dev) == WithStore(v, i, dev[i]);
    if r.Ok? {
      SameStagesDurable(v.(dev := dev), v.(dev := dev, known := v.known + {Real(i, r.value.handle)}));
    }
  }

  lemma DirHasNoContent(su: Setup, v: View, w: View, i: nat, d: Handle, name: string)
    requires Inv(su, v) && i < |v.dev| && w.staged == v.staged && w.dev == v.dev[i := Add(v.dev[i], Object(d, name, true, []))]
    requires Real(i, v.dev[i].next) !in v.known
    ensures Content(w, Real(i, v.dev[i].next)).None?
  {
  }

  /** A directory made under a bound name. */
  lemma MkdirClash(su: Setup, v: View, w: View, i: nat, d: Handle, name: string)
    requires Inv(su, v) && i < |v.dev| && !Unbound(su, v, KeyOf(su, DirId(i, d), name))
    requires w.staged == v.staged && w.dev == v.dev[i := Add(v.dev[i], Object(d, name, true, []))]
    ensures !Inv(su, w)
  {
    hide AllValid, FilesOk, UniqueOk, KnownOk, NoAlias, Binds;
    var key, next := KeyOf(su, DirId(i, d), name), v.dev[i].next;
    StoreValid(su, v, i);
    NextIsFree(v.dev[i]);
    UnboundIsFree(su, v, key);
    assert Shows(su, w.dev, key, Real(i, next));
    if StagedUnder(su, v, key) {
      var b :| b in v.staged && StageKey(su, v.staged[b]) == key;
      assert StageOk(su, v, b);
      assert !StageOk(su, w, b);
    } else {
      var x :| Shows(su, v.dev, key, x);
      assert x.storage == i && x.handle != next && Shows(su, w.dev, key, x);
      assert !DistinctKeys(su, i, w.dev[i]);
    }
  }

  /** What a lookup found is the file whose bytes can be had, if the name has one. */
  lemma FoundIsIt(su: Setup, u: View, v: View, link: Link, dir: Id, name: string, id: Id)
    requires Inv(su, u) && v == u.(known := v.known) && Unseen(su, u, v) && Binds(su, v, KeyOf(su, dir, name), id)
    requires !StagedUnder(su, u, KeyOf(su, dir, name)) && Creatable(su, u, link, dir, name)
    ensures Readable(su, v, link, id) && id !in v.staged
  {
    hide Inv, Shows, Progressive;
    var key := KeyOf(su, dir, name);
    BoundBefore(su, u, v, key, id);
    var a :| Binds(su, u, key, a) && Readable(su, u, link, a);
    BindsOnce(su, u, key, a, id);
    ShownUnstaged(su, u, key, id);
    LearningKeepsContent(u, v.known, id);
  }

  lemma OnlyFilesHaveContent(su: Setup, v: View, key: Key, id: Id)
    requires Inv(su, v) && !StagedUnder(su, v, key) && Binds(su, v, key, id)
    ensures id !in v.staged && id.Real? && id.storage < |v.dev| && id.handle in v.dev[id.storage].objects
    ensures Content(v, id).Some? <==> !v.dev[id.storage].objects[id.handle].isDir
  {
    ShownUnstaged(su, v, key, id);
  }

  /** The phone holds the name, and cannot be asked for it: it is away, or refuses to list the
      directory. */
  ghost predicate Blind(su: Setup, v: View, link: Link, key: Key) {
    !link.Hears(key.0) && !StagedUnder(su, v, key) && !Unbound(su, v, key)
  }

  lemma TakenIsBound(su: Setup, u: View, v: View, key: Key, id: Id)
    requires Unseen(su, u, v)
    requires (id in v.staged && StageKey(su, v.staged[id]) == key) || Binds(su, v, key, id)
    ensures !Unbound(su, u, key)
  {
    hide Unseen;
    if id in v.staged && StageKey(su, v.staged[id]) == key {
      StagedBinds(su, v, key, id);
    }
    BoundBefore(su, u, v, key, id);
  }

  lemma LearningKeepsContent(v: View, known: set<Id>, id: Id)
    ensures Content(v.(known := known), id) == Content(v, id)
  {
  }

  /** A name the device shows and nobody staged, taken for new. */
  lemma CreatedBlind(su: Setup, v: View, w: View, id: Id, dir: Id, name: string)
    requires !StagedUnder(su, v, KeyOf(su, dir, name)) && !Unbound(su, v, KeyOf(su, dir, name)) && w.dev == v.dev
    requires id in w.staged && StageKey(su, w.staged[id]) == KeyOf(su, dir, name) && OnDevice(w.staged[id]).None?
    ensures !Inv(su, w)
  {
    hide DevOk, FilesOk, UniqueOk, KnownOk, NoAlias, Binds;
    var key := KeyOf(su, dir, name);
    UnboundIsFree(su, v, key);
    var x :| Shows(su, v.dev, key, x);
    assert Shows(su, w.dev, key, x);
    assert !StageOk(su, w, id);
  }

  // ---------- removing ----------

  /** A stage and its object on the device, both gone. */
  lemma StagedRemoved(su: Setup, v: View, id: Id)
    requires Inv(su, v) && id in v.staged && DirOf(v.staged[id].parent).Some?
    requires OnDevice(v.staged[id]).Some? ==>
        v.staged[id].storageIndex < |v.dev| && Apply(su.phone, v.dev[v.staged[id].storageIndex], Delete(OnDevice(v.staged[id]).value)).1.Ok?
    ensures var v1 := if OnDevice(v.staged[id]).None? then v else CopyDropped(su, v, id, v.staged[id].storageIndex);
            Inv(su, WithoutStage(v1, id)) && Does(su, v, Removed(StageKey(su, v.staged[id]), id), WithoutStage(v1, id))
  {
    hide AllValid, Valid, DevOk, DistinctKeys, FilesOk, UniqueOk, KnownOk, NoAlias, StagesOk, StageOk, Binds, Content;
    SameIsUnseen(su, v);
    if OnDevice(v.staged[id]).Some? {
      OldCopyOk(su, v, id);
    }
    var v1 := if OnDevice(v.staged[id]).None? then v else CopyDropped(su, v, id, v.staged[id].storageIndex);
    var key := StageKey(su, v.staged[id]);
    ForgottenOk(su, v1, id);
    StagedBinds(su, v1, key, id);
    QuietThen(su, v, v1, Removed(key, id), WithoutStage(v1, id));
  }

  /** An object nobody staged, gone from the device. */
  lemma UnstagedRemoved(su: Setup, u: View, v: View, key: Key, id: Id)
    requires Inv(su, v) && Unseen(su, u, v) && !StagedUnder(su, v, key) && Shows(su, v.dev, key, id)
    requires Apply(su.phone, v.dev[id.storage], Delete(id.handle)).1.Ok?
    ensures id !in v.staged
    ensures var w := WithStore(v, id.storage, Drop(v.dev[id.storage], id.handle));
            Inv(su, w) && Does(su, u, Removed(key, id), w)
  {
    hide AllValid, Valid, DevOk, DistinctKeys, FilesOk, UniqueOk, KnownOk, NoAlias, StagesOk, StageOk, Content;
    StoreValid(su, v, id.storage);
    ApplyValid(su.phone, v.dev[id.storage], Delete(id.handle));
    forall b | b in v.staged
      ensures b != id
    {
      UnstagedIsFree(su, v, key, id, b);
    }
    DropOk(su, v, id.storage, id.handle);
    QuietThen(su, u, v, Removed(key, id), WithStore(v, id.storage, Drop(v.dev[id.storage], id.handle)));
  }

  lemma StagedRemovedDurable(su: Setup, v: View, id: Id)
    requires Inv(su, v) && Durable(v) && id in v.staged
    requires OnDevice(v.staged[id]).Some? ==>
        v.staged[id].storageIndex < |v.dev| && Apply(su.phone, v.dev[v.staged[id].storageIndex], Delete(OnDevice(v.staged[id]).value)).1.Ok?
    ensures var v1 := if OnDevice(v.staged[id]).None? then v else CopyDropped(su, v, id, v.staged[id].storageIndex);
            Durable(WithoutStage(v1, id))
  {
    hide Inv, Durable;
    if OnDevice(v.staged[id]).Some? {
      RemovedDurable(su, v, id, v.staged[id].storageIndex, OnDevice(v.staged[id]).value);
    } else {
      UnstagedDurable(v, id);
    }
  }

  lemma DeletesAge(su: Setup, v: View)
    requires Inv(su, v)
    ensures forall i, h :: 0 <= i < |v.dev| ==> Ages(v.dev, v.dev[i := Apply(su.phone, v.dev[i], Delete(h)).0])
  {
    hide Inv, Valid, Ages, Apply, Evolves;
    forall i: nat, h: Handle | i < |v.dev|
      ensures Ages(v.dev, v.dev[i := Apply(su.phone, v.dev[i], Delete(h)).0])
    {
      DevIsValid(su, v, i);
      ApplyEvolves(su.phone, v.dev[i], Delete(h));
      OneStoreAges(v.dev, i, Apply(su.phone, v.dev[i], Delete(h)).0);
    }
  }

  /** Without a stage of the name, only a phone that is there can give the name up, and only a
      directory can have it. */
  lemma OnlyWithPhone(su: Setup, v: View, link: Link, dir: Id, name: string)
    requires Inv(su, v) && !StagedUnder(su, v, KeyOf(su, dir, name))
    ensures (exists a :: Binds(su, v, KeyOf(su, dir, name), a) && Deletable(su, v, link, dir, a)) ==>
        link.online && link.Hears(dir) && !dir.DeviceRoot? && !Unbound(su, v, KeyOf(su, dir, name))
  {
    hide Inv;
    if a :| Binds(su, v, KeyOf(su, dir, name), a) && Deletable(su, v, link, dir, a) {
      ShownUnstaged(su, v, KeyOf(su, dir, name), a);
    }
  }

  lemma BoundIsShown(su: Setup, v: View, key: Key, id: Id)
    requires Binds(su, v, key, id) && !StagedUnder(su, v, key)
    ensures Shows(su, v.dev, key, id) && id.Real? && id.storage < |v.dev| && id.handle in v.dev[id.storage].objects
  {
  }

  lemma ShownUnstaged(su: Setup, v: View, key: Key, id: Id)
    requires Inv(su, v) && !StagedUnder(su, v, key) && Shows(su, v.dev, key, id)
    ensures id !in v.staged && id !in v.files
  {
    hide DevOk, UniqueOk, KnownOk, NoAlias, StagesOk, Shows, StagedUnder;
    if id in v.staged {
      UnstagedIsFree(su, v, key, id, id);
    }
  }

  // ---------- renaming ----------

  lemma RelocateOk(ph: Phone, s: Store, h: Handle, from: Handle, to: Handle, fromName: string, toName: string)
    requires Valid(s) && h in s.objects && s.objects[h].parent == from
    ensures var (t, r) := Relocate(ph, s, h, from, to, fromName, toName);
            var moves, names := MoveGoes(ph, s, h, from, to), NameGoes(ph, s, h, from, to, fromName, toName);
            && Valid(t) && t.next == s.next && Evolves(s, t)
            && (r.Ok? <==> moves && names && ReportGoes(ph, s, h, to, fromName, toName))
            && (moves && names ==> t.objects == s.objects[h := Relocated(s.objects[h], to, fromName, toName)])
            && (moves && !names ==> fromName != toName && t.objects == s.objects[h := Relocated(s.objects[h], to, fromName, fromName)])
            && (!moves || (!names && from == to) ==> t == s)
  {
    hide Valid, Apply, ObjectInfo;
    var s1 := if from != to then Apply(ph, s, Move(h, to)).0 else s;
    MoveStep(ph, s, h, from, to);
    if MoveGoes(ph, s, h, from, to) {
      RenameStep(ph, s1, h, toName);
      assert from == to ==> s1 == s.(objects := s.objects[h := s.objects[h].(parent := to)]);
      var t := Relocate(ph, s, h, from, to, fromName, toName).0;
      var named := NameGoes(ph, s, h, from, to, fromName, toName);
      assert t.objects == s.objects[h := Relocated(s.objects[h], to, fromName, if named then toName else fromName)];
      assert t == s.(objects := t.objects);
      ReportsIt(ph, t, h);
    }
  }

  lemma ReportsIt(ph: Phone, s: Store, h: Handle)
    requires h in s.objects
    ensures AskInfo(ph, s, h).Ok? <==> ph.informs(s, h).None?
  {
  }

  lemma MoveStep(ph: Phone, s: Store, h: Handle, from: Handle, to: Handle)
    requires Valid(s) && h in s.objects && s.objects[h].parent == from
    ensures from != to ==>
        var (t, r) := Apply(ph, s, Move(h, to));
        && Valid(t) && Evolves(s, t) && (r.Ok? <==> MoveGoes(ph, s, h, from, to)) && r.Ok? == !r.Err?
        && t == if r.Ok? then s.(objects := s.objects[h := s.objects[h].(parent := to)]) else s
  {
    hide Valid;
    ApplyEvolves(ph, s, Move(h, to));
    ApplyValid(ph, s, Move(h, to));
  }

  lemma RenameStep(ph: Phone, s: Store, h: Handle, toName: string)
    requires Valid(s) && h in s.objects
    ensures var (t, r) := Apply(ph, s, Rename(h, toName));
            && Valid(t) && Evolves(s, t) && (r.Ok? <==> ph.refuse(s, Rename(h, toName)).None?) && r.Ok? == !r.Err?
            && t == if r.Ok? then s.(objects := s.objects[h := s.objects[h].(name := toName)]) else s
  {
    hide Valid;
    ApplyEvolves(ph, s, Rename(h, toName));
    ApplyValid(ph, s, Rename(h, toName));
  }

  /** The phone moves the object, if it has to be moved. */
  predicate MoveGoes(ph: Phone, s: Store, h: Handle, from: Handle, to: Handle) {
    from != to ==> IsDirectory(s, to) && ph.refuse(s, Move(h, to)).None?
  }

  /** Once moved, it takes its new name, if that is another one. */
  predicate NameGoes(ph: Phone, s: Store, h: Handle, from: Handle, to: Handle, fromName: string, toName: string)
    requires h in s.objects
  {
    fromName != toName ==>
      ph.refuse(if from == to then s else s.(objects := s.objects[h := s.objects[h].(parent := to)]), Rename(h, toName)).None?
  }

  /** With all that done, it reports the object. */
  predicate ReportGoes(ph: Phone, s: Store, h: Handle, to: Handle, fromName: string, toName: string)
    requires h in s.objects
  {
    ph.informs(s.(objects := s.objects[h := Relocated(s.objects[h], to, fromName, toName)]), h).None?
  }

  function Relocated(o: Object, to: Handle, fromName: string, toName: string): Object {
    Object(to, if fromName != toName then toName else o.name, o.isDir, o.data)
  }

  /** The phone shows an object under the name, on the storage both directories are on. */
  ghost predicate Movable(su: Setup, dev: Dev, dir: Id, name: string, to: Id, h: Handle) {
    DirOf(dir).Some? && DirOf(to).Some? && DirOf(dir).value.0 == DirOf(to).value.0
    && Shows(su, dev, KeyOf(su, dir, name), Real(DirOf(dir).value.0, h))
  }

  /** The phone has the object, accepts what is needed to give it its new place and name, and reports
      it. */
  ghost predicate PhoneRenames(su: Setup, dev: Dev, dir: Id, name: string, to: Id, toName: string) {
    exists h :: Movable(su, dev, dir, name, to, h)
      && var (i, d) := DirOf(dir).value;
         var t := DirOf(to).value.1;
         MoveGoes(su.phone, dev[i], h, d, t) && NameGoes(su.phone, dev[i], h, d, t, name, toName)
         && ReportGoes(su.phone, dev[i], h, t, name, toName)
  }

  /** All but the report. */
  ghost predicate PhoneSilentlyRenames(su: Setup, dev: Dev, dir: Id, name: string, to: Id, toName: string) {
    exists h :: Movable(su, dev, dir, name, to, h)
      && var (i, d) := DirOf(dir).value;
         var t := DirOf(to).value.1;
         MoveGoes(su.phone, dev[i], h, d, t) && NameGoes(su.phone, dev[i], h, d, t, name, toName)
         && !ReportGoes(su.phone, dev[i], h, t, name, toName)
  }

  /** The phone has the object and accepts the new place, but not the new name. */
  ghost predicate PhoneHalfRenames(su: Setup, dev: Dev, dir: Id, name: string, to: Id, toName: string) {
    exists h :: Movable(su, dev, dir, name, to, h)
      && var (i, d) := DirOf(dir).value;
         d != DirOf(to).value.1 && MoveGoes(su.phone, dev[i], h, d, DirOf(to).value.1)
         && !NameGoes(su.phone, dev[i], h, d, DirOf(to).value.1, name, toName)
  }

  /** The name under which an error leaves the object in the new directory, if it got there. */
  ghost function StrayName(su: Setup, dev: Dev, dir: Id, name: string, to: Id, toName: string): Option<string> {
    if PhoneHalfRenames(su, dev, dir, name, to, toName) then Some(name)
    else if PhoneSilentlyRenames(su, dev, dir, name, to, toName) then Some(toName)
    else None
  }

  predicate Movables(dir: Id, to: Id) {
    DirOf(dir).Some? && DirOf(to).Some? && DirOf(dir).value.0 == DirOf(to).value.0
  }

  /** The device after it was asked to rename. */
  function RenamedDev(su: Setup, dev: Dev, dir: Id, name: string, to: Id, toName: string): Dev
    requires Movables(dir, to) && |dev| == |su.storages|
  {
    RenameHandle(su, dev, DirOf(dir).value.0, DirOf(dir).value.1, name, DirOf(to).value.1, toName).0
  }

  lemma OneMovable(su: Setup, v: View, dir: Id, name: string, to: Id, h: Handle)
    requires Inv(su, v) && Movable(su, v.dev, dir, name, to, h)
    ensures forall x :: Movable(su, v.dev, dir, name, to, x) ==> x == h
  {
    hide Inv, Shows;
    forall x | Movable(su, v.dev, dir, name, to, x)
      ensures x == h
    {
      SameShown(su, v, KeyOf(su, dir, name), Real(DirOf(dir).value.0, h), Real(DirOf(dir).value.0, x));
    }
  }

  lemma RenamesOne(su: Setup, v: View, dir: Id, name: string, to: Id, toName: string, h: Handle)
    requires Inv(su, v) && Movable(su, v.dev, dir, name, to, h)
    ensures var (i, d) := DirOf(dir).value;
            var t := DirOf(to).value.1;
            var moves, names := MoveGoes(su.phone, v.dev[i], h, d, t), NameGoes(su.phone, v.dev[i], h, d, t, name, toName);
            var reports := ReportGoes(su.phone, v.dev[i], h, t, name, toName);
            && (PhoneRenames(su, v.dev, dir, name, to, toName) <==> moves && names && reports)
            && (PhoneSilentlyRenames(su, v.dev, dir, name, to, toName) <==> moves && names && !reports)
            && (PhoneHalfRenames(su, v.dev, dir, name, to, toName) <==> d != t && moves && !names)
  {
    hide Inv, MoveGoes, NameGoes, ReportGoes, Shows;
    OneMovable(su, v, dir, name, to, h);
  }

  lemma NothingRenamed(su: Setup, v: View, dir: Id, name: string, to: Id, toName: string)
    requires forall x :: !Shows(su, v.dev, KeyOf(su, dir, name), x)
    ensures !PhoneRenames(su, v.dev, dir, name, to, toName) && StrayName(su, v.dev, dir, name, to, toName).None?
  {
    hide MoveGoes, NameGoes, ReportGoes, Shows;
  }

  lemma UnlistedIsUnshown(su: Setup, v: View, dir: Id, name: string)
    requires Inv(su, v) && dir in v.known && DirOf(dir).Some?
    requires ListHandle(su, v.dev, DirOf(dir).value.0, DirOf(dir).value.1).Err?
    ensures forall x :: !Shows(su, v.dev, KeyOf(su, dir, name), x)
  {
    hide AllValid, DistinctKeys, StageOk;
    DirIsKnown(su, v, dir);
    var (i, h) := DirOf(dir).value;
    StoreValid(su, v, i);
    NoKidsUnlisted(su.phone, v.dev[i], h);
    forall x
      ensures !Shows(su, v.dev, KeyOf(su, dir, name), x)
    {
      ShownIsKid(su, v, dir, name, x);
    }
  }

  /** What the device does for `rename`: the object shown under the old name gets the new key; an
      error leaves everything, or the object where `StrayName` says. */
  lemma RenameHandleOk(su: Setup, v: View, dir: Id, name: string, to: Id, toName: string) returns (h: Handle)
    requires Inv(su, v) && dir in v.known && to in v.known && DirOf(dir).Some? && DirOf(to).Some? && DirOf(dir).value.0 == DirOf(to).value.0
    ensures |v.dev| == |su.storages| && DirOf(dir).value.0 < |v.dev| && DirectoryId(to)
    ensures var i := DirOf(dir).value.0;
            var (dev, r) := RenameHandle(su, v.dev, i, DirOf(dir).value.1, name, DirOf(to).value.1, toName);
            var stray := StrayName(su, v.dev, dir, name, to, toName);
            && |dev| == |v.dev| && dev == v.dev[i := dev[i]] && Valid(dev[i]) && dev[i].next == v.dev[i].next && Evolves(v.dev[i], dev[i])
            && (r.Ok? <==> PhoneRenames(su, v.dev, dir, name, to, toName))
            && (r.Ok? ==> stray.None? && Rekeyed(su, v, i, dev[i], h, dir, name, to, toName))
            && (stray.Some? ==> Rekeyed(su, v, i, dev[i], h, dir, name, to, stray.value))
            && (r.Err? && stray.None? ==> dev == v.dev)
  {
    hide Inv, Valid, Shows, Relocate, Evolves, MoveGoes, NameGoes, ReportGoes, PhoneRenames, PhoneHalfRenames, PhoneSilentlyRenames;
    h := ROOT;
    DirIsKnown(su, v, dir);
    DirIsKnown(su, v, to);
    var i := DirOf(dir).value.0;
    DevIsValid(su, v, i);
    EvolvesToItself(v.dev[i]);
    if ListHandle(su, v.dev, i, DirOf(dir).value.1).Ok? {
      ListedShows(su, v, dir, name);
      var child := ChildByName(su.phone.folding, ListHandle(su, v.dev, i, DirOf(dir).value.1).value, name);
      if child.Some? {
        h := child.value.handle;
        RelocateOk(su.phone, v.dev[i], h, DirOf(dir).value.1, DirOf(to).value.1, name, toName);
        ShownIsKid(su, v, dir, name, Real(i, h));
        RenamesOne(su, v, dir, name, to, toName, h);
      } else {
        NothingRenamed(su, v, dir, name, to, toName);
      }
    } else {
      UnlistedIsUnshown(su, v, dir, name);
      NothingRenamed(su, v, dir, name, to, toName);
    }
  }

  /** `t` is storage `i` with the object shown as `name` in `dir` now shown as `toName` in `to`. */
  ghost predicate Rekeyed(su: Setup, v: View, i: nat, t: Store, h: Handle, dir: Id, name: string, to: Id, toName: string)
    requires i < |v.dev| && DirOf(to).Some?
  {
    && h in v.dev[i].objects && Shows(su, v.dev, KeyOf(su, dir, name), Real(i, h))
    && var o := Relocated(v.dev[i].objects[h], DirOf(to).value.1, name, toName);
       t.objects == v.dev[i].objects[h := o] && ObjKey(su, i, o) == KeyOf(su, to, toName)
  }

  lemma EvolvesToItself(s: Store)
    ensures Evolves(s, s)
  {
  }

  /** A rename the client may ask for: into a directory, to a name nothing else has. */
  ghost predicate NewPlace(su: Setup, v: View, key: Key, to: Id, toName: string) {
    DirectoryId(to) && (KeyOf(su, to, toName) == key || Unbound(su, v, KeyOf(su, to, toName)))
  }

  /** A stage under the name that the phone has never had. */
  ghost predicate LocalOnly(su: Setup, v: View, key: Key) {
    exists a :: a in v.staged && StageKey(su, v.staged[a]) == key && OnDevice(v.staged[a]).None?
  }

  /** A stage under the name that was pulled from the phone and not flushed since. */
  ghost predicate PulledOnly(su: Setup, v: View, key: Key) {
    exists a :: a in v.staged && StageKey(su, v.staged[a]) == key && v.staged[a].originDev.Some? && v.staged[a].flushedDev.None?
  }

  /** `rename` goes through: a file the phone never had is renamed locally; a file pulled from the
      phone and not flushed since is not renamed; any other when the phone can be asked and agrees. */
  ghost predicate RenameGoes(su: Setup, v: View, link: Link, writable: bool, from: Id, fromName: string, to: Id, toName: string) {
    var key := KeyOf(su, from, fromName);
    writable && (LocalOnly(su, v, key)
                 || (link.Hears(from) && !PulledOnly(su, v, key) && PhoneRenames(su, v.dev, from, fromName, to, toName)))
  }

  /** It ends in an error with the object in the new directory, under the name given. */
  ghost function RenameStrays(su: Setup, v: View, link: Link, writable: bool, from: Id, fromName: string, to: Id,
      toName: string): Option<string> {
    var key := KeyOf(su, from, fromName);
    if writable && link.Hears(from) && !LocalOnly(su, v, key) && !PulledOnly(su, v, key)
    then StrayName(su, v.dev, from, fromName, to, toName) else None
  }

  /** Such an end does no harm: the name it leaves is the file's own or free, and no stage of the file
      is left behind under another. */
  ghost predicate StrayIsSafe(su: Setup, v: View, key: Key, to: Id, landed: string) {
    NewPlace(su, v, key, to, landed) && (StagedUnder(su, v, key) ==> KeyOf(su, to, landed) == key)
  }

  /** What the one stage of a name says of the two. */
  lemma StageKind(su: Setup, v: View, id: Id)
    requires Inv(su, v) && id in v.staged
    ensures LocalOnly(su, v, StageKey(su, v.staged[id])) <==> OnDevice(v.staged[id]).None?
    ensures PulledOnly(su, v, StageKey(su, v.staged[id])) <==> v.staged[id].originDev.Some? && v.staged[id].flushedDev.None?
  {
    hide DevOk, FilesOk, KnownOk, NoAlias, StagesOk;
  }

  lemma CopyLostIs(su: Setup, v: View, id: Id)
    requires Inv(su, v) && id in v.staged
    ensures CopyLost(su, v, StageKey(su, v.staged[id])) <==> LostCopy(v, id)
  {
    hide DevOk, FilesOk, KnownOk, NoAlias, StagesOk;
  }

  lemma NoCopyLost(su: Setup, v: View, key: Key)
    requires !StagedUnder(su, v, key)
    ensures !CopyLost(su, v, key)
  {
  }

  /** What a name's file says of the two. */
  lemma BoundKind(su: Setup, v: View, key: Key, id: Id)
    requires Inv(su, v) && Binds(su, v, key, id)
    ensures id in v.staged <==> StagedUnder(su, v, key)
    ensures id in v.staged ==>
        && (LocalOnly(su, v, key) <==> OnDevice(v.staged[id]).None?)
        && (PulledOnly(su, v, key) <==> v.staged[id].originDev.Some? && v.staged[id].flushedDev.None?)
    ensures id !in v.staged ==> id.Real? && !LocalOnly(su, v, key) && !PulledOnly(su, v, key)
  {
    hide Inv;
    if StagedUnder(su, v, key) {
      StageKind(su, v, id);
    } else {
      ShownUnstaged(su, v, key, id);
      UnstagedKind(su, v, key);
    }
  }

  /** Without a stage of the name, only the phone can rename, and only in a directory. */
  lemma OnlyPhoneRenames(su: Setup, v: View, from: Id, fromName: string, to: Id, toName: string)
    requires !StagedUnder(su, v, KeyOf(su, from, fromName))
    ensures from.DeviceRoot? || Unbound(su, v, KeyOf(su, from, fromName)) ==>
        !PhoneRenames(su, v.dev, from, fromName, to, toName) && StrayName(su, v.dev, from, fromName, to, toName).None?
  {
    hide MoveGoes, NameGoes, ReportGoes;
    if !from.DeviceRoot? && Unbound(su, v, KeyOf(su, from, fromName)) {
      UnboundIsFree(su, v, KeyOf(su, from, fromName));
      NothingRenamed(su, v, from, fromName, to, toName);
    }
  }

  lemma NotMovable(su: Setup, dev: Dev, from: Id, fromName: string, to: Id, toName: string)
    requires DirOf(from).None? || DirOf(to).None? || DirOf(from).value.0 != DirOf(to).value.0
    ensures !PhoneRenames(su, dev, from, fromName, to, toName) && StrayName(su, dev, from, fromName, to, toName).None?
  {
    hide MoveGoes, NameGoes, ReportGoes;
  }

  lemma RekeyedDurable(su: Setup, v: View, i: nat, t: Store, h: Handle, dir: Id, name: string, to: Id, toName: string)
    requires Durable(v) && i < |v.dev| && DirOf(to).Some? && Rekeyed(su, v, i, t, h, dir, name, to, toName)
    ensures Durable(WithStore(v, i, t))
  {
    hide Durable, Shows;
    StoreDurable(v, i, t, None);
  }

  lemma UnstagedKind(su: Setup, v: View, key: Key)
    requires !StagedUnder(su, v, key)
    ensures !LocalOnly(su, v, key) && !PulledOnly(su, v, key)
  {
  }

  /** The id names no directory the phone has: a file's id, or that of a directory that is gone. The
      adapter looks at the form of the id only. */
  ghost predicate NoDirectory(v: View, dir: Id) {
    DirOf(dir).Some? && DirOf(dir).value.0 < |v.dev| && !IsDirectory(v.dev[DirOf(dir).value.0], DirOf(dir).value.1)
  }

  /** A dirty stage the phone will not take. */
  ghost predicate Astray(su: Setup, v: View, id: Id) {
    id in v.staged && v.staged[id].dirty && !FlushTaken(su, v, id)
  }

  lemma NoDirectoryAstray(su: Setup, v: View, id: Id)
    requires id in v.staged && v.staged[id].dirty && NoDirectory(v, v.staged[id].parent)
    ensures Astray(su, v, id)
  {
    var (p, d) := DirOf(v.staged[id].parent).value;
    NoFlushWithoutDirectory(su, v, id, p, d);
  }

  lemma LocalRenameDoes(su: Setup, v: View, id: Id, to: Id, toName: string)
    requires Inv(su, v) && id in v.staged && OnDevice(v.staged[id]).None? && NewPlace(su, v, StageKey(su, v.staged[id]), to, toName)
    ensures id in v.files
    ensures var w := v.(staged := v.staged[id := v.staged[id].(parent := to, name := toName)]);
            Inv(su, w) && Does(su, v, Renamed(StageKey(su, v.staged[id]), KeyOf(su, to, toName), id), w)
  {
    hide Inv, Binds, Content;
    StagedDir(su, v, id);
    RenamedOk(su, v, id, to, toName);
    var w := WithStage(v, id, v.staged[id].(parent := to, name := toName), v.files[id]);
    assert w.files == v.files;
    OnlyOne(su, w, KeyOf(su, to, toName), id);
    StagedBinds(su, v, StageKey(su, v.staged[id]), id);
  }

  /** The view after the device renamed object `h` of storage `i`, its stage following if there is one. */
  ghost function AfterRename(v: View, id: Id, i: nat, t: Store, to: Id, toName: string): View
    requires i < |v.dev|
  {
    var u := WithStore(v, i, t);
    if id in v.staged then u.(staged := v.staged[id := v.staged[id].(parent := to, name := toName)]) else u
  }

  lemma StagedRenameDoes(su: Setup, v: View, id: Id, h: Handle, o: Object, t: Store, to: Id, toName: string)
    requires Inv(su, v) && id in v.staged && NewPlace(su, v, StageKey(su, v.staged[id]), to, toName)
    requires var i := v.staged[id].storageIndex;
             && i < |v.dev| && h in v.dev[i].objects && Valid(t) && t.next == v.dev[i].next
             && t.objects == v.dev[i].objects[h := o] && o.isDir == v.dev[i].objects[h].isDir && o.data == v.dev[i].objects[h].data
             && KeyOf(su, to, toName) == ObjKey(su, i, o) && Shows(su, v.dev, StageKey(su, v.staged[id]), Real(i, h))
    ensures var i := v.staged[id].storageIndex;
            var w := AfterRename(v, id, i, t, to, toName);
            Inv(su, w) && Does(su, v, Renamed(StageKey(su, v.staged[id]), KeyOf(su, to, toName), id), w)
  {
    hide Inv, Valid, Binds, Content, Shows;
    var i := v.staged[id].storageIndex;
    ShownBehind(su, v, id, Real(i, h));
    RenamedStageOk(su, v, id, h, o, t, to, toName);
    var w := WithStage(WithStore(v, i, t), id, v.staged[id].(parent := to, name := toName), v.files[id]);
    assert w.files == v.files && w == AfterRename(v, id, i, t, to, toName);
    OnlyOne(su, w, KeyOf(su, to, toName), id);
    StagedBinds(su, v, StageKey(su, v.staged[id]), id);
  }

  lemma ShownBehind(su: Setup, v: View, id: Id, x: Id)
    requires Inv(su, v) && id in v.staged && Shows(su, v.dev, StageKey(su, v.staged[id]), x)
    ensures OnDevice(v.staged[id]) == Some(x.handle)
  {
    assert StageOk(su, v, id);
    ShownIsOurs(su, v, id, x);
  }

  lemma UnstagedRenameDoes(su: Setup, v: View, key: Key, id: Id, o: Object, t: Store, to: Id, toName: string)
    requires Inv(su, v) && !StagedUnder(su, v, key) && Shows(su, v.dev, key, id) && NewPlace(su, v, key, to, toName)
    requires var i, h := id.storage, id.handle;
             && Valid(t) && t.next == v.dev[i].next
             && t.objects == v.dev[i].objects[h := o] && o.isDir == v.dev[i].objects[h].isDir && o.data == v.dev[i].objects[h].data
             && KeyOf(su, to, toName) == ObjKey(su, i, o)
    ensures var w := AfterRename(v, id, id.storage, t, to, toName);
            Inv(su, w) && Does(su, v, Renamed(key, KeyOf(su, to, toName), id), w)
  {
    hide Inv, Valid, Binds, Content, StagedUnder;
    ShownUnstaged(su, v, key, id);
    RenamedObjectOk(su, v, id.storage, id.handle, o, t);
    OnlyOne(su, AfterRename(v, id, id.storage, t, to, toName), KeyOf(su, to, toName), id);
    ShownBinds(su, v, key, id);
  }

  // ---------- renaming onto a name that is taken ----------

  lemma LocalRenameClash(su: Setup, v: View, id: Id, to: Id, toName: string)
    requires Inv(su, v) && id in v.staged && OnDevice(v.staged[id]).None? && !NewPlace(su, v, StageKey(su, v.staged[id]), to, toName)
    ensures !Inv(su, v.(staged := v.staged[id := v.staged[id].(parent := to, name := toName)]))
  {
    hide DevOk, FilesOk, KnownOk, NoAlias, Binds;
    var w, target := v.(staged := v.staged[id := v.staged[id].(parent := to, name := toName)]), KeyOf(su, to, toName);
    UnboundIsFree(su, v, target);
    assert StageKey(su, w.staged[id]) == target;
    if StagedUnder(su, v, target) {
      var b :| b in v.staged && StageKey(su, v.staged[b]) == target;
      assert b in w.staged && (b != id ==> StageKey(su, w.staged[b]) == target);
    } else if x :| Shows(su, v.dev, target, x) {
      assert Shows(su, w.dev, target, x);
    }
    assert !StageOk(su, w, id) || !UniqueOk(su, w);
  }

  lemma DeviceRenameClash(su: Setup, v: View, key: Key, id: Id, i: nat, h: Handle, o: Object, t: Store, to: Id, toName: string)
    requires Inv(su, v) && i < |v.dev| && h in v.dev[i].objects && Shows(su, v.dev, key, Real(i, h))
    requires if id in v.staged then StageKey(su, v.staged[id]) == key else !StagedUnder(su, v, key)
    requires t.objects == v.dev[i].objects[h := o] && KeyOf(su, to, toName) == ObjKey(su, i, o)
    requires DirectoryId(to) && !NewPlace(su, v, key, to, toName)
    ensures !Inv(su, AfterRename(v, id, i, t, to, toName))
  {
    hide Inv, Binds, Shows, Unbound;
    var w, target := AfterRename(v, id, i, t, to, toName), KeyOf(su, to, toName);
    UnboundIsFree(su, v, target);
    RekeyedShows(su, v, w, key, i, h, o, t, target);
    if StagedUnder(su, v, target) {
      var b :| b in v.staged && StageKey(su, v.staged[b]) == target;
      ClashWithStage(su, v, w, key, id, b, i, h);
    } else {
      var x :| Shows(su, v.dev, target, x);
      ClashWithObject(su, w, target, Real(i, h), x);
    }
  }

  lemma RekeyedShows(su: Setup, v: View, w: View, key: Key, i: nat, h: Handle, o: Object, t: Store, target: Key)
    requires i < |v.dev| && h in v.dev[i].objects && t.objects == v.dev[i].objects[h := o] && w.dev == v.dev[i := t]
    requires Shows(su, v.dev, key, Real(i, h)) && target == ObjKey(su, i, o) && target != key
    ensures Shows(su, w.dev, target, Real(i, h))
    ensures forall x :: Shows(su, v.dev, target, x) ==> x != Real(i, h) && Shows(su, w.dev, target, x)
  {
  }

  /** Two objects under one name. */
  lemma ClashWithObject(su: Setup, w: View, target: Key, a: Id, b: Id)
    requires Shows(su, w.dev, target, a) && Shows(su, w.dev, target, b) && a != b
    ensures !Inv(su, w)
  {
    hide FilesOk, UniqueOk, KnownOk, NoAlias, StagesOk;
    if DevOk(su, w) {
      ShownOnce(su, w, target, a, b);
    }
  }

  /** The new name belongs to a stage, which stands for another object or none. */
  lemma ClashWithStage(su: Setup, v: View, w: View, key: Key, id: Id, b: Id, i: nat, h: Handle)
    requires Inv(su, v) && b in v.staged && b in w.staged && b != id && w.staged[b] == v.staged[b] && key != StageKey(su, v.staged[b])
    requires Shows(su, v.dev, key, Real(i, h)) && Shows(su, w.dev, StageKey(su, v.staged[b]), Real(i, h))
    ensures !Inv(su, w)
  {
    hide DevOk, FilesOk, UniqueOk, KnownOk, NoAlias;
    assert StageOk(su, v, b);
    assert !StageOk(su, w, b);
  }

  /** The object moved, the stage's record did not follow. */
  lemma StageLeftBehind(su: Setup, v: View, id: Id, i: nat, h: Handle, o: Object, t: Store)
    requires Inv(su, v) && id in v.staged && i < |v.dev| && h in v.dev[i].objects && Shows(su, v.dev, StageKey(su, v.staged[id]), Real(i, h))
    requires t.objects == v.dev[i].objects[h := o] && ObjKey(su, i, o) != StageKey(su, v.staged[id])
    ensures !Inv(su, WithStore(v, i, t))
  {
    hide DevOk, FilesOk, UniqueOk, KnownOk, NoAlias;
    ShownBehind(su, v, id, Real(i, h));
    assert StageOk(su, v, id);
    ShownIsOurs(su, v, id, Real(i, h));
    assert !StageOk(su, WithStore(v, i, t), id);
  }

  lemma ShownBinds(su: Setup, v: View, key: Key, id: Id)
    requires !StagedUnder(su, v, key) && Shows(su, v.dev, key, id)
    ensures Binds(su, v, key, id)
  {
  }

  /** The storage on which `rename` asks is the directory's. */
  lemma BoundStorage(su: Setup, v: View, dir: Id, name: string, id: Id)
    requires Inv(su, v) && DirOf(dir).Some? && Binds(su, v, KeyOf(su, dir, name), id)
    ensures id in v.staged <==> StagedUnder(su, v, KeyOf(su, dir, name))
    ensures id in v.staged ==>
        StageKey(su, v.staged[id]) == KeyOf(su, dir, name)
        && (OnDevice(v.staged[id]).Some? ==> v.staged[id].storageIndex == DirOf(dir).value.0)
    ensures id !in v.staged ==> Shows(su, v.dev, KeyOf(su, dir, name), id) && id.storage == DirOf(dir).value.0
  {
    hide DevOk, FilesOk, KnownOk, NoAlias, UniqueOk;
    var key := KeyOf(su, dir, name);
    if StagedUnder(su, v, key) {
      assert StageOk(su, v, id);
    } else {
      ShownUnstaged(su, v, key, id);
    }
  }

  lemma SameShown(su: Setup, v: View, key: Key, a: Id, b: Id)
    requires Inv(su, v) && Shows(su, v.dev, key, a) && Shows(su, v.dev, key, b)
    ensures a == b
  {
    ShownOnce(su, v, key, a, b);
  }

  lemma SameNewPlace(su: Setup, u: View, v: View, key: Key, to: Id, toName: string)
    requires Unseen(su, u, v)
    ensures NewPlace(su, u, key, to, toName) <==> NewPlace(su, v, key, to, toName)
  {
    hide Binds, Unbound, Unseen;
    BoundBefore(su, u, v, KeyOf(su, to, toName), to);
  }

  // ---------- whole runs ----------

  /** A commit at the end of any run puts on the phone exactly what the run's writes and
      truncations make of the file, however many commits failed before it, and wherever in the run
      the client came by the file. */
  lemma CommitPublishesTheRun(su: Setup, views: seq<View>, events: seq<Event>, k: nat, id: Id, w: View)
    requires Trace(su, views, events) && k <= |events| && Has(views, events, k, id)
    requires id in views[|events|].staged && StagesKept(views[|events|], w, id) && HoldsStage(views[|events|].dev, w, id)
    ensures PhoneCopy(w, id) == BytesAfter(id, Content(views[k], id), events[k..])
    ensures PhoneCopy(w, id).Some?
  {
    hide SameNamesExcept, SameContentExcept;
    BytesSince(su, views, events, k, id);
  }

  /** A rename the device carried out whole. */
  lemma RekeyedDoes(su: Setup, v: View, id: Id, i: nat, t: Store, h: Handle, dir: Id, name: string, to: Id, toName: string)
    requires Inv(su, v) && i < |v.dev| && DirOf(to).Some? && DirectoryId(to) && Valid(t) && t.next == v.dev[i].next
    requires Rekeyed(su, v, i, t, h, dir, name, to, toName)
    requires if id in v.staged then StageKey(su, v.staged[id]) == KeyOf(su, dir, name) && v.staged[id].storageIndex == i
             else !StagedUnder(su, v, KeyOf(su, dir, name)) && Shows(su, v.dev, KeyOf(su, dir, name), id)
    ensures var key, w := KeyOf(su, dir, name), AfterRename(v, id, i, t, to, toName);
            && (Inv(su, w) <==> NewPlace(su, v, key, to, toName))
            && (Inv(su, w) ==> Does(su, v, Renamed(key, KeyOf(su, to, toName), id), w))
  {
    hide Inv, Valid, Shows, Does, StagedUnder, NewPlace;
    var key, o := KeyOf(su, dir, name), Relocated(v.dev[i].objects[h], DirOf(to).value.1, name, toName);
    if !NewPlace(su, v, key, to, toName) {
      DeviceRenameClash(su, v, key, id, i, h, o, t, to, toName);
    } else if id in v.staged {
      StagedRenameDoes(su, v, id, h, o, t, to, toName);
    } else {
      SameShown(su, v, key, id, Real(i, h));
      UnstagedRenameDoes(su, v, key, id, o, t, to, toName);
    }
  }

  /** A rename the device carried out, or only its move, that ended in an error: the stage, if there
      is one, keeps its record. */
  lemma StrayedDoes(su: Setup, v: View, id: Id, i: nat, t: Store, h: Handle, dir: Id, name: string, to: Id, landed: string)
    requires Inv(su, v) && i < |v.dev| && DirOf(to).Some? && DirectoryId(to) && Valid(t) && t.next == v.dev[i].next
    requires Rekeyed(su, v, i, t, h, dir, name, to, landed)
    requires if id in v.staged then StageKey(su, v.staged[id]) == KeyOf(su, dir, name) && v.staged[id].storageIndex == i
             else !StagedUnder(su, v, KeyOf(su, dir, name)) && Shows(su, v.dev, KeyOf(su, dir, name), id)
    ensures var key, w := KeyOf(su, dir, name), WithStore(v, i, t);
            && (Inv(su, w) <==> NewPlace(su, v, key, to, landed) && (id in v.staged ==> KeyOf(su, to, landed) == key))
            && (Inv(su, w) ==> Does(su, v, Renamed(key, KeyOf(su, to, landed), id), w))
  {
    hide Inv, Valid, Shows, Does, StagedUnder, NewPlace, Unseen;
    var key := KeyOf(su, dir, name);
    if id !in v.staged {
      RekeyedDoes(su, v, id, i, t, h, dir, name, to, landed);
    } else if KeyOf(su, to, landed) != key {
      StageLeftBehind(su, v, id, i, h, Relocated(v.dev[i].objects[h], DirOf(to).value.1, name, landed), t);
    } else {
      OwnPlace(su, v, key, to, landed);
      RekeyedDoes(su, v, id, i, t, h, dir, name, to, landed);
      OldRecord(su, AfterRename(v, id, i, t, to, landed), WithStore(v, i, t), id);
      ThenQuiet(su, v, Renamed(key, key, id), AfterRename(v, id, i, t, to, landed), WithStore(v, i, t));
    }
  }

  lemma OwnPlace(su: Setup, v: View, key: Key, to: Id, toName: string)
    requires DirectoryId(to) && KeyOf(su, to, toName) == key
    ensures NewPlace(su, v, key, to, toName)
  {
  }

  /** A stage's record may keep another spelling of its name. */
  lemma OldRecord(su: Setup, v: View, w: View, id: Id)
    requires Inv(su, v) && id in v.staged && id in w.staged && w == v.(staged := v.staged[id := w.staged[id]])
    requires w.staged[id] == v.staged[id].(name := w.staged[id].name) && StageKey(su, w.staged[id]) == StageKey(su, v.staged[id])
    ensures Inv(su, w) && Unseen(su, v, w)
  {
    hide AllValid, DistinctKeys, Binds, Shows, StageOk, StagesOk, NoAlias, KnownOk, DevOk;
    SameDevOk(su, v, w);
    OldRecordStages(su, v, w, id);
    SameKeysBind(su, v, w);
  }

  lemma OldRecordStages(su: Setup, v: View, w: View, id: Id)
    requires KnownOk(v) && NoAlias(v) && StagesOk(su, v) && id in v.staged && id in w.staged && w == v.(staged := v.staged[id := w.staged[id]])
    requires w.staged[id] == v.staged[id].(name := w.staged[id].name) && StageKey(su, w.staged[id]) == StageKey(su, v.staged[id])
    ensures KnownOk(w) && NoAlias(w) && StagesOk(su, w)
  {
    hide StageOk;
    forall a | a in w.staged
      ensures StageOk(su, w, a)
    {
      assert StageOk(su, v, a);
      OldRecordOk(su, v, w, id, a);
    }
    forall b, a | b in w.staged && a in w.known
      ensures Unaliased(w, b, a)
    {
      assert Unaliased(v, b, a);
    }
    forall a | a in w.known
      ensures KnownId(w, a)
    {
      assert KnownId(v, a);
    }
  }

  lemma OldRecordOk(su: Setup, v: View, w: View, id: Id, a: Id)
    requires a in v.staged && StageOk(su, v, a) && id in v.staged && id in w.staged && w == v.(staged := v.staged[id := w.staged[id]])
    requires w.staged[id] == v.staged[id].(name := w.staged[id].name) && StageKey(su, w.staged[id]) == StageKey(su, v.staged[id])
    ensures StageOk(su, w, a)
  {
  }
}
