/** The NFS adapter: `MtpNfs` of `crates/nfs-mount/src/adapter.rs`, one VFS call at a time.

    The device is reached through the answers of `PlainActor`, which the cached actor gives. */
module Adapter {
  import opened Wrappers
  import opened Names
  import opened Phones
  import opened PlainActor
  import opened Staging
  import opened StagingSteps
  import opened Durability
  import opened ByteFiles
  import opened FileViews
  import opened AdapterFacts
  import opened Paging
  import opened DirLists

  const CHUNK: nat := 0x10_0000

  class MtpNfs {
    const su: Setup
    const writable: bool
    var dev: Dev
    /** Whether the phone is there, and what it would not list. */
    var link: Link
    var staged: map<Id, Stage>
    var files: map<Id, Bytes>
    var lastVirtual: nat
    var attrs: map<Id, AttrCache>
    var clock: Time
    /** Ids handed to clients by `lookup`, `create` and `mkdir`. */
    ghost var known: set<Id>

    ghost function V(): View
      reads this
    {
      View(dev, staged, files, lastVirtual, known)
    }

    ghost predicate Ok()
      reads this
    {
      Inv(su, V()) && AttrsOk(dev, attrs) && Durable(V()) && DeviceRoot in known && forall i :: 0 <= i < |dev| ==> StorageRoot(i) in known
    }

    /** A freshly attached session: nothing staged, nothing known but the roots. */
    constructor (su: Setup, dev: Dev, writable: bool)
      requires |dev| == |su.storages| && AllValid(dev) && forall i :: 0 <= i < |dev| ==> DistinctKeys(su, i, dev[i])
      ensures Ok() && this.su == su && this.dev == dev && this.writable == writable && link == Link(true, map[])
      ensures staged == map[] && files == map[] && lastVirtual == 0
    {
      this.su, this.dev, this.writable := su, dev, writable;
      link := Link(true, map[]);
      staged, files, lastVirtual, attrs, clock := map[], map[], 0, map[], 0;
      known := {DeviceRoot} + set i | 0 <= i < |dev| :: StorageRoot(i);
    }

    method Now() returns (t: Time)
      modifies this`clock
      ensures t == clock >= old(clock)
    {
      var elapsed: nat :| elapsed >= 0;
      clock := clock + elapsed;
      t := clock;
    }

    // ---------- the session ----------

    /** `detach`: the phone is away; the stages stay. */
    method Detach()
      modifies this`link
      ensures link == Link(false, map[]) && V() == old(V()) && (old(Ok()) ==> Ok())
    {
      link := Link(false, map[]);
    }

    /** `attach`, of the same phone with its storages and handles unchanged. */
    method Attach()
      modifies this`link, this`attrs
      ensures link == Link(true, map[]) && V() == old(V()) && (old(Ok()) ==> Ok())
    {
      hide Inv, AttrsOk, Durable;
      link := Link(true, map[]);
      attrs := map[];
      NoAttrs(dev);
    }

    /** What the phone can be asked may change between any two calls. */
    method Meet(now: Link)
      modifies this`link
      ensures link == now && V() == old(V()) && (old(Ok()) ==> Ok())
    {
      link := now;
    }

    // ---------- names ----------

    method StagedLookup(dir: Id, name: string) returns (r: Option<Id>)
      ensures r.Some? ==> r.value in staged && StageKey(su, staged[r.value]) == KeyOf(su, dir, name)
      ensures r.None? <==> !StagedUnder(su, V(), KeyOf(su, dir, name))
    {
      if id :| id in staged && staged[id].parent == dir && Fold(su.phone.folding, staged[id].name) == Fold(su.phone.folding, name) {
        assert StageKey(su, V().staged[id]) == KeyOf(su, dir, name);
        return Some(id);
      }
      r := None;
    }

    /** `lookup`: staged names first, then the device. A name it finds is bound to the id it gives;
        while the phone answers for the directory, a name it does not find is bound to nothing. */
    method Lookup(dir: Id, name: string) returns (r: Nfs<Id>)
      requires Ok() && dir in known
      modifies this`known
      ensures Ok() && Unseen(su, old(V()), V()) && old(known) <= known
      ensures dir.DeviceRoot? ==> r == match StorageNamed(su, name, 0) case Some(i) => Good(StorageRoot(i)) case None => Bad(NoEnt)
      ensures r.Good? ==> r.value in known
      ensures !dir.DeviceRoot? && r.Good? ==> Binds(su, V(), KeyOf(su, dir, name), r.value)
      ensures r.Good? && DirOf(dir).Some? && !StagedUnder(su, V(), KeyOf(su, dir, name)) ==> link.Hears(dir)
      ensures !dir.DeviceRoot? && r.Bad? && link.Hears(dir) ==> Unbound(su, V(), KeyOf(su, dir, name))
      ensures r.Bad? ==> V() == old(V()) && !StagedUnder(su, V(), KeyOf(su, dir, name))
    {
      hide Inv, AttrsOk, Durable, Shows, Valid;
      NoStageInRoot(su, V(), name);
      StorageCount(su, V());
      var found := StagedLookup(dir, name);
      if found.Some? {
        StagedIsKnown(su, V(), found.value);
        return Good(found.value);
      }
      match dir {
        case DeviceRoot =>
          for i := 0 to |su.storages|
            invariant StorageNamed(su, name, 0) == StorageNamed(su, name, i)
          {
            if Fold(su.phone.folding, su.storages[i].description) == Fold(su.phone.folding, name) || name == Decimal(i + 1) {
              return Good(StorageRoot(i));
            }
          }
          return Bad(NoEnt);
        case Virtual(_) =>
          NothingInVirtual(su, V(), dir, name);
          return Bad(BadHandle);
        case _ =>
      }
      var (i, h) := DirOf(dir).value;
      if !link.online {
        return Bad(IO);
      }
      if (i, h) in link.mute {
        return Bad(NfsErr(link.mute[(i, h)]));
      }
      DirIsKnown(su, V(), dir);
      var entries := ListHandle(su, dev, i, h);
      if entries.Err? {
        UnlistedIsUnbound(su, V(), dir, name);
        return Bad(NfsErr(entries.error));
      }
      var child := ChildByName(su.phone.folding, entries.value, name);
      ListedBinding(su, V(), dir, name);
      if child.None? {
        return Bad(NoEnt);
      }
      r := Good(Real(i, child.value.handle));
      LearnedOk(su, V(), KeyOf(su, dir, name), r.value);
      known := known + {r.value};
      SameStagesDurable(old(V()), V());
    }

    // ---------- staging ----------

    /** `ensure_staged_existing`: all of the object's bytes, or no stage at all. */
    method EnsureStagedExisting(id: Id, i: nat, h: Handle, name: string, parent: Id, size: nat) returns (r: Nfs<()>)
      requires Ok() && id == Real(i, h) && id in known && i < |dev| == |su.storages| && h in dev[i].objects
      requires var o := dev[i].objects[h]; !o.isDir && name == o.name && parent == DirId(i, o.parent) && size == |o.data|
      modifies this`staged, this`files
      ensures Ok() && Unseen(su, old(V()), V())
      ensures r.Good? ==> id in staged
      ensures r.Bad? || id in old(staged) ==> V() == old(V())
      ensures r.Good? && id !in old(staged) ==> V() == WithStage(old(V()), id, PulledStage(i, h, dev[i].objects[h]), dev[i].objects[h].data)
      ensures link.online && Progressive(su.phone) ==> r.Good?
    {
      hide Inv, AttrsOk, Durable, Shows, Valid, Binds, SameNamesExcept, SameContentExcept, Progressive;
      SameIsUnseen(su, V());
      if id in staged {
        return Good(());
      }
      var out: Bytes := [];
      var off := 0;
      while off < size
        invariant V() == old(V()) && off == |out| <= size && out == dev[i].objects[h].data[..off]
        decreases size - off
      {
        var want := Min(size - off, CHUNK);
        if !link.online {
          return Bad(IO);
        }
        var data := ReadHandle(su, dev, i, h, off, want);
        if Progressive(su.phone) {
          ProgressReads(su.phone, dev[i], h, off, want);
        }
        if data.Err? {
          return Bad(NfsErr(data.error));
        }
        if data.value == [] {
          break;
        }
        out := out + data.value;
        off := off + |data.value|;
      }
      if |out| != size {
        return Bad(IO);
      }
      assert out == dev[i].objects[h].data;
      PulledOk(su, V(), i, h);
      staged := staged[id := Stage(i, parent, name, size, Some(h), None, false)];
      files := files[id := out];
      StageSetDurable(old(V()), V(), id, staged[id], out);
      r := Good(());
    }

    /** `stage_for_writes`. A directory is never staged. */
    method StageForWrites(id: Id) returns (r: Nfs<()>)
      requires Ok() && id in known
      modifies this`staged, this`files
      ensures Ok() && Unseen(su, old(V()), V())
      ensures r.Good? ==> id in staged && writable
      ensures r.Bad? || id in old(staged) ==> V() == old(V())
      ensures id in old(staged) && writable ==> r.Good?
      ensures writable && Readable(su, old(V()), link, id) ==> r.Good?
      ensures r.Good? && id !in old(staged) ==>
          id.Real? && !staged[id].dirty && staged[id].originDev == Some(id.handle) && staged[id].flushedDev.None?
    {
      hide Inv, AttrsOk, Durable, Shows, Valid, Binds, SameNamesExcept, SameContentExcept, Progressive;
      SameIsUnseen(su, V());
      if !writable {
        return Bad(RoFs);
      }
      if id in staged {
        return Good(());
      }
      match id {
        case Real(i, h) =>
          if !link.online {
            return Bad(IO);
          }
          RealIsKnown(su, V(), id);
          var info := InfoHandle(su, dev, i, h);
          if info.Err? {
            return Bad(NfsErr(info.error));
          }
          if info.value.isDir {
            return Bad(IsDir);
          }
          var parent := if info.value.parent == 0 then StorageRoot(i) else Real(i, info.value.parent);
          r := EnsureStagedExisting(id, i, h, info.value.name, parent, info.value.size);
        case _ =>
          r := Bad(NoEnt);
      }
    }

    /** `stage_new`: an existing file keeps its bytes, and a name nothing binds gets a new empty file.
        A failing lookup is taken for a missing name: a file created while the phone is away, or
        refuses to list the directory, keeps the invariant exactly when the phone does not hold the
        name already. */
    method StageNew(dir: Id, name: string) returns (r: Nfs<Id>)
      requires Ok() && dir in known
      modifies this`staged, this`files, this`lastVirtual, this`known
      ensures r.Bad? ==> Ok() && Unseen(su, old(V()), V())
      ensures r.Good? ==> r.value in staged && r.value in files && r.value in known && writable && DirectoryId(dir) && AttrsOk(dev, attrs)
      ensures var key := KeyOf(su, dir, name);
              r.Good? && !Blind(su, old(V()), link, key) ==>
                && Ok() && Binds(su, V(), key, r.value)
                && (if Unbound(su, old(V()), key)
                    then Does(su, old(V()), Made(key, r.value, Some([])), V())
                    else Unseen(su, old(V()), V()) && Binds(su, old(V()), key, r.value) && Content(V(), r.value) == Content(old(V()), r.value)
                         && (r.value in old(staged) || !staged[r.value].dirty))
      ensures r.Good? && Blind(su, old(V()), link, KeyOf(su, dir, name)) ==>
          V() == Created(old(V()), dir, name) && !Ok() && r.value == Virtual(old(lastVirtual) + 1)
      ensures r.Good? && Unbound(su, old(V()), KeyOf(su, dir, name)) ==>
          V() == Created(old(V()), dir, name) && r.value == Virtual(old(lastVirtual) + 1)
      ensures r.Good? ==> writable && DirOf(dir).Some? && NameOk(name)
      ensures writable && Creatable(su, old(V()), link, dir, name) ==> r.Good?
      ensures writable && DirOf(dir).Some? && NameOk(name) && Blind(su, old(V()), link, KeyOf(su, dir, name)) ==> r.Good?
    {
      hide Inv, AttrsOk, Durable, Shows, Valid, Binds, SameNamesExcept, SameContentExcept, StagedUnder, Unbound, Unseen, Does,
        Content, Readable;
      SameIsUnseen(su, V());
      if !writable {
        return Bad(RoFs);
      }
      if DirOf(dir).None? {
        return Bad(Inval);
      }
      if '/' in name || Blank(name) {
        return Bad(Inval);
      }
      DirIsKnown(su, V(), dir);
      ghost var key := KeyOf(su, dir, name);
      var already := StagedLookup(dir, name);
      if already.Some? {
        StagedIsKnown(su, V(), already.value);
        StagedContent(su, V(), already.value);
        StagedBinds(su, V(), key, already.value);
        return Good(already.value);
      }
      var found := Lookup(dir, name);
      if found.Good? {
        SameStagesUnder(su, old(V()), V(), key);
        LearningKeepsContent(old(V()), known, found.value);
        if Creatable(su, old(V()), link, dir, name) {
          FoundIsIt(su, old(V()), V(), link, dir, name, found.value);
        }
        r := StageFound(dir, name, found.value, old(V()));
        return;
      }
      var id := Virtual(lastVirtual + 1);
      StageSetDurable(V(), Created(V(), dir, name), id, Stage(0, dir, name, 0, None, None, true), []);
      if Unbound(su, V(), key) {
        CreatedDoes(su, old(V()), V(), dir, name);
        MadeBinds(su, old(V()), key, id, Created(V(), dir, name));
      } else {
        CreatedBlind(su, V(), Created(V(), dir, name), id, dir, name);
      }
      lastVirtual := lastVirtual + 1;
      staged := staged[id := Stage(0, dir, name, 0, None, None, true)];
      files := files[id := []];
      known := known + {id};
      r := Good(id);
    }

    /** The second branch of `stage_new`: the name is on the device. */
    method StageFound(dir: Id, name: string, id: Id, ghost before: View) returns (r: Nfs<Id>)
      requires Ok() && DirectoryId(dir) && id in known && writable
      requires Binds(su, V(), KeyOf(su, dir, name), id) && !StagedUnder(su, V(), KeyOf(su, dir, name)) && Unseen(su, before, V())
      modifies this`staged, this`files
      ensures Ok() && Unseen(su, before, V())
      ensures r.Good? ==> link.online && r.value == id && id in staged && Binds(su, V(), KeyOf(su, dir, name), id)
      ensures r.Good? ==> Binds(su, before, KeyOf(su, dir, name), id) && !Unbound(su, before, KeyOf(su, dir, name))
      ensures r.Good? ==> id in files && Content(V(), id) == Content(old(V()), id) && (id in old(staged) || !staged[id].dirty)
      ensures Readable(su, old(V()), link, id) ==> r.Good?
    {
      hide Inv, AttrsOk, Durable, Shows, Valid, Binds, SameNamesExcept, SameContentExcept, StagedUnder, Unseen, Content, Progressive;
      LookupKind(su, V(), dir, name, id);
      OnlyFilesHaveContent(su, V(), KeyOf(su, dir, name), id);
      var i, h := id.storage, id.handle;
      if !link.online {
        return Bad(IO);
      }
      var info := InfoHandle(su, dev, i, h);
      if info.Err? {
        return Bad(StatusOfResult(info));
      }
      if info.value.isDir {
        return Bad(Exist);
      }
      ghost var v1 := V();
      BoundBefore(su, before, v1, KeyOf(su, dir, name), id);
      var pulled := EnsureStagedExisting(id, i, h, info.value.name, dir, info.value.size);
      BoundBefore(su, v1, V(), KeyOf(su, dir, name), id);
      UnseenTwice(su, before, v1, V());
      UnseenContent(su, v1, V(), id);
      if pulled.Good? {
        StagedContent(su, V(), id);
      }
      r := if pulled.Bad? then Bad(pulled.status) else Good(id);
    }

    // ---------- attributes ----------

    method AttrCacheGet(id: Id) returns (r: Option<Attr>)
      requires AttrsOk(dev, attrs)
      modifies this`clock
      ensures r.Some? <==> id in attrs && clock <= attrs[id].at + ATTR_TTL
      ensures r.Some? ==> r.value == Attr(attrs[id].isDir, attrs[id].size)
    {
      var now := Now();
      if id in attrs && now <= attrs[id].at + ATTR_TTL {
        return Some(Attr(attrs[id].isDir, attrs[id].size));
      }
      r := None;
    }

    /** `getattr`: of a file a client knows and that exists, the size is the number of its bytes. */
    method GetAttr(id: Id) returns (r: Nfs<Attr>)
      requires AttrsOk(dev, attrs) && id in known && (id in staged || Ok())
      modifies this`attrs, this`clock
      ensures V() == old(V()) && AttrsOk(dev, attrs)
      ensures Ok() && r.Good? && Content(V(), id).Some? ==> r.value == Attr(false, |Content(V(), id).value|)
      ensures Ok() && id !in staged && id.Real? && id.storage < |dev| && id.handle in dev[id.storage].objects ==>
          && (link.online && Reports(su, dev, id) ==> r.Good?)
          && (r.Good? ==> var o := dev[id.storage].objects[id.handle]; r.value == Attr(o.isDir, |o.data|))
      ensures id in staged ==> r == Good(Attr(false, staged[id].size))
      ensures Ok() && id !in staged && (id.DeviceRoot? || id.StorageRoot?) ==> r.Good? && r.value.isDir
    {
      hide Inv, Shows, Valid, Binds;
      if id in staged {
        if Ok() {
          StagedSize(su, V(), id);
        }
        return Good(Attr(false, staged[id].size));
      }
      match id {
        case DeviceRoot => return Good(Attr(true, 0));
        case StorageRoot(i) =>
          if Ok() {
            DirIsKnown(su, V(), id);
          }
          return if i < |su.storages| then Good(Attr(true, 0)) else Bad(BadHandle);
        case Virtual(_) => return Bad(BadHandle);
        case Real(i, h) =>
          var hit := AttrCacheGet(id);
          if hit.Some? {
            assert AttrOk(dev, attrs[id], id);
            return Good(hit.value);
          }
          if !link.online {
            return Bad(IO);
          }
          RealIsKnown(su, V(), id);
          var info := InfoHandle(su, dev, i, h);
          if info.Err? {
            return Bad(NfsErr(info.error));
          }
          var now := Now();
          AttrCached(dev, attrs, id, AttrCache(info.value.size, info.value.isDir, now));
          attrs := attrs[id := AttrCache(info.value.size, info.value.isDir, now)];
          r := Good(Attr(info.value.isDir, info.value.size));
      }
    }

    // ---------- reading and writing ----------

    /** `setattr`: a size change stages the file and cuts or zero-fills it. */
    method SetAttr(id: Id, newSize: Option<nat>) returns (r: Nfs<Attr>)
      requires id in known && AttrsOk(dev, attrs) && (Ok() || (id in staged && id in files))
      modifies this`staged, this`files, this`attrs, this`clock
      ensures AttrsOk(dev, attrs) && (old(Ok()) ==> Ok())
      ensures old(Ok()) && (r.Bad? || newSize.None?) ==> Unseen(su, old(V()), V())
      ensures old(Ok()) && r.Good? && newSize.Some? ==> Does(su, old(V()), Resized(id, newSize.value), V())
      ensures r.Good? && newSize.Some? ==> r.value == Attr(false, newSize.value) && id in staged && staged[id].dirty
      ensures id in old(staged) && writable ==> r.Good? && id in staged
      ensures old(Ok()) && newSize.Some? && writable && Readable(su, old(V()), link, id) ==> r.Good?
      ensures id in old(staged) && r.Good? && newSize.Some? ==>
          staged == old(staged)[id := old(staged)[id].(size := newSize.value, dirty := true)]
    {
      hide Inv, AttrsOk, Durable, Shows, Valid, Binds, SameNamesExcept, SameContentExcept, Unseen, Does, Content, Readable;
      SameIsUnseen(su, V());
      if !writable {
        return Bad(RoFs);
      }
      if newSize.None? {
        r := GetAttr(id);
        return;
      }
      if id !in staged {
        var ready := StageForWrites(id);
        if ready.Bad? {
          return Bad(ready.status);
        }
        StagedContent(su, V(), id);
      }
      if old(Ok()) {
        StagedContent(su, V(), id);
        ResizedOk(su, old(V()), V(), id, newSize.value);
        StageSetDurable(V(), WithStage(V(), id, staged[id].(size := newSize.value, dirty := true), Resize(files[id], newSize.value)),
                        id, staged[id].(size := newSize.value, dirty := true), Resize(files[id], newSize.value));
      }
      files := files[id := Resize(files[id], newSize.value)];
      staged := staged[id := staged[id].(size := newSize.value, dirty := true)];
      attrs := map[];
      NoAttrs(dev);
      r := Good(Attr(false, newSize.value));
    }

    /** `write`: the bytes of one file change as a byte array's would. The recorded size is the
        file's length again exactly when the write carries data or starts within the file. */
    method Write(id: Id, offset: nat, data: Bytes) returns (r: Nfs<nat>)
      requires Ok() && id in known
      modifies this`staged, this`files, this`attrs
      ensures AttrsOk(dev, attrs)
      ensures r.Bad? ==> Ok() && Unseen(su, old(V()), V())
      ensures r.Good? ==> Does(su, old(V()), Wrote(id, offset, data), V()) && r.value == |data|
      ensures r.Good? ==> id in staged && staged[id].dirty && Content(old(V()), id).Some?
      ensures r.Good? ==> (Ok() <==> data != [] || offset <= |Content(old(V()), id).value|)
      ensures id in old(staged) && writable ==> r.Good?
      ensures writable && Readable(su, old(V()), link, id) ==> r.Good?
      ensures id !in old(staged) && r.Good? ==> id.Real? && staged[id].originDev == Some(id.handle) && staged[id].flushedDev.None?
      ensures id in old(staged) && id in old(files) && r.Good? ==> V() == WrittenStage(old(V()), id, offset, data)
    {
      hide Inv, AttrsOk, Durable, Shows, Valid, Binds, SameNamesExcept, SameContentExcept, Unseen, Does, Content, Readable;
      SameIsUnseen(su, V());
      if !writable {
        return Bad(RoFs);
      }
      var ready := StageForWrites(id);
      if ready.Bad? {
        return Bad(ready.status);
      }
      StagedContent(su, V(), id);
      WrittenOk(su, old(V()), V(), id, offset, data);
      WrittenDurable(V(), id, offset, data);
      files := files[id := Overwrite(files[id], offset, data)];
      staged := staged[id := staged[id].(size := Max(staged[id].size, offset + |data|), dirty := true)];
      attrs := map[];
      NoAttrs(dev);
      r := Good(|data|);
    }

    /** `read`: a stretch of the file starting at the offset, and an end-of-file mark only at the
        end. A phone that makes progress inside an object is always answered from. */
    method Read(id: Id, offset: nat, count: nat) returns (r: Nfs<(Bytes, bool)>)
      requires Ok() && id in known
      ensures r.Good? ==> Content(V(), id).Some? && Reads(Content(V(), id).value, offset, count, r.value.0, r.value.1)
      ensures r.Good? && (id in staged || Progressive(su.phone)) && 0 < count ==> r.value.1 || r.value.0 != []
      ensures Readable(su, V(), link, id) && (id in staged || 0 < count) ==> r.Good?
    {
      hide Inv, AttrsOk, Durable, Shows, Valid, Progressive;
      if id in staged {
        StagedContent(su, V(), id);
        var data := Window(files[id], offset, count);
        return Good((data, offset + |data| >= |files[id]|));
      }
      match id {
        case Real(i, h) =>
          RealIsKnown(su, V(), id);
          r := ReadDevice(i, h, offset, count);
        case _ => return Bad(IsDir);
      }
    }

    /** The device branch of `read`. */
    method ReadDevice(i: nat, h: Handle, offset: nat, count: nat) returns (r: Nfs<(Bytes, bool)>)
      requires i < |dev| == |su.storages|
      ensures r.Good? ==>
          && h in dev[i].objects && !dev[i].objects[h].isDir
          && Reads(dev[i].objects[h].data, offset, count, r.value.0, r.value.1)
          && (Progressive(su.phone) && 0 < count ==> r.value.1 || r.value.0 != [])
      ensures h in dev[i].objects && !dev[i].objects[h].isDir && link.online && Progressive(su.phone) && Reports(su, dev, Real(i, h)) && 0 < count ==> r.Good?
    {
      if !link.online {
        return Bad(IO);
      }
      var first := ReadHandle(su, dev, i, h, offset, count);
      if first.Ok? && |first.value| == count {
        return Good((first.value, false));
      }
      var info := InfoHandle(su, dev, i, h);
      if first.Err? {
        r := ReadAgain(i, h, offset, count, info);
        if info.Err? {
          r := Bad(StatusOfResult(first));
        }
        return;
      }
      if info.Err? {
        return Bad(StatusOfResult(info));
      }
      if info.value.isDir {
        return Bad(IsDir);
      }
      r := Good((first.value, offset + |first.value| >= info.value.size));
    }

    /** The phone rejected the range: past the end, or a range to be clamped. */
    method ReadAgain(i: nat, h: Handle, offset: nat, count: nat, info: Result<Entry>) returns (r: Nfs<(Bytes, bool)>)
      requires i < |dev| == |su.storages| && info == InfoHandle(su, dev, i, h)
      ensures info.Err? ==> r.Bad?
      ensures r.Good? ==>
          && h in dev[i].objects && !dev[i].objects[h].isDir
          && Reads(dev[i].objects[h].data, offset, count, r.value.0, r.value.1)
          && (Progressive(su.phone) && 0 < count ==> r.value.1 || r.value.0 != [])
      ensures info.Ok? && h in dev[i].objects && !dev[i].objects[h].isDir && Progressive(su.phone) && 0 < count ==> r.Good?
    {
      if info.Err? {
        return Bad(StatusOfResult(info));
      }
      if info.value.isDir {
        return Bad(IsDir);
      }
      if offset >= info.value.size {
        return Good(([], true));
      }
      var clamped := Min(count, info.value.size - offset);
      var again := ReadHandle(su, dev, i, h, offset, clamped);
      if again.Err? {
        return Bad(StatusOfResult(again));
      }
      r := Good((again.value, offset + |again.value| >= info.value.size));
    }

    // ---------- committing ----------

    /** `flush_stage`: delete the previous copy, upload the local one, remember the new handle.

        Whatever the device does, the local bytes and the stage's size, name and directory stay;
        a failure leaves the stage as it was, still dirty. A success puts the staged bytes on the
        device, and unless the phone kept the previous copy nothing else answers to the name. */
    method FlushStage(id: Id) returns (r: Nfs<()>)
      requires Ok() && id in known
      modifies this`staged, this`dev, this`attrs
      ensures StagesKept(old(V()), V(), id) && AttrsOk(dev, attrs) && Ages(old(dev), dev)
      ensures id !in staged || !old(staged)[id].dirty ==> r.Good? && V() == old(V()) && Ok()
      ensures id in staged && old(staged)[id].dirty ==> (r.Good? <==> link.online && FlushTaken(su, old(V()), id))
      ensures r.Bad? ==> staged == old(staged)
      ensures r.Bad? ==> (Ok() <==> !(link.online && FlushLeaves(su, old(V()), id))) && (Ok() ==> Unseen(su, old(V()), V()))
      ensures r.Good? && id in staged ==> !staged[id].dirty
      ensures r.Good? ==> V() == AfterFlush(su, old(V()), id)
      ensures r.Bad? && link.online ==> dev == FailedFlush(su, old(V()), id)
      ensures r.Good? && id in staged && old(staged)[id].dirty ==>
          && HoldsStage(old(dev), V(), id)
          && (Ok() <==> CopyGoes(su, old(V()), id)) && (Ok() ==> Unseen(su, old(V()), V()) && OneObject(su, V(), id))
    {
      hide Inv, AttrsOk, Durable, Shows, Valid, Binds, Unseen, Content, CopyGoes, CopyGone, OneObject, UploadReport,
        Evolves, Ages, FlushTaken, FlushLeaves, UploadTaken, LeavesObject, AfterFlush, FailedFlush, Published;
      SameIsUnseen(su, V());
      SameAge(dev);
      CleanIsNotFlushed(su, V(), id);
      if id !in staged || !staged[id].dirty {
        return Good(());
      }
      var s := staged[id];
      StagedDir(su, V(), id);
      var (p, d) := DirOf(s.parent).value;
      if !link.online {
        return Bad(IO);
      }
      if p >= |su.storages| {
        FarStageIsNotFlushed(su, V(), id);
        return Bad(NfsErr(InvalidArgument));
      }
      FlushTakenIs(su, V(), id, p, d);
      AfterFlushIs(su, V(), id, p, d);
      ghost var v0, v1 := V(), CopyDropped(su, V(), id, p);
      CopyDroppedOk(su, v0, id, p);
      CopyDroppedKeeps(su, v0, id, p);
      CopyDroppedDurable(su, v0, id, p);
      AttrsKept(dev, p, v1.dev[p], attrs);
      OneStoreAges(dev, p, v1.dev[p]);
      if OnDevice(s).Some? {
        var (after, _) := DeleteHandle(su, dev, p, OnDevice(s).value);
        dev := after;
      }
      assert V() == v1;
      r := UploadStage(id, p, d);
      AgesOn(v0.dev, v1.dev, dev);
      if Unseen(su, v1, V()) {
        UnseenTwice(su, v0, v1, V());
      }
    }

    /** The upload of `flush_stage`, the previous copy dealt with. */
    method UploadStage(id: Id, p: nat, d: Handle) returns (r: Nfs<()>)
      requires Ok() && id in staged && staged[id].dirty && p < |dev| && DirOf(staged[id].parent) == Some((p, d)) && id in files
      modifies this`staged, this`dev, this`attrs
      ensures StagesKept(old(V()), V(), id) && AttrsOk(dev, attrs) && Ages(old(dev), dev)
      ensures r.Good? <==> UploadTaken(su.phone, old(dev)[p], d, old(staged)[id].name, files[id])
      ensures dev == old(dev)[p := UploadReport(su.phone, old(dev)[p], d, old(staged)[id].name, old(staged)[id].size, files[id]).0]
      ensures r.Bad? ==> staged == old(staged)
      ensures r.Bad? ==>
          && (Ok() <==> !LeavesObject(su.phone, old(dev)[p], d, staged[id].name, staged[id].size, files[id]))
          && (Ok() ==> Unseen(su, old(V()), V()))
      ensures r.Good? ==> !staged[id].dirty && HoldsStage(old(dev), V(), id) && V() == Published(old(V()), id, p, d)
      ensures r.Good? ==> (Ok() <==> CopyGone(old(V()), id, p)) && (Ok() ==> Unseen(su, old(V()), V()) && OneObject(su, V(), id))
    {
      hide Inv, AttrsOk, Durable, Shows, Valid, Binds, Unseen, Content, CopyGone, OneObject, UploadReport, Evolves, Ages,
        UploadTaken, LeavesObject;
      StagedContent(su, V(), id);
      StorageCount(su, V());
      DevIsValid(su, V(), p);
      NextIsFree(dev[p]);
      var s := staged[id];
      ghost var v0 := V();
      UploadedOk(su, v0, id, p, d);
      UploadedDurable(su, v0, id, p, d);
      ReportEnds(su.phone, dev[p], d, s.name, s.size, files[id]);
      AttrsKept(dev, p, UploadReport(su.phone, dev[p], d, s.name, s.size, files[id]).0, attrs);
      OneStoreAges(dev, p, UploadReport(su.phone, dev[p], d, s.name, s.size, files[id]).0);
      var (after, entry) := UploadInto(su, dev, p, d, s.name, s.size, files[id]);
      dev := after;
      if entry.Err? {
        assert V() == WithStore(v0, p, dev[p]);
        return Bad(NfsErr(entry.error));
      }
      staged := staged[id := Stage(p, s.parent, s.name, s.size, None, Some(entry.value.handle), false)];
      attrs := map[];
      NoAttrs(dev);
      assert V() == Published(v0, id, p, d);
      r := Good(());
    }

    /** `commit`: as `FlushStage`; a commit with nothing to flush changes nothing on the device.
        After a success the phone holds the file as clients see it. */
    method Commit(id: Id) returns (r: Nfs<Attr>)
      requires Ok() && id in known
      modifies this`staged, this`dev, this`attrs, this`clock
      ensures StagesKept(old(V()), V(), id) && AttrsOk(dev, attrs) && Ages(old(dev), dev)
      ensures !writable || id !in staged || !old(staged)[id].dirty ==> V() == old(V()) && Ok()
      ensures !writable ==> r == Bad(RoFs)
      ensures writable && id in staged ==> (r.Good? <==> !old(staged)[id].dirty || (link.online && FlushTaken(su, old(V()), id)))
      ensures r.Bad? ==> staged == old(staged)
      ensures r.Bad? ==> (Ok() <==> !(writable && link.online && FlushLeaves(su, old(V()), id))) && (Ok() ==> Unseen(su, old(V()), V()))
      ensures r.Good? && id in staged ==> !staged[id].dirty && r.value == Attr(false, staged[id].size)
      ensures r.Good? ==> V() == AfterFlush(su, old(V()), id)
      ensures r.Bad? && writable && link.online && id in staged ==> dev == FailedFlush(su, old(V()), id)
      ensures r.Good? && id in staged && old(staged)[id].dirty ==>
          && HoldsStage(old(dev), V(), id)
          && (Ok() <==> CopyGoes(su, old(V()), id)) && (Ok() ==> Unseen(su, old(V()), V()) && OneObject(su, V(), id))
      ensures r.Good? && Ok() ==> PhoneCopy(V(), id) == Content(V(), id)
      ensures r.Good? && Ok() && Content(V(), id).Some? ==> r.value == Attr(false, |Content(V(), id).value|)
    {
      hide Inv, AttrsOk, Durable, Shows, Valid, Binds, Unseen, Content, CopyGoes, OneObject, HoldsStage, FlushTaken,
        FlushLeaves, Ages, PhoneCopy;
      SameIsUnseen(su, V());
      SameAge(dev);
      if !writable {
        return Bad(RoFs);
      }
      CleanIsNotFlushed(su, V(), id);
      var flushed := FlushStage(id);
      if flushed.Bad? {
        return Bad(flushed.status);
      }
      r := GetAttr(id);
      if Ok() {
        CleanIsOnPhone(V(), id);
      }
    }

    // ---------- creating ----------

    /** `create`: a new name gets a new file of the asked size; an existing file keeps its bytes
        unless a size was asked for. A name the phone holds and cannot be asked for is taken for new. */
    method CreateFile(dir: Id, name: string, size: Option<nat>) returns (r: Nfs<(Id, Attr)>)
      requires Ok() && dir in known
      modifies this`staged, this`files, this`lastVirtual, this`known, this`attrs, this`clock
      ensures r.Bad? ==> Ok() && Unseen(su, old(V()), V())
      ensures r.Good? ==> r.value.0 in staged && AttrsOk(dev, attrs) && r.value.1 == Attr(false, staged[r.value.0].size)
      ensures r.Good? && Blind(su, old(V()), link, KeyOf(su, dir, name)) ==> !Ok() && r.value.0 == Virtual(old(lastVirtual) + 1)
      ensures var key := KeyOf(su, dir, name);
              r.Good? && !Blind(su, old(V()), link, key) ==>
                && Ok()
                && (if Unbound(su, old(V()), key)
                    then Does(su, old(V()), Made(key, r.value.0, Some(Zeros(SizeOr0(size)))), V())
                    else Binds(su, old(V()), key, r.value.0)
                         && Does(su, old(V()), if size.Some? then Resized(r.value.0, size.value) else Quiet, V())
                         && (size.None? && r.value.0 !in old(staged) ==> !staged[r.value.0].dirty))
      ensures r.Good? && Unbound(su, old(V()), KeyOf(su, dir, name)) ==> staged[r.value.0].dirty && staged[r.value.0].parent == dir
      ensures r.Good? && size.None? && (Unbound(su, old(V()), KeyOf(su, dir, name)) || Blind(su, old(V()), link, KeyOf(su, dir, name))) ==>
          V() == Created(old(V()), dir, name) && r.value.0 == Virtual(old(lastVirtual) + 1)
      ensures r.Good? ==> writable && DirOf(dir).Some? && NameOk(name)
      ensures writable && Creatable(su, old(V()), link, dir, name) ==> r.Good?
      ensures writable && DirOf(dir).Some? && NameOk(name) && Blind(su, old(V()), link, KeyOf(su, dir, name)) ==> r.Good?
    {
      hide Inv, AttrsOk, Durable, Shows, Valid, Binds, SameNamesExcept, SameContentExcept, StagedUnder, Unbound, Unseen, Does,
        Content, Creatable;
      var made := StageNew(dir, name);
      if made.Bad? {
        return Bad(made.status);
      }
      var id := made.value;
      ghost var v1 := V();
      if size.Some? {
        var resized := SetAttr(id, size);
        if resized.Bad? {
          return Bad(StatusOf(resized));
        }
      }
      if !Blind(su, old(V()), link, KeyOf(su, dir, name)) {
        CreateDoes(su, old(V()), v1, V(), KeyOf(su, dir, name), id, size);
      } else {
        CreatedBlind(su, old(V()), V(), id, dir, name);
      }
      var attr := GetAttr(id);
      r := if attr.Bad? then Bad(StatusOf(attr)) else Good((id, attr.value));
    }

    /** `create_exclusive`: success for a name bound to nothing. While the phone is away, or refuses to
        list the directory, the names it holds there pass for free, and taking one of those breaks the
        invariant. */
    method CreateExclusive(dir: Id, name: string) returns (r: Nfs<Id>)
      requires Ok() && dir in known
      modifies this`staged, this`files, this`lastVirtual, this`known
      ensures r.Bad? ==> Ok() && Unseen(su, old(V()), V())
      ensures r.Good? && Unbound(su, old(V()), KeyOf(su, dir, name)) ==> V() == Created(old(V()), dir, name) && r.value == Virtual(old(lastVirtual) + 1)
      ensures r.Good? ==> if Blind(su, old(V()), link, KeyOf(su, dir, name)) then !Ok()
                          else Ok() && Does(su, old(V()), Made(KeyOf(su, dir, name), r.value, Some([])), V())
      ensures r.Good? ==> writable && DirOf(dir).Some? && NameOk(name)
      ensures writable && DirOf(dir).Some? && NameOk(name) && Unbound(su, old(V()), KeyOf(su, dir, name)) ==> r.Good?
      ensures writable && DirOf(dir).Some? && NameOk(name) && Blind(su, old(V()), link, KeyOf(su, dir, name)) ==> r.Good?
    {
      hide Inv, AttrsOk, Durable, Shows, Valid, Binds, SameNamesExcept, SameContentExcept, StagedUnder, Unbound, Unseen, Does,
        Content;
      var found := Lookup(dir, name);
      var already := StagedLookup(dir, name);
      if found.Good? || already.Some? {
        SameStagesUnder(su, old(V()), V(), KeyOf(su, dir, name));
        if DirOf(dir).Some? {
          TakenIsBound(su, old(V()), V(), KeyOf(su, dir, name), if already.Some? then already.value else found.value);
        }
        return Bad(Exist);
      }
      r := StageNew(dir, name);
    }

    /** `mkdir`. The adapter does not look for the name first: making a directory of a bound name
        breaks the one-object-per-name invariant, and nothing else does. */
    method Mkdir(dir: Id, name: string) returns (r: Nfs<(Id, Attr)>)
      requires Ok() && dir in known
      modifies this`dev, this`known
      ensures r.Bad? ==> Ok() && V() == old(V())
      ensures r.Good? ==> DirectoryId(dir) && r.value.1 == Attr(true, 0) && AttrsOk(dev, attrs)
      ensures r.Good? ==> (Ok() <==> Unbound(su, old(V()), KeyOf(su, dir, name)))
      ensures r.Good? && Ok() ==> Does(su, old(V()), Made(KeyOf(su, dir, name), r.value.0, None), V())
      ensures r.Good? <==> writable && link.online && PhoneCreates(su, old(dev), dir, name)
      ensures r.Good? ==>
          var (i, d) := DirOf(dir).value;
          i < |old(dev)| && dev == old(dev)[i := Add(old(dev)[i], Object(d, name, true, []))]
      ensures Ages(old(dev), dev)
    {
      hide Inv, AttrsOk, Durable, Shows, Valid, Binds, SameNamesExcept, SameContentExcept, StagedUnder, Unbound, Unseen, Does,
        Content, Evolves, Ages;
      SameAge(dev);
      if !writable {
        return Bad(RoFs);
      }
      if DirOf(dir).None? {
        return Bad(Inval);
      }
      if !link.online {
        return Bad(IO);
      }
      DirIsKnown(su, V(), dir);
      var (i, h) := DirOf(dir).value;
      ghost var v0 := V();
      var (after, entry) := MakeDir(su, dev, i, h, name);
      MkdirDoes(su, v0, dir, i, h, name);
      MkdirDurable(su, v0, i, h, name);
      AttrsKept(dev, i, after[i], attrs);
      OneStoreAges(dev, i, after[i]);
      dev := after;
      if entry.Err? {
        return Bad(NfsErr(entry.error));
      }
      known := known + {Real(i, entry.value.handle)};
      r := Good((Real(i, entry.value.handle), Attr(true, 0)));
    }

    // ---------- removing ----------

    /** `remove`: the name is bound to nothing afterwards and its file is gone, on the device too;
        or an error, and nothing can be seen to have changed. */
    method Remove(dir: Id, name: string) returns (r: Nfs<()>, ghost gone: Id)
      requires Ok() && dir in known
      modifies this`staged, this`files, this`dev, this`known, this`attrs
      ensures Ok()
      ensures r.Bad? ==> Unseen(su, old(V()), V()) && dev == old(dev) && staged == old(staged)
      ensures r.Good? ==> Does(su, old(V()), Removed(KeyOf(su, dir, name), gone), V()) && gone !in staged
      ensures r.Good? ==> staged == old(staged) - {gone} && files == old(files) - {gone} && OffPhone(old(V()), dev, gone)
      ensures writable && link.online && CopyLost(su, old(V()), KeyOf(su, dir, name)) ==> r == Bad(NoEnt)
      ensures r.Good? <==> writable && exists a :: Binds(su, old(V()), KeyOf(su, dir, name), a) && Deletable(su, old(V()), link, dir, a)
      ensures Ages(old(dev), dev)
    {
      hide Inv, AttrsOk, Durable, Shows, Valid, Binds, SameNamesExcept, SameContentExcept, StagedUnder, Unbound, Unseen, Does,
        Content, PhoneDeletes, Ages, CopyLost, LostCopy;
      gone := DeviceRoot;
      SameAge(dev);
      SameIsUnseen(su, V());
      NoAttrs(dev);
      if !writable {
        return Bad(RoFs), gone;
      }
      var found := StagedLookup(dir, name);
      if found.Some? {
        StagedBinds(su, V(), KeyOf(su, dir, name), found.value);
        OnlyOne(su, V(), KeyOf(su, dir, name), found.value);
        CopyLostIs(su, V(), found.value);
        r := RemoveStaged(found.value);
        gone := found.value;
        return;
      }
      OnlyWithPhone(su, V(), link, dir, name);
      NoCopyLost(su, V(), KeyOf(su, dir, name));
      var fid := Lookup(dir, name);
      if fid.Bad? {
        return Bad(fid.status), gone;
      }
      SameStagesUnder(su, old(V()), V(), KeyOf(su, dir, name));
      if !dir.DeviceRoot? {
        BoundIsShown(su, V(), KeyOf(su, dir, name), fid.value);
      }
      if !fid.value.Real? {
        return Bad(NoEnt), gone;
      }
      BoundBefore(su, old(V()), V(), KeyOf(su, dir, name), fid.value);
      OnlyOne(su, old(V()), KeyOf(su, dir, name), fid.value);
      r := RemoveUnstaged(KeyOf(su, dir, name), fid.value, old(V()));
      gone := fid.value;
    }

    /** The staged half of `remove`: the phone first, then the local copy. */
    method RemoveStaged(id: Id) returns (r: Nfs<()>)
      requires Ok() && id in staged
      modifies this`staged, this`files, this`dev, this`attrs
      ensures Ok() && (r.Bad? ==> V() == old(V()))
      ensures r.Good? ==> Does(su, old(V()), Removed(StageKey(su, old(staged)[id]), id), V()) && id !in staged
      ensures (r.Good? <==> Deletable(su, old(V()), link, old(staged)[id].parent, id)) && Ages(old(dev), dev)
      ensures r.Good? ==> staged == old(staged) - {id} && files == old(files) - {id} && OffPhone(old(V()), dev, id)
      ensures link.online && LostCopy(old(V()), id) ==> r == Bad(NoEnt)
    {
      hide Inv, AttrsOk, Durable, Shows, Valid, Binds, Does, Content, Ages;
      SameAge(dev);
      DeletesAge(su, V());
      StagedDir(su, V(), id);
      var s := staged[id];
      ghost var v0 := V();
      if OnDevice(s).Some? {
        if !link.online {
          return Bad(IO);
        }
        var (after, answer) := DeleteHandle(su, dev, s.storageIndex, OnDevice(s).value);
        if answer.Err? {
          assert after == dev;
          return Bad(NfsErr(answer.error));
        }
        dev := after;
      }
      StagedRemoved(su, v0, id);
      StagedRemovedDurable(su, v0, id);
      staged := staged - {id};
      files := files - {id};
      attrs := map[];
      NoAttrs(dev);
      r := Good(());
    }

    /** The other half: a name found by a device listing. */
    method RemoveUnstaged(key: Key, id: Id, ghost before: View) returns (r: Nfs<()>)
      requires link.Hears(key.0) && Ok() && id.Real? && Binds(su, V(), key, id) && !StagedUnder(su, V(), key) && Unseen(su, before, V())
      modifies this`staged, this`files, this`dev, this`attrs
      ensures Ok() && id !in staged && (r.Bad? ==> V() == old(V()))
      ensures r.Good? ==> Does(su, before, Removed(key, id), V())
      ensures (r.Good? <==> Deletable(su, old(V()), link, key.0, id)) && Ages(old(dev), dev)
      ensures r.Good? ==> staged == old(staged) - {id} && files == old(files) - {id} && OffPhone(old(V()), dev, id)
    {
      hide Inv, AttrsOk, Durable, Shows, Valid, Binds, Does, Content, Unseen, StagedUnder, Ages;
      SameAge(dev);
      DeletesAge(su, V());
      BoundIsShown(su, V(), key, id);
      ShownUnstaged(su, V(), key, id);
      StorageCount(su, V());
      if !link.online {
        return Bad(IO);
      }
      var (after, answer) := DeleteHandle(su, dev, id.storage, id.handle);
      if answer.Err? {
        assert after == dev;
        return Bad(NfsErr(answer.error));
      }
      UnstagedRemoved(su, before, V(), key, id);
      UnstagedRemovedDurable(su, V(), key, id);
      dev := after;
      assert staged - {id} == staged && files - {id} == files;
      staged := staged - {id};
      files := files - {id};
      attrs := map[];
      NoAttrs(dev);
      r := Good(());
    }

    // ---------- renaming ----------

    /** `device_handle_of`: once staged, only a flushed copy counts. */
    function DeviceHandleOf(id: Id): Option<(nat, Handle)>
      reads this`staged
    {
      if id in staged then
        match staged[id].flushedDev
        case Some(h) => Some((staged[id].storageIndex, h))
        case None => None
      else
        match id
        case Real(i, h) => Some((i, h))
        case _ => None
    }

    /** `rename`. A success gives up the old name for the new one, which names the same file, and no
        bytes change, exactly when the new name is in a directory and nothing else has it. An error
        changes nothing, unless the phone moved the object and refused the new name, or did all it
        was asked and refused to report it: then the object is where `RenameStrays` says, and a stage
        does not follow it. A file staged from the phone and not flushed since cannot be renamed. */
    method Rename(from: Id, fromName: string, to: Id, toName: string) returns (r: Nfs<()>, ghost moved: Id)
      requires Ok() && from in known && to in known
      modifies this`staged, this`dev, this`known
      ensures AttrsOk(dev, attrs) && Ages(old(dev), dev)
      ensures r.Good? <==> RenameGoes(su, old(V()), link, writable, from, fromName, to, toName)
      ensures writable && PulledOnly(su, old(V()), KeyOf(su, from, fromName)) ==> r == Bad(NoEnt)
      ensures r.Good? ==> (Ok() <==> NewPlace(su, old(V()), KeyOf(su, from, fromName), to, toName))
      ensures r.Good? ==> Binds(su, old(V()), KeyOf(su, from, fromName), moved)
      ensures r.Good? && Ok() ==> Does(su, old(V()), Renamed(KeyOf(su, from, fromName), KeyOf(su, to, toName), moved), V())
      ensures r.Good? && LocalOnly(su, old(V()), KeyOf(su, from, fromName)) ==>
          && dev == old(dev) && moved in old(staged) && OnDevice(old(staged)[moved]).None?
          && staged == old(staged)[moved := old(staged)[moved].(parent := to, name := toName)]
      ensures r.Good? && |old(dev)| == |su.storages| && !LocalOnly(su, old(V()), KeyOf(su, from, fromName)) ==>
          Movables(from, to) && dev == RenamedDev(su, old(dev), from, fromName, to, toName)
      ensures r.Bad? ==> staged == old(staged)
      ensures r.Bad? && RenameStrays(su, old(V()), link, writable, from, fromName, to, toName).None? ==>
          dev == old(dev) && Ok() && Unseen(su, old(V()), V())
      ensures var stray := RenameStrays(su, old(V()), link, writable, from, fromName, to, toName);
              stray.Some? ==>
                && r.Bad? && Binds(su, old(V()), KeyOf(su, from, fromName), moved)
                && (|old(dev)| == |su.storages| ==> Movables(from, to) && dev == RenamedDev(su, old(dev), from, fromName, to, toName))
                && (Ok() <==> StrayIsSafe(su, old(V()), KeyOf(su, from, fromName), to, stray.value))
                && (Ok() ==> Does(su, old(V()), Renamed(KeyOf(su, from, fromName), KeyOf(su, to, stray.value), moved), V()))
    {
      hide Inv, AttrsOk, Durable, Shows, Valid, Binds, SameNamesExcept, SameContentExcept, StagedUnder, Unbound, Unseen, Does,
        Content, NewPlace, LocalOnly, PulledOnly, PhoneRenames, StrayName, StrayIsSafe, Ages;
      moved := DeviceRoot;
      SameAge(dev);
      SameIsUnseen(su, V());
      if !writable {
        return Bad(RoFs), moved;
      }
      var found := StagedLookup(from, fromName);
      if found.Some? {
        StageKind(su, V(), found.value);
        StagedBinds(su, V(), KeyOf(su, from, fromName), found.value);
        if OnDevice(staged[found.value]).None? {
          moved := found.value;
          RenameLocal(found.value, to, toName);
          return Good(()), moved;
        }
      } else {
        UnstagedKind(su, V(), KeyOf(su, from, fromName));
      }
      r, moved := RenameShown(from, fromName, to, toName);
    }

    /** A file the phone never had: its record changes, and nothing else. */
    method RenameLocal(id: Id, to: Id, toName: string)
      requires Ok() && id in staged && OnDevice(staged[id]).None?
      modifies this`staged
      ensures AttrsOk(dev, attrs) && staged == old(staged)[id := old(staged)[id].(parent := to, name := toName)]
      ensures Ok() <==> NewPlace(su, old(V()), StageKey(su, old(staged)[id]), to, toName)
      ensures Ok() ==> Does(su, old(V()), Renamed(StageKey(su, old(staged)[id]), KeyOf(su, to, toName), id), V())
    {
      hide Inv, AttrsOk, Durable, Shows, Does, NewPlace;
      if NewPlace(su, V(), StageKey(su, staged[id]), to, toName) {
        LocalRenameDoes(su, V(), id, to, toName);
      } else {
        LocalRenameClash(su, V(), id, to, toName);
      }
      staged := staged[id := staged[id].(parent := to, name := toName)];
      RecordDurable(old(V()), V(), id, staged[id]);
    }

    /** Any other file: found by name, renamed on the phone. */
    method RenameShown(from: Id, fromName: string, to: Id, toName: string) returns (r: Nfs<()>, ghost moved: Id)
      requires Ok() && from in known && to in known && writable && !LocalOnly(su, V(), KeyOf(su, from, fromName))
      modifies this`staged, this`dev, this`known
      ensures AttrsOk(dev, attrs) && Ages(old(dev), dev)
      ensures r.Good? <==> RenameGoes(su, old(V()), link, writable, from, fromName, to, toName)
      ensures PulledOnly(su, old(V()), KeyOf(su, from, fromName)) ==> r == Bad(NoEnt)
      ensures r.Good? ==> (Ok() <==> NewPlace(su, old(V()), KeyOf(su, from, fromName), to, toName))
      ensures r.Good? ==> Binds(su, old(V()), KeyOf(su, from, fromName), moved)
      ensures r.Good? && Ok() ==> Does(su, old(V()), Renamed(KeyOf(su, from, fromName), KeyOf(su, to, toName), moved), V())
      ensures r.Good? && |old(dev)| == |su.storages| ==> Movables(from, to) && dev == RenamedDev(su, old(dev), from, fromName, to, toName)
      ensures r.Bad? ==> staged == old(staged)
      ensures r.Bad? && RenameStrays(su, old(V()), link, writable, from, fromName, to, toName).None? ==>
          dev == old(dev) && Ok() && Unseen(su, old(V()), V())
      ensures var stray := RenameStrays(su, old(V()), link, writable, from, fromName, to, toName);
              stray.Some? ==>
                && r.Bad? && Binds(su, old(V()), KeyOf(su, from, fromName), moved)
                && (|old(dev)| == |su.storages| ==> Movables(from, to) && dev == RenamedDev(su, old(dev), from, fromName, to, toName))
                && (Ok() <==> StrayIsSafe(su, old(V()), KeyOf(su, from, fromName), to, stray.value))
                && (Ok() ==> Does(su, old(V()), Renamed(KeyOf(su, from, fromName), KeyOf(su, to, stray.value), moved), V()))
    {
      hide Inv, AttrsOk, Durable, Shows, Valid, Binds, SameNamesExcept, SameContentExcept, StagedUnder, Unbound, Unseen, Does,
        Content, NewPlace, LocalOnly, PulledOnly, PhoneRenames, StrayName, Ages;
      SameAge(dev);
      SameIsUnseen(su, V());
      ghost var key := KeyOf(su, from, fromName);
      NoStageInRoot(su, V(), fromName);
      moved := DeviceRoot;
      var fid := Lookup(from, fromName);
      if fid.Bad? {
        UnstagedKind(su, V(), key);
        OnlyPhoneRenames(su, V(), from, fromName, to, toName);
        return Bad(fid.status), moved;
      }
      moved := fid.value;
      ghost var v1 := V();
      if from.DeviceRoot? {
        UnstagedKind(su, old(V()), key);
        NotMovable(su, dev, from, fromName, to, toName);
      } else {
        BoundBefore(su, old(V()), V(), key, moved);
        BoundKind(su, old(V()), key, moved);
      }
      var onDevice := DeviceHandleOf(fid.value);
      if onDevice.None? {
        return Bad(NoEnt), moved;
      }
      r := RenameOnDevice(from, fromName, to, toName, fid.value, onDevice.value.0);
      ghost var stray := StrayName(su, old(dev), from, fromName, to, toName);
      ghost var landed := if stray.Some? then stray.value else toName;
      SameNewPlace(su, old(V()), v1, key, to, landed);
      SameStagesUnder(su, old(V()), v1, key);
      if Ok() && (r.Good? || (link.Hears(from) && stray.Some?)) {
        QuietThen(su, old(V()), v1, Renamed(key, KeyOf(su, to, landed), moved), V());
      }
    }

    /** The device half of `rename`. */
    method RenameOnDevice(from: Id, fromName: string, to: Id, toName: string, id: Id, idx: nat) returns (r: Nfs<()>)
      requires Ok() && from in known && to in known && DeviceHandleOf(id).Some? && idx == DeviceHandleOf(id).value.0
      requires !from.DeviceRoot? ==> Binds(su, V(), KeyOf(su, from, fromName), id)
      modifies this`staged, this`dev
      ensures AttrsOk(dev, attrs) && Ages(old(dev), dev)
      ensures r.Good? <==> link.Hears(from) && PhoneRenames(su, old(dev), from, fromName, to, toName)
      ensures r.Good? ==> (Ok() <==> NewPlace(su, old(V()), KeyOf(su, from, fromName), to, toName))
      ensures r.Good? && Ok() ==> Does(su, old(V()), Renamed(KeyOf(su, from, fromName), KeyOf(su, to, toName), id), V())
      ensures r.Good? ==> Movables(from, to) && StrayName(su, old(dev), from, fromName, to, toName).None?
      ensures link.Hears(from) && Movables(from, to) && |old(dev)| == |su.storages| ==> dev == RenamedDev(su, old(dev), from, fromName, to, toName)
      ensures r.Bad? ==> staged == old(staged)
      ensures r.Bad? && !(link.Hears(from) && StrayName(su, old(dev), from, fromName, to, toName).Some?) ==> V() == old(V()) && Ok()
      ensures var stray := StrayName(su, old(dev), from, fromName, to, toName);
              link.Hears(from) && stray.Some? ==>
                && r.Bad? && Movables(from, to)
                && (Ok() <==> StrayIsSafe(su, old(V()), KeyOf(su, from, fromName), to, stray.value))
                && (Ok() ==> Does(su, old(V()), Renamed(KeyOf(su, from, fromName), KeyOf(su, to, stray.value), id), V()))
    {
      hide Inv, AttrsOk, Durable, Shows, Valid, Binds, SameNamesExcept, SameContentExcept, StagedUnder, Unbound, Unseen, Does,
        Content, NewPlace, Evolves, RenameHandle, Rekeyed, PhoneRenames, StrayName, Ages;
      SameAge(dev);
      if DirOf(from).None? || DirOf(to).None? || DirOf(from).value.0 != DirOf(to).value.0 {
        NotMovable(su, dev, from, fromName, to, toName);
        return Bad(Inval);
      }
      var (fi, fh) := DirOf(from).value;
      var (ti, th) := DirOf(to).value;
      if !link.online {
        return Bad(IO);
      }
      if (fi, fh) in link.mute {
        return Bad(NfsErr(link.mute[(fi, fh)]));
      }
      ghost var v0 := V();
      BoundStorage(su, v0, from, fromName, id);
      ghost var h := RenameHandleOk(su, v0, from, fromName, to, toName);
      var (after, entry) := RenameHandle(su, dev, idx, fh, fromName, th, toName);
      AttrsKept(dev, idx, after[idx], attrs);
      OneStoreAges(dev, idx, after[idx]);
      dev := after;
      if entry.Err? {
        ghost var stray := StrayName(su, v0.dev, from, fromName, to, toName);
        if stray.Some? {
          StrayedDoes(su, v0, id, idx, dev[idx], h, from, fromName, to, stray.value);
          RekeyedDurable(su, v0, idx, dev[idx], h, from, fromName, to, stray.value);
        }
        return Bad(NfsErr(entry.error));
      }
      RekeyedDoes(su, v0, id, idx, dev[idx], h, from, fromName, to, toName);
      RekeyedDurable(su, v0, idx, dev[idx], h, from, fromName, to, toName);
      if id in staged {
        staged := staged[id := staged[id].(parent := to, name := toName)];
        RecordDurable(WithStore(v0, idx, after[idx]), V(), id, staged[id]);
      }
      assert V() == AfterRename(v0, id, idx, after[idx], to, toName);
      r := Good(());
    }

    // ---------- listing a directory ----------

    /** `seed_attrs`: the attributes a listing carries are the objects' own. */
    method SeedAttrs(i: nat, d: Handle, es: seq<Entry>)
      requires AttrsOk(dev, attrs) && i < |dev| == |su.storages| && ListHandle(su, dev, i, d) == Result.Ok(es)
      requires forall h :: h in dev[i].objects ==> h < dev[i].next
      modifies this`attrs, this`clock
      ensures AttrsOk(dev, attrs)
    {
      hide AttrsOk, AttrOk;
      var now := Now();
      for k := 0 to |es|
        invariant AttrsOk(dev, attrs)
      {
        ListedAttr(su, dev, i, d, es, k, now);
        AttrCached(dev, attrs, Real(i, es[k].handle), AttrCache(es[k].size, es[k].isDir, now));
        attrs := attrs[Real(i, es[k].handle) := AttrCache(es[k].size, es[k].isDir, now)];
      }
    }

    /** The first half of `readdir`: the device's children, then the unflushed stages in whatever
        order the stage map yields them. */
    method CollectChildren(dir: Id) returns (r: Nfs<seq<Child>>)
      requires Ok() && dir in known
      modifies this`attrs, this`clock
      ensures Ok() && V() == old(V()) && |dev| == |su.storages|
      ensures r.Good? ==> DeviceChildren(su, dev, dir).Some? && ListingKeys(su.phone.folding, r.value) == DirNames(su, V(), dir)
      ensures r.Good? <==> DeviceChildren(su, dev, dir).Some? && link.Hears(dir)
      ensures r.Good? ==> forall c :: c in r.value ==> StandsFor(su, V(), dir, c)
    {
      hide Inv, AttrsOk, Durable, Shows, Valid, Entries, StandsFor;
      StorageCount(su, V());
      var children: seq<Child>;
      match dir {
        case DeviceRoot => children := DeviceChildren(su, dev, dir).value;
        case Virtual(_) => return Bad(BadHandle);
        case _ =>
          var (i, h) := DirOf(dir).value;
          if !link.online {
            return Bad(IO);
          }
          if (i, h) in link.mute {
            return Bad(NfsErr(link.mute[(i, h)]));
          }
          DirIsKnown(su, V(), dir);
          HandlesBelowNext(su, V(), i);
          var entries := ListHandle(su, dev, i, h);
          if entries.Err? {
            return Bad(StatusOfResult(entries));
          }
          SeedAttrs(i, h, entries.value);
          children := EntryChildren(i, entries.value);
      }
      var shown := CollectUnflushed(dir);
      WalkDoesNotMatter(su, V(), dir, shown);
      r := Good(children + StagedChildren(staged, shown));
      NoStagesAtRoot(su, V(), dir, shown);
      forall c | c in r.value
        ensures StandsFor(su, V(), dir, c)
      {
        ChildrenStand(su, V(), dir, shown, c);
      }
    }

    /** Walks the stage map, in an order of its own. */
    method CollectUnflushed(dir: Id) returns (ids: seq<Id>)
      ensures Walks(staged, dir, ids) && AllStaged(staged, ids)
    {
      var todo := staged.Keys;
      ids := [];
      while todo != {}
        invariant todo <= staged.Keys
        invariant forall id :: id in ids <==> id !in todo && Unflushed(staged, dir, id)
        invariant forall i, j :: 0 <= i < j < |ids| ==> ids[i] != ids[j]
        decreases |todo|
      {
        var id :| id in todo;
        todo := todo - {id};
        if Unflushed(staged, dir, id) {
          ids := ids + [id];
        }
      }
    }

    /** `readdir`: a page of the directory's names, and whether it is the last. The page depends on
        the directory and the request alone, not on the order of the stage map. */
    method Readdir(dir: Id, startAfter: nat, maxEntries: nat) returns (r: Nfs<(seq<Child>, bool)>)
      requires Ok() && dir in known
      modifies this`attrs, this`clock
      ensures Ok() && V() == old(V()) && |dev| == |su.storages|
      ensures r.Good? ==>
          && DeviceChildren(su, dev, dir).Some?
          && (Keys(su.phone.folding, r.value.0), r.value.1) == Page(DirNames(su, V(), dir), startAfter, maxEntries)
          && forall c :: c in r.value.0 ==> StandsFor(su, V(), dir, c)
      ensures r.Good? <==> DeviceChildren(su, dev, dir).Some? && link.Hears(dir)
    {
      hide Inv, AttrsOk, Durable, Sort, Dedup, StandsFor, DirNames, DeviceChildren, Increasing, Represented;
      var collected := CollectChildren(dir);
      if collected.Bad? {
        return Bad(collected.status);
      }
      var children := Dedup(su.phone.folding, Sort(su.phone.folding, collected.value));
      ListingIsExact(su.phone.folding, collected.value);
      children := Sort(su.phone.folding, children);
      var total := |children|;
      var skip := Min(startAfter, total);
      var take := Min(maxEntries, total - skip);
      var end := skip + take >= total;
      assert Keys(su.phone.folding, children[skip..skip + take]) == Keys(su.phone.folding, children)[skip..skip + take];
      r := Good((children[skip..skip + take], end));
      forall c | c in r.value.0
        ensures StandsFor(su, V(), dir, c)
      {
        assert c in children;
      }
    }

    // ---------- clients ----------

    /** READ until the end mark, whatever positive counts the client chooses. */
    method ReadWhole(id: Id, counts: nat -> nat) returns (bytes: Bytes)
      requires Ok() && id in known && Content(V(), id).Some?
      requires Readable(su, V(), link, id)
      requires forall k :: 0 < counts(k)
      ensures Some(bytes) == Content(V(), id)
    {
      hide Inv, AttrsOk, Durable, Progressive;
      ghost var content := Content(V(), id).value;
      bytes := [];
      var eof, k := false, 0;
      while !eof
        invariant |bytes| <= |content| && bytes == content[..|bytes|]
        invariant eof ==> |bytes| == |content|
        decreases if eof then 0 else 1, |content| - |bytes|
      {
        var r := Read(id, |bytes|, counts(k));
        bytes := bytes + r.value.0;
        eof := r.value.1;
        k := k + 1;
      }
      assert bytes == content;
    }

    /** READDIR page by page, asking to start after as many entries as have been received: every name
        once, whatever the page size and however the stage map is ordered at each call. */
    method ReadNames(dir: Id, limit: nat) returns (names: seq<string>)
      requires Ok() && dir in known && link.Hears(dir) && 0 < limit && DeviceChildren(su, dev, dir).Some?
      modifies this`attrs, this`clock
      ensures Ok() && V() == old(V()) && |dev| == |su.storages| && names == DirNames(su, V(), dir)
    {
      hide Inv, AttrsOk, Durable, DeviceChildren, DirNames;
      names := [];
      StorageCount(su, V());
      ghost var all := DirNames(su, V(), dir);
      var end := false;
      assert all[..0] == [];
      while !end
        invariant Ok() && V() == old(V())
        invariant |names| <= |all| && names == all[..|names|] && (end ==> |names| == |all|)
        decreases if end then 0 else 1, |all| - |names|
      {
        var page := Readdir(dir, |names|, limit);
        assert all[..|names|] + all[|names|..|names| + |page.value.0|] == all[..|names| + |page.value.0|];
        names := names + Keys(su.phone.folding, page.value.0);
        end := page.value.1;
      }
    }
  }
}
