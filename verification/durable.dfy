/** What the phone holds of a file, and that a stage marked clean is on the phone byte for byte. */
module Durability {
  import opened Wrappers
  import opened Names
  import opened Phones
  import opened PlainActor
  import opened Staging
  import opened StagingSteps

  function FileData(dev: Dev, i: nat, h: Handle): Option<Bytes> {
    if i < |dev| && h in dev[i].objects && !dev[i].objects[h].isDir then Some(dev[i].objects[h].data) else None
  }

  /** The phone's own copy of a file, whatever the local stage says. */
  function PhoneCopy(v: View, id: Id): Option<Bytes> {
    if id in v.staged then
      match OnDevice(v.staged[id])
      case Some(h) => FileData(v.dev, v.staged[id].storageIndex, h)
      case None => None
    else Content(v, id)
  }

  /** A stage that is not dirty has nothing to lose: the phone holds its bytes. */
  ghost predicate Durable(v: View) {
    forall id :: id in v.staged ==> Backed(v, id)
  }

  ghost predicate Backed(v: View, id: Id)
    requires id in v.staged
  {
    !v.staged[id].dirty ==> id in v.files && PhoneCopy(v, id) == Some(v.files[id])
  }

  /** With nothing dirty about it, a file on the phone is the file clients see. */
  lemma CleanIsOnPhone(v: View, id: Id)
    requires Durable(v) && (id in v.staged ==> !v.staged[id].dirty)
    ensures PhoneCopy(v, id) == Content(v, id)
  {
    assert id in v.staged ==> Backed(v, id);
  }

  /** A stage the phone never had is dirty. */
  lemma LocalIsDirty(v: View, id: Id)
    requires Durable(v) && id in v.staged && OnDevice(v.staged[id]).None?
    ensures v.staged[id].dirty
  {
    assert Backed(v, id);
  }

  /** Two stages never stand for the same object of the phone. */
  lemma CopiesDiffer(su: Setup, v: View, a: Id, b: Id)
    requires Inv(su, v) && a in v.staged && b in v.staged && a != b
    requires OnDevice(v.staged[a]).Some? && v.staged[a].storageIndex < |v.dev|
    requires OnDevice(v.staged[a]).value in v.dev[v.staged[a].storageIndex].objects
    ensures !(OnDevice(v.staged[a]) == OnDevice(v.staged[b]) && v.staged[a].storageIndex == v.staged[b].storageIndex)
  {
    hide DevOk, FilesOk, KnownOk, NoAlias;
    assert StageOk(su, v, a) && StageOk(su, v, b);
  }

  /** Same stages, same files: learning an id, counting virtual ids. */
  lemma SameStagesDurable(v: View, w: View)
    requires Durable(v) && w.dev == v.dev && w.staged == v.staged && w.files == v.files
    ensures Durable(w)
  {
    forall b | b in w.staged
      ensures Backed(w, b)
    {
      assert Backed(v, b);
    }
  }

  /** One stage set, the device as before. */
  lemma StageSetDurable(v: View, w: View, id: Id, s: Stage, bytes: Bytes)
    requires Durable(v) && w.dev == v.dev && w.staged == v.staged[id := s] && w.files == v.files[id := bytes]
    requires s.dirty || (OnDevice(s).Some? && FileData(v.dev, s.storageIndex, OnDevice(s).value) == Some(bytes))
    ensures Durable(w)
  {
    forall b | b in w.staged
      ensures Backed(w, b)
    {
      assert b != id ==> Backed(v, b);
    }
  }

  lemma RecordDurable(v: View, w: View, id: Id, s: Stage)
    requires Durable(v) && w.dev == v.dev && id in v.staged && w.staged == v.staged[id := s] && w.files == v.files
    requires s.dirty == v.staged[id].dirty && OnDevice(s) == OnDevice(v.staged[id]) && s.storageIndex == v.staged[id].storageIndex
    ensures Durable(w)
  {
    forall b | b in w.staged
      ensures Backed(w, b)
    {
      assert Backed(v, b);
    }
  }

  lemma UnstagedDurable(v: View, id: Id)
    requires Durable(v)
    ensures Durable(WithoutStage(v, id))
  {
    var w := WithoutStage(v, id);
    forall b | b in w.staged
      ensures Backed(w, b)
    {
      assert Backed(v, b);
    }
  }

  /** Storage `i` keeps every file object, or loses only `lost`, which no clean stage stands for. */
  lemma StoreDurable(v: View, i: nat, t: Store, lost: Option<Handle>)
    requires Durable(v) && i < |v.dev|
    requires forall h :: h in v.dev[i].objects && Some(h) != lost ==>
        h in t.objects && t.objects[h].isDir == v.dev[i].objects[h].isDir && t.objects[h].data == v.dev[i].objects[h].data
    requires lost.Some? ==> forall b :: b in v.staged && !v.staged[b].dirty ==>
        !(OnDevice(v.staged[b]) == lost && v.staged[b].storageIndex == i)
    ensures Durable(WithStore(v, i, t))
  {
    var w := WithStore(v, i, t);
    forall b | b in w.staged
      ensures Backed(w, b)
    {
      assert Backed(v, b);
    }
  }

  /** Deleting a dirty stage's copy, or trying to. */
  lemma DropCopyDurable(su: Setup, v: View, id: Id, p: nat)
    requires Inv(su, v) && Durable(v) && id in v.staged && v.staged[id].dirty && OnDevice(v.staged[id]).Some?
    requires p == v.staged[id].storageIndex < |v.dev|
    ensures Durable(WithStore(v, p, Apply(su.phone, v.dev[p], Delete(OnDevice(v.staged[id]).value)).0))
  {
    hide Inv;
    var h := OnDevice(v.staged[id]).value;
    var (t, r) := Apply(su.phone, v.dev[p], Delete(h));
    if r.Ok? {
      forall b | b in v.staged && !v.staged[b].dirty
        ensures !(OnDevice(v.staged[b]) == Some(h) && v.staged[b].storageIndex == p)
      {
        CopiesDiffer(su, v, id, b);
      }
      StoreDurable(v, p, t, Some(h));
    } else {
      StoreDurable(v, p, t, None);
    }
  }

  /** A stage and its object, both gone. */
  lemma RemovedDurable(su: Setup, v: View, id: Id, p: nat, h: Handle)
    requires Inv(su, v) && Durable(v) && id in v.staged && OnDevice(v.staged[id]) == Some(h)
    requires p == v.staged[id].storageIndex < |v.dev| && h in v.dev[p].objects
    ensures Durable(WithoutStage(WithStore(v, p, Drop(v.dev[p], h)), id))
  {
    hide Inv;
    var u := WithoutStage(v, id);
    UnstagedDurable(v, id);
    forall b | b in u.staged && !u.staged[b].dirty
      ensures !(OnDevice(u.staged[b]) == Some(h) && u.staged[b].storageIndex == p)
    {
      CopiesDiffer(su, v, id, b);
    }
    StoreDurable(u, p, Drop(v.dev[p], h), Some(h));
    assert WithoutStage(WithStore(v, p, Drop(v.dev[p], h)), id) == WithStore(u, p, Drop(v.dev[p], h));
  }

  /** An object nobody staged, gone. */
  lemma UnstagedRemovedDurable(su: Setup, v: View, key: Key, id: Id)
    requires Inv(su, v) && Durable(v) && !StagedUnder(su, v, key) && Shows(su, v.dev, key, id)
    ensures Durable(WithStore(v, id.storage, Drop(v.dev[id.storage], id.handle)))
  {
    hide Inv, StagedUnder;
    forall b | b in v.staged && !v.staged[b].dirty
      ensures !(OnDevice(v.staged[b]) == Some(id.handle) && v.staged[b].storageIndex == id.storage)
    {
      UnstagedIsFree(su, v, key, id, b);
    }
    StoreDurable(v, id.storage, Drop(v.dev[id.storage], id.handle), Some(id.handle));
  }

  /** A stage published: clean, and on the phone. */
  lemma PublishedDurable(v: View, id: Id, p: nat, d: Handle)
    requires Durable(v) && id in v.staged && id in v.files && p < |v.dev| && v.dev[p].next !in v.dev[p].objects
    ensures Durable(Published(v, id, p, d))
  {
    var o := Object(d, v.staged[id].name, false, v.files[id]);
    StoreDurable(v, p, Add(v.dev[p], o), None);
    StageSetDurable(WithStore(v, p, Add(v.dev[p], o)), Published(v, id, p, d), id, Flushed(v.staged[id], p, v.dev[p].next), v.files[id]);
  }
}
