/** The state of the NFS adapter as a value: `crates/nfs-mount/src/adapter.rs`.

    File ids are structured here; `FileIds` relates them to 64-bit words. A name is bound by its
    key, the directory's id and the folded name. */
module Staging {
  import opened Wrappers
  import opened Names
  import opened Phones
  import opened PlainActor

  datatype Id = DeviceRoot | StorageRoot(index: nat) | Real(storage: nat, handle: Handle) | Virtual(number: nat)

  datatype Stage = Stage(
    storageIndex: nat,
    parent: Id,
    name: string,
    size: nat,
    originDev: Option<Handle>,
    flushedDev: Option<Handle>,
    dirty: bool)

  /** Device, stage map, local stage files, the virtual-id counter, and the ids handed to clients
      by `lookup`, `create` and `mkdir`. */
  datatype View = View(dev: Dev, staged: map<Id, Stage>, files: map<Id, Bytes>, lastVirtual: nat, known: set<Id>)

  type Key = (Id, string)

  /** The device object a stage stands for: the latest upload, else the original. */
  function OnDevice(s: Stage): Option<Handle> {
    if s.flushedDev.Some? then s.flushedDev else s.originDev
  }

  /** `parent_handle_of`. */
  function DirOf(id: Id): Option<(nat, Handle)> {
    match id
    case StorageRoot(i) => Some((i, ROOT))
    case Real(i, h) => Some((i, h))
    case _ => None
  }

  /** The id of a directory, as `stage_for_writes` computes it from an object's parent. */
  function DirId(i: nat, h: Handle): Id {
    if h == ROOT then StorageRoot(i) else Real(i, h)
  }

  function KeyOf(su: Setup, dir: Id, name: string): Key {
    (dir, Fold(su.phone.folding, name))
  }

  function ObjKey(su: Setup, i: nat, o: Object): Key {
    KeyOf(su, DirId(i, o.parent), o.name)
  }

  function StageKey(su: Setup, s: Stage): Key {
    KeyOf(su, s.parent, s.name)
  }

  // ---------- what a client sees ----------

  /** The bytes behind an id: the stage file once staged, the device object before. */
  function Content(v: View, id: Id): Option<Bytes> {
    if id in v.staged then (if id in v.files then Some(v.files[id]) else None)
    else
      match id
      case Real(i, h) =>
        if i < |v.dev| && h in v.dev[i].objects && !v.dev[i].objects[h].isDir then Some(v.dev[i].objects[h].data) else None
      case _ => None
  }

  ghost predicate StagedUnder(su: Setup, v: View, key: Key) {
    exists a :: a in v.staged && StageKey(su, v.staged[a]) == key
  }

  predicate Shows(su: Setup, dev: Dev, key: Key, id: Id) {
    id.Real? && id.storage < |dev| && id.handle in dev[id.storage].objects
    && ObjKey(su, id.storage, dev[id.storage].objects[id.handle]) == key
  }

  /** `key` names `id`: staged names first, the device's otherwise. */
  ghost predicate Binds(su: Setup, v: View, key: Key, id: Id) {
    if StagedUnder(su, v, key) then id in v.staged && StageKey(su, v.staged[id]) == key else Shows(su, v.dev, key, id)
  }

  ghost predicate Unbound(su: Setup, v: View, key: Key) {
    forall id :: !Binds(su, v, key, id)
  }

  ghost predicate SameNamesExcept(su: Setup, v: View, w: View, keys: set<Key>) {
    forall key, id :: key !in keys ==> (Binds(su, v, key, id) <==> Binds(su, w, key, id))
  }

  ghost predicate SameContentExcept(v: View, w: View, ids: set<Id>) {
    forall id :: id in v.known && id !in ids ==> Content(v, id) == Content(w, id)
  }

  /** Nothing a client can observe differs. */
  ghost predicate Unseen(su: Setup, v: View, w: View) {
    v.known <= w.known && SameNamesExcept(su, v, w, {}) && SameContentExcept(v, w, {})
  }

  // ---------- the invariant ----------

  ghost predicate DistinctKeys(su: Setup, i: nat, s: Store) {
    forall x, y :: x in s.objects && y in s.objects && x != y ==> ObjKey(su, i, s.objects[x]) != ObjKey(su, i, s.objects[y])
  }

  ghost predicate DevOk(su: Setup, v: View) {
    && |v.dev| == |su.storages| && AllValid(v.dev)
    && forall i :: 0 <= i < |v.dev| ==> DistinctKeys(su, i, v.dev[i])
  }

  /** Every stage's recorded size is the length of its stage file. */
  ghost predicate FilesOk(v: View) {
    v.files.Keys == v.staged.Keys && forall id :: id in v.staged ==> |v.files[id]| == v.staged[id].size
  }

  /** At most one stage per directory and folded name. */
  ghost predicate UniqueOk(su: Setup, v: View) {
    forall a, b :: a in v.staged && b in v.staged && a != b ==> StageKey(su, v.staged[a]) != StageKey(su, v.staged[b])
  }

  ghost predicate KnownId(v: View, id: Id) {
    match id
    case DeviceRoot => true
    case StorageRoot(i) => i < |v.dev|
    case Real(i, h) => i < |v.dev| && ROOT < h < v.dev[i].next
    case Virtual(n) => n <= v.lastVirtual
  }

  ghost predicate KnownOk(v: View) {
    v.staged.Keys <= v.known && forall id :: id in v.known ==> KnownId(v, id)
  }

  /** No client holds the raw id of an object that stands behind a stage of another id. */
  ghost predicate Unaliased(v: View, b: Id, id: Id)
    requires b in v.staged
  {
    id.Real? && id != b ==> !(OnDevice(v.staged[b]) == Some(id.handle) && v.staged[b].storageIndex == id.storage)
  }

  ghost predicate NoAlias(v: View) {
    forall b, id :: b in v.staged && id in v.known ==> Unaliased(v, b, id)
  }

  /** A stage and the device agree: its object, if still there, is a file under the stage's own
      key, and nothing else on the device answers to that key. */
  ghost predicate StageOk(su: Setup, v: View, id: Id)
    requires id in v.staged
  {
    var s := v.staged[id];
    && (s.parent.StorageRoot? || (s.parent.Real? && s.parent.handle != ROOT))
    && var (i, d) := DirOf(s.parent).value;
    && (OnDevice(s).Some? ==>
          && s.storageIndex == i < |v.dev| && OnDevice(s).value < v.dev[i].next
          && (OnDevice(s).value in v.dev[i].objects ==>
                var o := v.dev[i].objects[OnDevice(s).value]; !o.isDir && ObjKey(su, i, o) == StageKey(su, s)))
    && (forall x :: Shows(su, v.dev, StageKey(su, s), x) ==> OnDevice(s) == Some(x.handle))
    && (id.Real? && id.storage < |v.dev| && id.handle in v.dev[id.storage].objects ==>
          OnDevice(s) == Some(id.handle) && s.storageIndex == id.storage)
  }

  ghost predicate StagesOk(su: Setup, v: View) {
    forall id :: id in v.staged ==> StageOk(su, v, id)
  }

  ghost predicate Inv(su: Setup, v: View) {
    DevOk(su, v) && FilesOk(v) && UniqueOk(su, v) && KnownOk(v) && NoAlias(v) && StagesOk(su, v)
  }

  // ---------- reading the invariant ----------

  /** A key names at most one id. */
  lemma BindsOnce(su: Setup, v: View, key: Key, a: Id, b: Id)
    requires Inv(su, v) && Binds(su, v, key, a) && Binds(su, v, key, b)
    ensures a == b
  {
    hide AllValid, NoAlias, KnownOk, StagesOk, FilesOk;
    if !StagedUnder(su, v, key) {
      ShownOnce(su, v, key, a, b);
    }
  }

  lemma ShownOnce(su: Setup, v: View, key: Key, a: Id, b: Id)
    requires DevOk(su, v) && Shows(su, v.dev, key, a) && Shows(su, v.dev, key, b)
    ensures a == b
  {
    hide AllValid;
    assert a.storage == b.storage;
    assert DistinctKeys(su, a.storage, v.dev[a.storage]);
  }

  /** An object the device shows under an unstaged name stands behind no stage at all. */
  lemma UnstagedIsFree(su: Setup, v: View, key: Key, id: Id, b: Id)
    requires Inv(su, v) && !StagedUnder(su, v, key) && Shows(su, v.dev, key, id)
    requires b in v.staged
    ensures !(OnDevice(v.staged[b]) == Some(id.handle) && v.staged[b].storageIndex == id.storage)
    ensures b != id
  {
    hide DevOk, FilesOk, UniqueOk, KnownOk, NoAlias, AllValid;
    assert StageOk(su, v, b);
  }

  /** The same, for an id a client holds and nobody staged. */
  lemma UnstagedKeyIsFree(su: Setup, v: View, id: Id)
    requires Inv(su, v) && id in v.known && id !in v.staged && id.Real? && id.handle in v.dev[id.storage].objects
    ensures !StagedUnder(su, v, ObjKey(su, id.storage, v.dev[id.storage].objects[id.handle]))
  {
    hide DevOk, FilesOk, UniqueOk, AllValid;
    var key := ObjKey(su, id.storage, v.dev[id.storage].objects[id.handle]);
    assert Shows(su, v.dev, key, id);
    forall b | b in v.staged
      ensures StageKey(su, v.staged[b]) != key
    {
      assert StageOk(su, v, b) && Unaliased(v, b, id);
    }
  }
}
