/** The actor's request language and the meaning of a run of requests without a cache. */
module Requests {
  import opened Wrappers
  import opened Phones
  import opened Coherence
  import opened PlainActor
  import opened TreeRemoval

  datatype Request =
    | Shutdown
    | Ping
    | HList(storageIndex: nat, dir: Handle)
    | HInfo(storageIndex: nat, handle: Handle)
    | HRead(storageIndex: nat, handle: Handle, offset: nat, count: nat)
    | HDelete(storageIndex: nat, handle: Handle)
    | HUpload(storageIndex: nat, parent: Handle, name: string, size: nat, stream: Bytes)
    | HMkdir(storageIndex: nat, parent: Handle, name: string)
    | HRename(storageIndex: nat, fromParent: Handle, fromName: string, toParent: Handle, toName: string)
    | Storages
    | ListDir(path: string, refresh: bool)
    | ResolvePath(path: string, refresh: bool)
    | MkdirAll(path: string)
    | RemovePath(path: string, recursive: bool)
    | RenamePath(path: string, newName: string)
    | MoveInto(src: string, dstDir: string)
    | DownloadFile(target: Resolved)
    | UploadFile(into: Resolved, name: string, size: nat, stream: Bytes)

  datatype Reply =
    | Listed(entries: Result<seq<Entry>>)
    | Meta(entry: Result<Entry>)
    | Data(bytes: Result<Bytes>)
    | Removed(count: Result<nat>)
    | Located(place: Result<Resolved>)
    | Done(outcome: Result<()>)
    | Table(storages: seq<StorageRec>)

  predicate IsError(reply: Reply) {
    match reply
    case Listed(r) => r.Err?
    case Meta(r) => r.Err?
    case Data(r) => r.Err?
    case Removed(r) => r.Err?
    case Located(r) => r.Err?
    case Done(r) => r.Err?
    case Table(_) => false
  }

  function PingReply(su: Setup, dev: Dev): Result<()>
    requires |dev| == |su.storages|
  {
    if |dev| == 0 then Err(InvalidArgument)
    else
      var entries :- AskListing(su.phone, dev[0], ROOT);
      Ok(())
  }

  /** `dispatch` with every listing taken from the device. */
  ghost function Step(su: Setup, dev: Dev, req: Request): (Dev, Reply)
    requires |dev| == |su.storages| && AllValid(dev)
  {
    match req
    case Shutdown => (dev, Done(Ok(())))
    case Ping => (dev, Done(PingReply(su, dev)))
    case HList(i, d) => (dev, Listed(ListHandle(su, dev, i, d)))
    case HInfo(i, h) => (dev, Meta(InfoHandle(su, dev, i, h)))
    case HRead(i, h, off, n) => (dev, Data(ReadHandle(su, dev, i, h, off, n)))
    case HDelete(i, h) => var (d', r) := DeleteHandle(su, dev, i, h); (d', Done(r))
    case HUpload(i, p, name, size, stream) => var (d', r) := UploadInto(su, dev, i, p, name, size, stream); (d', Meta(r))
    case HMkdir(i, p, name) => var (d', r) := MakeDir(su, dev, i, p, name); (d', Meta(r))
    case HRename(i, fp, fname, tp, tname) => var (d', r) := RenameHandle(su, dev, i, fp, fname, tp, tname); (d', Meta(r))
    case Storages => (dev, Table(su.storages))
    case ListDir(path, _) => (dev, Listed(List(su, dev, path)))
    case ResolvePath(path, _) => (dev, Located(Resolve(su, dev, path)))
    case MkdirAll(path) => var (d', r) := PlainActor.MkdirAll(su, dev, path); (d', Meta(r))
    case RemovePath(path, rec) => var (d', r) := PlainActor.Remove(su, dev, path, rec); (d', Removed(r))
    case RenamePath(path, name) => var (d', r) := PlainActor.RenamePath(su, dev, path, name); (d', Meta(r))
    case MoveInto(src, dst) => var (d', r) := PlainActor.MoveInto(su, dev, src, dst); (d', Meta(r))
    case DownloadFile(target) => (dev, Data(Download(su, dev, target)))
    case UploadFile(p, name, size, stream) =>
      var (d', r) := UploadInto(su, dev, p.storageIndex, p.handle, name, size, stream); (d', Meta(r))
  }

  lemma {:induction false} CreateAllValid(ph: Phone, s: Store, cur: Handle, segs: seq<string>)
    requires Valid(s)
    ensures Valid(CreateAll(ph, s, cur, segs).0)
    decreases |segs|
  {
    if segs != [] {
      ApplyValid(ph, s, Create(cur, segs[0]));
      var (s1, r) := Apply(ph, s, Create(cur, segs[0]));
      if r.Ok? {
        CreateAllValid(ph, s1, r.value, segs[1..]);
      }
    }
  }

  lemma {:induction false} MkdirWalkValid(ph: Phone, s: Store, cur: Handle, segs: seq<string>)
    requires Valid(s)
    ensures Valid(MkdirWalk(ph, s, cur, segs).0)
    decreases |segs|
  {
    if segs != [] {
      CreateAllValid(ph, s, cur, segs);
      var entries := ListObjects(ph, s, cur);
      if entries.Ok? {
        var child := ChildByName(ph.folding, entries.value, segs[0]);
        if child.Some? {
          MkdirWalkValid(ph, s, child.value.handle, segs[1..]);
        }
      }
    }
  }

  lemma RelocateValid(ph: Phone, s: Store, h: Handle, fromParent: Handle, toParent: Handle, fromName: string, toName: string)
    requires Valid(s)
    ensures Valid(Relocate(ph, s, h, fromParent, toParent, fromName, toName).0)
  {
    ApplyValid(ph, s, Move(h, toParent));
    var s1 := if fromParent != toParent then Apply(ph, s, Move(h, toParent)).0 else s;
    ApplyValid(ph, s1, Rename(h, toName));
  }

  lemma RemoveAtValid(ph: Phone, s: Store, p: Paths.DevPath, recursive: bool)
    requires Valid(s)
    ensures Valid(RemoveAt(ph, s, p, recursive).0)
  {
    var found := FindTarget(ph, s, p);
    if found.Ok? {
      TargetIsKid(ph, s, p);
      var target := found.value.1;
      ApplyValid(ph, s, Delete(target.handle));
      if target.isDir {
        DeleteTreeExact(ph, s, SomeRank(s.objects), target.handle);
      }
    }
  }

  /** Every request keeps every storage a forest. */
  lemma StepValid(su: Setup, dev: Dev, req: Request)
    requires |dev| == |su.storages| && AllValid(dev)
    ensures AllValid(Step(su, dev, req).0) && |Step(su, dev, req).0| == |dev|
  {
    hide AllValid, Step;
    if req.HRename? || req.MkdirAll? || req.RemovePath? || req.RenamePath? || req.MoveInto? {
      WalkingStepValid(su, dev, req);
    } else {
      DirectStepValid(su, dev, req);
    }
  }

  lemma DirectStepValid(su: Setup, dev: Dev, req: Request)
    requires |dev| == |su.storages| && AllValid(dev)
    requires !(req.HRename? || req.MkdirAll? || req.RemovePath? || req.RenamePath? || req.MoveInto?)
    ensures AllValid(Step(su, dev, req).0) && |Step(su, dev, req).0| == |dev|
  {
    hide Valid, Apply, Upload, ListObjects;
    var dev' := Step(su, dev, req).0;
    forall i | 0 <= i < |dev|
      ensures |dev'| == |dev| && Valid(dev'[i])
    {
      var s := dev[i];
      match req {
        case HDelete(j, h) => ApplyValid(su.phone, s, Delete(h));
        case HUpload(j, p, name, size, stream) => UploadValid(su.phone, s, p, name, size, stream);
        case UploadFile(p, name, size, stream) => UploadValid(su.phone, s, p.handle, name, size, stream);
        case HMkdir(j, p, name) => ApplyValid(su.phone, s, Create(p, name));
        case _ =>
      }
    }
  }

  lemma WalkingStepValid(su: Setup, dev: Dev, req: Request)
    requires |dev| == |su.storages| && AllValid(dev)
    requires req.HRename? || req.MkdirAll? || req.RemovePath? || req.RenamePath? || req.MoveInto?
    ensures AllValid(Step(su, dev, req).0) && |Step(su, dev, req).0| == |dev|
  {
    hide Valid, Apply, MkdirWalk, RemoveAt, Relocate, FindTarget, Resolve, ListObjects, FindStorageIndex,
      Paths.ParseSpec;
    var dev' := Step(su, dev, req).0;
    forall i | 0 <= i < |dev|
      ensures |dev'| == |dev| && Valid(dev'[i])
    {
      ShapesValid(su.phone, dev[i], req);
    }
  }

  /** Every store such a request can leave behind, whatever it found on its way. */
  lemma ShapesValid(ph: Phone, s: Store, req: Request)
    requires Valid(s)
    ensures req.HRename? ==> forall h :: Valid(Relocate(ph, s, h, req.fromParent, req.toParent, req.fromName, req.toName).0)
    ensures req.MkdirAll? ==> forall segs :: Valid(MkdirWalk(ph, s, ROOT, segs).0)
    ensures req.RemovePath? ==> forall p :: Valid(RemoveAt(ph, s, p, req.recursive).0)
    ensures req.RenamePath? ==> forall h :: Valid(Apply(ph, s, Rename(h, req.newName)).0)
    ensures req.MoveInto? ==> forall h, to :: Valid(Apply(ph, s, Move(h, to)).0)
  {
    hide Valid, Apply, MkdirWalk, RemoveAt, Relocate;
    match req {
      case HRename(j, fp, fname, tp, tname) =>
        forall h { RelocateValid(ph, s, h, fp, tp, fname, tname); }
      case MkdirAll(path) =>
        forall segs { MkdirWalkValid(ph, s, ROOT, segs); }
      case RemovePath(path, rec) =>
        forall p { RemoveAtValid(ph, s, p, rec); }
      case RenamePath(path, name) =>
        forall h { ApplyValid(ph, s, Rename(h, name)); }
      case MoveInto(src, dst) =>
        forall h, to { ApplyValid(ph, s, Move(h, to)); }
      case _ =>
    }
  }

  // ---------- runs ----------

  ghost predicate SameObjects(a: Dev, b: Dev) {
    |a| == |b| && forall i :: 0 <= i < |a| ==> a[i].objects == b[i].objects
  }

  /** What the cached actor may answer to a listing by handle: the directory's own listing, or for
      one that is no longer there an error or its last listing, which was empty. */
  ghost predicate MayHear(su: Setup, dev: Dev, i: nat, d: Handle, heard: Result<seq<Entry>>)
    requires i < |dev| == |su.storages|
  {
    if Listable(dev[i], d) then heard == ListHandle(su, dev, i, d) else heard.Err? || heard == Ok([])
  }

  /** The two provisos of transparency, both about the request and the device alone: a directory
      addressed by handle still exists, a removal that fails has changed nothing, and an upload does
      not leave an object it fails to report. */
  ghost predicate Orderly(su: Setup, dev: Dev, req: Request)
    requires |dev| == |su.storages| && AllValid(dev)
  {
    match req
    case HList(i, d) => i < |dev| ==> Listable(dev[i], d)
    case HRename(i, d, _, _, _) => i < |dev| ==> Listable(dev[i], d)
    case RemovePath(_, _) => IsError(Step(su, dev, req).1) ==> SameObjects(dev, Step(su, dev, req).0)
    case HUpload(i, p, name, size, stream) => i < |dev| ==> !LeavesPart(su.phone, dev[i], p, name, size, stream)
    case UploadFile(p, name, size, stream) =>
      p.storageIndex < |dev| ==> !LeavesPart(su.phone, dev[p.storageIndex], p.handle, name, size, stream)
    case _ => true
  }

  /** A run without a cache: requests in order, nothing after `Shutdown`. */
  ghost function Run(su: Setup, dev: Dev, reqs: seq<Request>): (Dev, seq<Reply>)
    requires |dev| == |su.storages| && AllValid(dev)
    decreases |reqs|
  {
    if reqs == [] || reqs[0].Shutdown? then (dev, [])
    else
      StepValid(su, dev, reqs[0]);
      var (dev1, reply) := Step(su, dev, reqs[0]);
      var (dev2, replies) := Run(su, dev1, reqs[1..]);
      (dev2, [reply] + replies)
  }

  ghost predicate OrderlyRun(su: Setup, dev: Dev, reqs: seq<Request>)
    requires |dev| == |su.storages| && AllValid(dev)
    decreases |reqs|
  {
    if reqs == [] || reqs[0].Shutdown? then true
    else
      StepValid(su, dev, reqs[0]);
      Orderly(su, dev, reqs[0]) && OrderlyRun(su, Step(su, dev, reqs[0]).0, reqs[1..])
  }
}
