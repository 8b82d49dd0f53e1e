/** What the actor serves: each request's reply and its effect on the device, and runs of them. */
module Served {
  import opened Wrappers
  import opened Phones
  import opened PlainActor
  import opened Answers
  import opened Requests

  /** The reply and the device after one request, for every request and every state of the device. */
  ghost predicate Serves(su: Setup, dev: Dev, req: Request, dev': Dev, reply: Reply)
    requires |dev| == |su.storages|
  {
    match req
    case Shutdown => dev' == dev && reply == Done(Ok(()))
    case Ping => dev' == dev && reply.Done? && Pings(su, dev, reply.outcome)
    case HList(i, d) =>
      dev' == dev && reply.Listed? && if i < |dev| then Lists(su.phone, dev[i], d, reply.entries) else reply.entries == Err(InvalidArgument)
    case HInfo(i, h) =>
      dev' == dev && reply.Meta? && if i < |dev| then Informs(su.phone, dev[i], h, reply.entry) else reply.entry == Err(InvalidArgument)
    case HRead(i, h, offset, count) =>
      && dev' == dev && reply.Data?
      && if i < |dev| then Reads(su.phone, dev[i], h, offset, count, reply.bytes) else reply.bytes == Err(InvalidArgument)
    case HDelete(i, h) =>
      && reply.Done?
      && if i < |dev| then OnlyAt(dev, dev', i) && Deletes(su.phone, dev[i], h, dev'[i], reply.outcome)
         else dev' == dev && reply.outcome == Err(InvalidArgument)
    case HUpload(i, d, name, size, stream) => reply.Meta? && UploadsTo(su, dev, i, d, name, size, stream, dev', reply.entry)
    case HMkdir(i, d, name) =>
      && reply.Meta?
      && if i < |dev| then OnlyAt(dev, dev', i) && Makes(su.phone, dev[i], d, name, dev'[i], reply.entry)
         else dev' == dev && reply.entry == Err(InvalidArgument)
    case HRename(i, from, name, to, toName) =>
      && reply.Meta?
      && if i < |dev| then OnlyAt(dev, dev', i) && RenamesChild(su.phone, dev[i], from, name, to, toName, dev'[i], reply.entry)
         else dev' == dev && reply.entry == Err(InvalidArgument)
    case Storages => dev' == dev && reply == Table(su.storages)
    case ListDir(path, _) => dev' == dev && reply.Listed? && ListsPath(su, dev, path, reply.entries)
    case ResolvePath(path, _) => dev' == dev && reply.Located? && Resolves(su, dev, path, reply.place)
    case MkdirAll(path) => reply.Meta? && MakesPath(su, dev, path, dev', reply.entry)
    case RemovePath(path, recursive) => reply.Removed? && RemovesPath(su, dev, path, recursive, dev', reply.count)
    case RenamePath(path, name) => reply.Meta? && RenamesPath(su, dev, path, name, dev', reply.entry)
    case MoveInto(src, dst) => reply.Meta? && MovesPath(su, dev, src, dst, dev', reply.entry)
    case DownloadFile(target) => dev' == dev && reply.Data? && Downloads(su, dev, target.storageIndex, target.handle, reply.bytes)
    case UploadFile(into, name, size, stream) =>
      reply.Meta? && UploadsTo(su, dev, into.storageIndex, into.handle, name, size, stream, dev', reply.entry)
  }

  ghost predicate UploadsTo(su: Setup, dev: Dev, i: nat, d: Handle, name: string, size: nat, stream: Bytes, dev': Dev, r: Result<Entry>) {
    if i < |dev| then OnlyAt(dev, dev', i) && Uploads(su.phone, dev[i], d, name, size, stream, dev'[i], r)
    else dev' == dev && r == Err(InvalidArgument)
  }

  /** A listing of the first storage's top is asked for. */
  ghost predicate Pings(su: Setup, dev: Dev, r: Result<()>) {
    if dev == [] then r == Err(InvalidArgument)
    else
      match su.phone.lists(dev[0], ROOT)
      case Some(e) => r == Err(e)
      case None => r == Ok(())
  }

  /** The actor without a cache serves every request so. */
  lemma StepServes(su: Setup, dev: Dev, req: Request)
    requires |dev| == |su.storages| && AllValid(dev)
    ensures var (dev', reply) := Step(su, dev, req); Serves(su, dev, req, dev', reply)
  {
    hide AllValid, Serves, Step;
    if req.HList? || req.HInfo? || req.HRead? {
      QuestionServes(su, dev, req);
    } else if req.HDelete? || req.HUpload? || req.HMkdir? || req.HRename? || req.UploadFile? {
      ChangeServes(su, dev, req);
    } else {
      PathServes(su, dev, req);
    }
  }

  lemma PathServes(su: Setup, dev: Dev, req: Request)
    requires |dev| == |su.storages| && AllValid(dev)
    requires !(req.HList? || req.HInfo? || req.HRead? || req.HDelete? || req.HUpload? || req.HMkdir? || req.HRename? || req.UploadFile?)
    ensures var (dev', reply) := Step(su, dev, req); Serves(su, dev, req, dev', reply)
  {
    hide Valid, List, Resolve, Download, PlainActor.MkdirAll, PlainActor.Remove, PlainActor.RenamePath, PlainActor.MoveInto,
      ListsPath, Resolves, MakesPath, RemovesPath, RenamesPath, MovesPath, Downloads;
    match req {
      case ListDir(path, _) => ListListsPath(su, dev, path);
      case ResolvePath(path, _) => ResolveResolves(su, dev, path);
      case MkdirAll(path) => MkdirAllMakes(su, dev, path);
      case RemovePath(path, recursive) => RemoveRemoves(su, dev, path, recursive);
      case RenamePath(path, name) => RenameRenames(su, dev, path, name);
      case MoveInto(src, dst) => MoveMoves(su, dev, src, dst);
      case DownloadFile(target) => DownloadDownloads(su, dev, target);
      case _ =>
    }
  }

  lemma QuestionServes(su: Setup, dev: Dev, req: Request)
    requires |dev| == |su.storages| && AllValid(dev) && (req.HList? || req.HInfo? || req.HRead?)
    ensures var (dev', reply) := Step(su, dev, req); Serves(su, dev, req, dev', reply)
  {
    hide Valid, ListObjects, AskInfo, ReadRange, Lists, Informs, Reads;
    match req {
      case HList(i, d) => if i < |dev| { ListObjectsLists(su.phone, dev[i], d); }
      case HInfo(i, h) => if i < |dev| { ReportInforms(su.phone, dev[i], h); }
      case HRead(i, h, offset, count) => if i < |dev| { ReadRangeReads(su.phone, dev[i], h, offset, count); }
    }
  }

  lemma ChangeServes(su: Setup, dev: Dev, req: Request)
    requires |dev| == |su.storages| && AllValid(dev)
    requires req.HDelete? || req.HUpload? || req.HMkdir? || req.HRename? || req.UploadFile?
    ensures var (dev', reply) := Step(su, dev, req); Serves(su, dev, req, dev', reply)
  {
    hide Valid, Apply, UploadReport, RenameHandle, Deletes, Makes, Uploads, RenamesChild;
    match req {
      case HDelete(i, h) => if i < |dev| { ApplyDeletes(su.phone, dev[i], h); }
      case HUpload(i, d, name, size, stream) => if i < |dev| { UploadUploads(su.phone, dev[i], d, name, size, stream); }
      case UploadFile(p, name, size, stream) =>
        if p.storageIndex < |dev| { UploadUploads(su.phone, dev[p.storageIndex], p.handle, name, size, stream); }
      case HMkdir(i, d, name) => if i < |dev| { ApplyMakes(su.phone, dev[i], d, name); }
      case HRename(i, from, name, to, toName) =>
        if i < |dev| {
          RenameHandleRenames(su, dev, i, from, name, to, toName);
        } else {
          NoSuchStorage(su, dev, i, from, name, to, toName);
        }
    }
  }

  lemma NoSuchStorage(su: Setup, dev: Dev, i: nat, from: Handle, name: string, to: Handle, toName: string)
    requires i >= |dev| == |su.storages|
    ensures RenameHandle(su, dev, i, from, name, to, toName) == (dev, Err(InvalidArgument))
  {
  }

  /** A run of requests: each served in turn, from the device the one before left, up to the first
      `Shutdown`. */
  ghost predicate ServesRun(su: Setup, dev: Dev, reqs: seq<Request>, dev': Dev, replies: seq<Reply>) {
    && |replies| <= |reqs| && (|replies| < |reqs| ==> reqs[|replies|].Shutdown?)
    && exists devs :: Stages(su, devs, reqs, replies) && devs[0] == dev && devs[|replies|] == dev'
  }

  ghost predicate Stages(su: Setup, devs: seq<Dev>, reqs: seq<Request>, replies: seq<Reply>) {
    && |devs| == |replies| + 1 && |replies| <= |reqs|
    && (forall k :: 0 <= k < |devs| ==> |devs[k]| == |su.storages|)
    && (forall k :: 0 <= k < |replies| ==> !reqs[k].Shutdown? && ServedAt(su, devs, reqs[k], replies[k], k))
  }

  ghost predicate ServedAt(su: Setup, devs: seq<Dev>, req: Request, reply: Reply, k: nat)
    requires k + 1 < |devs| && |devs[k]| == |su.storages|
  {
    Serves(su, devs[k], req, devs[k + 1], reply)
  }

  lemma {:induction false} RunServes(su: Setup, dev: Dev, reqs: seq<Request>)
    requires |dev| == |su.storages| && AllValid(dev)
    ensures var (dev', replies) := Run(su, dev, reqs); ServesRun(su, dev, reqs, dev', replies)
    decreases |reqs|
  {
    hide AllValid, Step, Serves;
    if reqs == [] || reqs[0].Shutdown? {
      assert Stages(su, [dev], reqs, []) && [dev][0] == dev;
    } else {
      StepValid(su, dev, reqs[0]);
      StepServes(su, dev, reqs[0]);
      var (dev1, reply) := Step(su, dev, reqs[0]);
      RunServes(su, dev1, reqs[1..]);
      var (dev2, replies) := Run(su, dev1, reqs[1..]);
      var devs :| Stages(su, devs, reqs[1..], replies) && devs[0] == dev1 && devs[|replies|] == dev2;
      OneStage(su, dev, reqs, reply, devs, replies);
      assert ([dev] + devs)[|[reply] + replies|] == dev2;
    }
  }

  lemma OneStage(su: Setup, dev: Dev, reqs: seq<Request>, reply: Reply, devs: seq<Dev>, replies: seq<Reply>)
    requires reqs != [] && !reqs[0].Shutdown? && |dev| == |su.storages| && Stages(su, devs, reqs[1..], replies)
    requires Serves(su, dev, reqs[0], devs[0], reply)
    ensures Stages(su, [dev] + devs, reqs, [reply] + replies)
  {
    hide Serves;
    var all, told := [dev] + devs, [reply] + replies;
    forall k | 0 <= k < |told|
      ensures !reqs[k].Shutdown? && ServedAt(su, all, reqs[k], told[k], k)
    {
      if k > 0 {
        assert ServedAt(su, devs, reqs[1..][k - 1], replies[k - 1], k - 1);
        assert told[k] == replies[k - 1] && all[k] == devs[k - 1] && all[k + 1] == devs[k];
      }
    }
  }

  /** What the adapter asks the actor for is what these requests are served with. */
  lemma AdapterRequests(su: Setup, dev: Dev, i: nat, h: Handle, to: Handle, name: string, toName: string, offset: nat, count: nat, data: Bytes)
    requires |dev| == |su.storages| && AllValid(dev)
    ensures Serves(su, dev, HList(i, h), dev, Listed(ListHandle(su, dev, i, h)))
    ensures Serves(su, dev, HInfo(i, h), dev, Meta(InfoHandle(su, dev, i, h)))
    ensures Serves(su, dev, HRead(i, h, offset, count), dev, Data(ReadHandle(su, dev, i, h, offset, count)))
    ensures var (dev', r) := DeleteHandle(su, dev, i, h); Serves(su, dev, HDelete(i, h), dev', Done(r))
    ensures var (dev', r) := UploadInto(su, dev, i, h, name, |data|, data); Serves(su, dev, HUpload(i, h, name, |data|, data), dev', Meta(r))
    ensures var (dev', r) := MakeDir(su, dev, i, h, name); Serves(su, dev, HMkdir(i, h, name), dev', Meta(r))
    ensures var (dev', r) := RenameHandle(su, dev, i, h, name, to, toName); Serves(su, dev, HRename(i, h, name, to, toName), dev', Meta(r))
  {
    hide Serves, AllValid, ListHandle, InfoHandle, ReadHandle, DeleteHandle, UploadInto, MakeDir, RenameHandle;
    StepServes(su, dev, HList(i, h));
    StepServes(su, dev, HInfo(i, h));
    StepServes(su, dev, HRead(i, h, offset, count));
    StepServes(su, dev, HDelete(i, h));
    StepServes(su, dev, HUpload(i, h, name, |data|, data));
    StepServes(su, dev, HMkdir(i, h, name));
    StepServes(su, dev, HRename(i, h, name, to, toName));
  }
}
