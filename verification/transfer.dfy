/** Recursive transfers: `crates/core/src/ops.rs` and the two path-based transfers of
    `DeviceHandle` (actor.rs:533-591) they are made of.

    A local directory to be pushed is the sequence `read_dir` yields; a local directory being
    pulled into is a map from names to what stands there. */
module Transfer {
  import opened Wrappers
  import opened Paths
  import opened Phones
  import opened PlainActor
  import opened Actor

  const MAX_TREE_DEPTH: nat := 64

  /** What `read_dir` shows. `Odd` is any entry that is not pushed: a link, a special file, or a
      name that is not text. */
  datatype Node = File(data: Bytes) | Folder(items: seq<Item>) | Odd
  datatype Item = Item(name: string, node: Node)

  datatype Tree = Leaf(data: Bytes) | Branch(kids: map<string, Tree>)

  datatype Stats = Stats(files: nat, dirs: nat, bytes: nat, skipped: nat) {
    function Plus(that: Stats): Stats {
      Stats(files + that.files, dirs + that.dirs, bytes + that.bytes, skipped + that.skipped)
    }
  }

  const ONE_DIR := Stats(0, 1, 0, 0)
  const SKIPPED := Stats(0, 0, 0, 1)

  function OneFile(data: Bytes): Stats {
    Stats(1, 0, |data|, 0)
  }

  /** `is_safe_component`. */
  predicate Safe(name: string) {
    name != "" && name != "." && name != ".." && '/' !in name && '\\' !in name && '\0' !in name
  }

  // ---------- what the transfers mean on a device ----------

  /** `DeviceHandle::download_into`. */
  function FetchAt(su: Setup, dev: Dev, path: string): Result<Bytes>
    requires |dev| == |su.storages|
  {
    var target :- Resolve(su, dev, path);
    if target.entry.isDir then Err(WrongKind) else Download(su, dev, target)
  }

  /** `DeviceHandle::upload_new`. */
  function StoreAt(su: Setup, dev: Dev, parentPath: string, name: string, size: nat, stream: Bytes): (Dev, Result<Entry>)
    requires |dev| == |su.storages|
  {
    match Resolve(su, dev, parentPath)
    case Err(e) => (dev, Err(e))
    case Ok(parent) =>
      if !parent.entry.isDir && parent.handle != ROOT then (dev, Err(WrongKind))
      else if '/' in name then (dev, Err(InvalidArgument))
      else UploadInto(su, dev, parent.storageIndex, parent.handle, name, size, stream)
  }

  /** `pull_tree_inner`, into a directory that holds `local`. */
  function Pull(su: Setup, dev: Dev, remote: string, local: map<string, Tree>, depth: nat): (Result<Stats>, map<string, Tree>)
    requires |dev| == |su.storages|
    decreases MAX_TREE_DEPTH + 1 - depth, 1, 0
  {
    if depth > MAX_TREE_DEPTH then (Err(InvalidArgument), local)
    else
      match List(su, dev, remote)
      case Err(e) => (Err(e), local)
      case Ok(entries) => PullEntries(su, dev, remote, entries, ONE_DIR, local, depth)
  }

  function PullEntries(su: Setup, dev: Dev, remote: string, entries: seq<Entry>, stats: Stats, local: map<string, Tree>, depth: nat)
    : (Result<Stats>, map<string, Tree>)
    requires |dev| == |su.storages| && depth <= MAX_TREE_DEPTH
    decreases MAX_TREE_DEPTH + 1 - depth, 0, |entries|
  {
    if entries == [] then (Ok(stats), local)
    else
      var (r, after) := PullEntry(su, dev, remote, entries[0], local, depth);
      if r.Err? then (r, after) else PullEntries(su, dev, remote, entries[1..], stats.Plus(r.value), after, depth)
  }

  /** One entry of a listing. A file never replaces a directory, nor a directory a file. */
  function PullEntry(su: Setup, dev: Dev, remote: string, e: Entry, local: map<string, Tree>,
      depth: nat): (Result<Stats>, map<string, Tree>)
    requires |dev| == |su.storages| && depth <= MAX_TREE_DEPTH
    decreases MAX_TREE_DEPTH + 1 - depth, 0, 0
  {
    if !Safe(e.name) then (Ok(SKIPPED), local)
    else if e.isDir then
      if depth + 1 <= MAX_TREE_DEPTH && e.name in local && local[e.name].Leaf? then (Err(Io), local)
      else
        var under := if e.name in local && local[e.name].Branch? then local[e.name].kids else map[];
        var (r, after) := Pull(su, dev, JoinDevice(remote, e.name), under, depth + 1);
        (r, if depth + 1 <= MAX_TREE_DEPTH then local[e.name := Branch(after)] else local)
    else
      match FetchAt(su, dev, JoinDevice(remote, e.name))
      case Err(error) => (Err(error), local)
      case Ok(data) =>
        if e.name in local && local[e.name].Branch? then (Err(Io), local)
        else (Ok(OneFile(data)), local[e.name := Leaf(data)])
  }

  /** `push_tree`. */
  function Push(su: Setup, dev: Dev, name: string, items: seq<Item>, remoteParent: string): (Dev, Result<Stats>)
    requires |dev| == |su.storages|
  {
    var here := JoinDevice(remoteParent, name);
    var (dev1, made) := MkdirAll(su, dev, here);
    if made.Err? then (dev1, Err(made.error)) else PushContents(su, dev1, items, here, 0, ONE_DIR)
  }

  /** `push_contents_inner`. */
  function PushContents(su: Setup, dev: Dev, items: seq<Item>, here: string, depth: nat, stats: Stats): (out: (Dev, Result<Stats>))
    requires |dev| == |su.storages|
    ensures |out.0| == |dev|
    decreases items, 1
  {
    if depth > MAX_TREE_DEPTH then (dev, Err(InvalidArgument)) else PushItems(su, dev, items, here, depth, stats)
  }

  function PushItems(su: Setup, dev: Dev, items: seq<Item>, here: string, depth: nat, stats: Stats): (out: (Dev, Result<Stats>))
    requires |dev| == |su.storages|
    ensures |out.0| == |dev|
    decreases items, 0
  {
    if items == [] then (dev, Ok(stats))
    else
      var (dev1, r) := PushItem(su, dev, items[0], here, depth, stats);
      if r.Err? then (dev1, r) else PushItems(su, dev1, items[1..], here, depth, r.value)
  }

  function PushItem(su: Setup, dev: Dev, item: Item, here: string, depth: nat, stats: Stats): (out: (Dev, Result<Stats>))
    requires |dev| == |su.storages|
    ensures |out.0| == |dev|
    decreases item, 2
  {
    match item.node
    case Odd => (dev, Ok(stats.Plus(SKIPPED)))
    case Folder(sub) =>
      var below := JoinDevice(here, item.name);
      var (dev1, made) := MkdirAll(su, dev, below);
      if made.Err? then (dev1, Err(made.error)) else PushContents(su, dev1, sub, below, depth + 1, stats.Plus(ONE_DIR))
    case File(data) =>
      var (dev1, stored) := StoreAt(su, dev, here, item.name, |data|, data);
      (dev1, if stored.Err? then Err(stored.error) else Ok(stats.Plus(OneFile(data))))
  }

  // ---------- the transfers, through the cached actor ----------

  method Fetch(a: ActorState, path: string) returns (r: Result<Bytes>)
    requires a.Inv()
    modifies a`clock, a`balks, a.cache
    ensures a.Inv() && |a.dev| == |a.su.storages| && Balked(a.su.phone, old(a.balks), a.balks, r.Err?)
    ensures a.balks == old(a.balks) ==> r == FetchAt(a.su, a.dev, path)
  {
    hide CacheOk, Resolve, Download;
    a.InvIsValid();
    var target := a.ResolvePath(path, false);
    if target.Err? {
      return Err(target.error);
    }
    if target.value.entry.isDir {
      return Err(WrongKind);
    }
    r := a.DownloadInto(target.value);
  }

  method StoreFile(a: ActorState, parentPath: string, name: string, size: nat, stream: Bytes) returns (r: Result<Entry>)
    requires a.Inv()
    modifies a`dev, a`clock, a`balks, a.cache
    ensures |old(a.dev)| == |a.su.storages| && Balked(a.su.phone, old(a.balks), a.balks, r.Err?)
    ensures a.balks == old(a.balks) ==> (a.dev, r) == StoreAt(a.su, old(a.dev), parentPath, name, size, stream)
    ensures r.Ok? ==> a.Inv()
  {
    hide CacheOk, Resolve, UploadInto;
    a.InvIsValid();
    var parent := a.ResolvePath(parentPath, false);
    if parent.Err? {
      return Err(parent.error);
    }
    if !parent.value.entry.isDir && parent.value.handle != ROOT {
      return Err(WrongKind);
    }
    if '/' in name {
      return Err(InvalidArgument);
    }
    r := a.UploadFile(parent.value.storageIndex, parent.value.handle, name, size, stream);
  }

  /** `pull_tree_inner`: what the cached actor hands over is what the phone holds. */
  method PullTree(a: ActorState, remote: string, into: map<string, Tree>, depth: nat) returns (r: Result<Stats>, local: map<string, Tree>)
    requires a.Inv()
    modifies a`clock, a`balks, a.cache
    ensures a.Inv() && |a.dev| == |a.su.storages| && Balked(a.su.phone, old(a.balks), a.balks, r.Err?)
    ensures a.balks == old(a.balks) ==> (r, local) == Pull(a.su, a.dev, remote, into, depth)
    decreases MAX_TREE_DEPTH + 1 - depth, 1
  {
    hide CacheOk, List, PullEntry, Safe;
    a.InvIsValid();
    local := into;
    if depth > MAX_TREE_DEPTH {
      return Err(InvalidArgument), local;
    }
    var entries := a.ListPath(remote, false);
    if entries.Err? {
      return Err(entries.error), local;
    }
    var stats, k := ONE_DIR, 0;
    ghost var goal := Pull(a.su, a.dev, remote, into, depth);
    ghost var es := entries.value;
    assert es[0..] == es;
    while k < |entries.value|
      invariant 0 <= k <= |es| && es == entries.value
      invariant a.Inv() && a.dev == old(a.dev) && a.balks == old(a.balks)
      invariant PullEntries(a.su, a.dev, remote, es[k..], stats, local, depth) == goal
    {
      assert es[k..][0] == entries.value[k] && es[k..][1..] == es[k + 1..];
      var one;
      one, local := PullOne(a, remote, entries.value[k], local, depth);
      if one.Err? {
        return one, local;
      }
      stats := stats.Plus(one.value);
      k := k + 1;
    }
    r := Ok(stats);
  }

  /** The body of its loop. */
  method PullOne(a: ActorState, remote: string, e: Entry, before: map<string, Tree>, depth: nat) returns (r: Result<Stats>, local: map<string, Tree>)
    requires a.Inv() && depth <= MAX_TREE_DEPTH
    modifies a`clock, a`balks, a.cache
    ensures a.Inv() && |a.dev| == |a.su.storages| && Balked(a.su.phone, old(a.balks), a.balks, r.Err?)
    ensures a.balks == old(a.balks) ==> (r, local) == PullEntry(a.su, a.dev, remote, e, before, depth)
    decreases MAX_TREE_DEPTH + 1 - depth, 0
  {
    hide CacheOk, List, FetchAt, Pull, Safe;
    a.InvIsValid();
    local := before;
    if !Safe(e.name) {
      return Ok(SKIPPED), local;
    }
    if e.isDir {
      if depth + 1 <= MAX_TREE_DEPTH && e.name in local && local[e.name].Leaf? {
        return Err(Io), local;
      }
      var under := if e.name in local && local[e.name].Branch? then local[e.name].kids else map[];
      var after;
      r, after := PullTree(a, JoinDevice(remote, e.name), under, depth + 1);
      if depth + 1 <= MAX_TREE_DEPTH {
        local := local[e.name := Branch(after)];
      }
      return;
    }
    var data := Fetch(a, JoinDevice(remote, e.name));
    if data.Err? {
      return Err(data.error), local;
    }
    if e.name in local && local[e.name].Branch? {
      return Err(Io), local;
    }
    local := local[e.name := Leaf(data.value)];
    r := Ok(OneFile(data.value));
  }

  /** `push_tree`. */
  method PushTree(a: ActorState, name: string, items: seq<Item>, remoteParent: string) returns (r: Result<Stats>)
    requires a.Inv()
    modifies a`dev, a`clock, a`balks, a.cache
    ensures |old(a.dev)| == |a.su.storages| && Balked(a.su.phone, old(a.balks), a.balks, r.Err?)
    ensures a.balks == old(a.balks) ==> (a.dev, r) == Push(a.su, old(a.dev), name, items, remoteParent)
    ensures r.Ok? ==> a.Inv()
  {
    hide CacheOk, MkdirAll;
    a.InvIsValid();
    var here := JoinDevice(remoteParent, name);
    var made := a.MkdirPath(here);
    if made.Err? {
      return Err(made.error);
    }
    r := PushInto(a, items, here, 0, ONE_DIR);
  }

  /** `push_contents_inner`. */
  method PushInto(a: ActorState, items: seq<Item>, here: string, depth: nat, before: Stats) returns (r: Result<Stats>)
    requires a.Inv()
    modifies a`dev, a`clock, a`balks, a.cache
    ensures |old(a.dev)| == |a.su.storages| && Balked(a.su.phone, old(a.balks), a.balks, r.Err?)
    ensures a.balks == old(a.balks) ==> (a.dev, r) == PushContents(a.su, old(a.dev), items, here, depth, before)
    ensures r.Ok? ==> a.Inv()
    decreases items
  {
    hide CacheOk, MkdirAll, StoreAt;
    a.InvIsValid();
    if depth > MAX_TREE_DEPTH {
      return Err(InvalidArgument);
    }
    var stats, k := before, 0;
    ghost var goal := PushContents(a.su, a.dev, items, here, depth, before);
    assert items[0..] == items;
    while k < |items|
      invariant 0 <= k <= |items| && a.Inv() && |a.dev| == |a.su.storages| && a.balks == old(a.balks)
      invariant PushItems(a.su, a.dev, items[k..], here, depth, stats) == goal
    {
      assert items[k..][0] == items[k] && items[k..][1..] == items[k + 1..];
      match items[k].node {
        case Odd =>
          stats := stats.Plus(SKIPPED);
        case Folder(sub) =>
          var below := JoinDevice(here, items[k].name);
          var made := a.MkdirPath(below);
          if made.Err? {
            return Err(made.error);
          }
          a.InvIsValid();
          var pushed := PushInto(a, sub, below, depth + 1, stats.Plus(ONE_DIR));
          if pushed.Err? {
            return pushed;
          }
          stats := pushed.value;
        case File(data) =>
          var stored := StoreFile(a, here, items[k].name, |data|, data);
          if stored.Err? {
            return Err(stored.error);
          }
          stats := stats.Plus(OneFile(data));
      }
      a.InvIsValid();
      k := k + 1;
    }
    r := Ok(stats);
  }
}
