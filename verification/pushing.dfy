/** What `push_tree` (ops.rs:168-263) leaves on any device, whatever stands at the target already. */
module Pushing {
  import opened Wrappers
  import opened Paths
  import opened Phones
  import opened PlainActor
  import opened Transfer
  import Requests
  import A = Answers
  import R = RoundTrip

  /** The files of a tree, in the order of the walk. */
  function Files(items: seq<Item>): seq<(string, Bytes)>
    decreases items
  {
    if items == [] then [] else FilesOf(items[0]) + Files(items[1..])
  }

  function FilesOf(item: Item): seq<(string, Bytes)>
    decreases item, 1
  {
    match item.node
    case File(data) => [(item.name, data)]
    case Folder(items) => Files(items)
    case Odd => []
  }

  /** An object of a storage, by its handle. */
  datatype Spot = Spot(storage: nat, handle: Handle)

  ghost predicate Kept(dev: Dev, dev': Dev) {
    && |dev| == |dev'|
    && forall i, h :: 0 <= i < |dev| && h in dev[i].objects ==> h in dev'[i].objects && dev'[i].objects[h] == dev[i].objects[h]
  }

  ghost predicate IsNew(dev: Dev, dev': Dev, x: Spot) {
    x.storage < |dev| == |dev'| && x.handle in dev'[x.storage].objects && x.handle !in dev[x.storage].objects
  }

  /** Nothing that was there has changed, and the new files are these, one object each. */
  ghost predicate Arrived(dev: Dev, dev': Dev, xs: seq<Spot>, files: seq<(string, Bytes)>) {
    && Kept(dev, dev') && |xs| == |files|
    && (forall j, k :: 0 <= j < k < |xs| ==> xs[j] != xs[k])
    && (forall k :: 0 <= k < |xs| ==> IsNew(dev, dev', xs[k]) && Is(dev', xs[k], files[k]))
    && (forall x :: IsNew(dev, dev', x) && !dev'[x.storage].objects[x.handle].isDir ==> x in xs)
  }

  ghost predicate Is(dev: Dev, x: Spot, file: (string, Bytes)) {
    x.storage < |dev| && x.handle in dev[x.storage].objects
    && var o := dev[x.storage].objects[x.handle]; o.name == file.0 && !o.isDir && o.data == file.1
  }

  lemma NothingArrived(dev: Dev)
    ensures Arrived(dev, dev, [], [])
  {
  }

  lemma ArrivedTwice(a: Dev, b: Dev, c: Dev, xs: seq<Spot>, ys: seq<Spot>, f: seq<(string, Bytes)>, g: seq<(string, Bytes)>)
    requires Arrived(a, b, xs, f) && Arrived(b, c, ys, g)
    ensures Arrived(a, c, xs + ys, f + g)
  {
    hide Is;
    forall k | 0 <= k < |xs|
      ensures IsNew(a, c, xs[k]) && Is(c, xs[k], f[k])
    {
      StillIs(b, c, xs[k], f[k]);
    }
    forall k | 0 <= k < |ys|
      ensures IsNew(a, c, ys[k])
    {
      assert IsNew(b, c, ys[k]);
    }
    forall x | IsNew(a, c, x) && !c[x.storage].objects[x.handle].isDir
      ensures x in xs + ys
    {
      assert IsNew(b, c, x) || IsNew(a, b, x);
      if IsNew(a, b, x) {
        assert x in xs;
      } else {
        assert x in ys;
      }
    }
    forall j, k | 0 <= j < k < |xs + ys|
      ensures (xs + ys)[j] != (xs + ys)[k]
    {
      if j < |xs| <= k {
        assert IsNew(a, b, xs[j]) && IsNew(b, c, ys[k - |xs|]);
      }
    }
  }

  lemma StillIs(b: Dev, c: Dev, x: Spot, file: (string, Bytes))
    requires Kept(b, c) && Is(b, x, file)
    ensures Is(c, x, file)
  {
  }

  // ---------- the steps of a push ----------

  /** One store of the device replaced. */
  lemma OneStoreKept(dev: Dev, i: nat, t: Store, xs: seq<Spot>, files: seq<(string, Bytes)>)
    requires i < |dev| && (forall h :: h in dev[i].objects ==> h in t.objects && t.objects[h] == dev[i].objects[h])
    requires |xs| == |files| <= 1
    requires forall k :: 0 <= k < |xs| ==>
        xs[k].storage == i && xs[k].handle in t.objects && xs[k].handle !in dev[i].objects && Is(dev[i := t], xs[k], files[k])
    requires forall h :: h in t.objects && h !in dev[i].objects && !t.objects[h].isDir ==> Spot(i, h) in xs
    ensures Arrived(dev, dev[i := t], xs, files)
  {
  }

  lemma {:induction false} MakesDirectories(ph: Phone, s: Store, d: Handle, names: seq<string>, t: Store, r: Result<Handle>)
    requires A.MakesAll(ph, s, d, names, t, r)
    ensures forall h :: h in s.objects ==> h in t.objects && t.objects[h] == s.objects[h]
    ensures forall h :: h in t.objects && h !in s.objects ==> t.objects[h].isDir
    decreases |names|
  {
    hide A.FirstChild, A.NoChild;
    if names != [] {
      if c :| A.FirstChild(ph, s, d, names[0], c)
              && if IsDirectory(s, c) then A.MakesAll(ph, s, c, names[1..], t, r) else t == s && r == Err(WrongKind) {
        if IsDirectory(s, c) {
          MakesDirectories(ph, s, c, names[1..], t, r);
        }
      }
    }
  }

  lemma FolderMade(su: Setup, dev: Dev, path: string)
    requires |dev| == |su.storages| && AllValid(dev)
    ensures var dev' := MkdirAll(su, dev, path).0; |dev'| == |dev| && AllValid(dev') && Arrived(dev, dev', [], [])
  {
    hide Valid, MkdirAll, A.MakesAll, Arrived, A.AddressOf;
    var (dev', r) := MkdirAll(su, dev, path);
    MadeValid(su, dev, path);
    A.MkdirAllMakes(su, dev, path);
    NothingArrived(dev);
    var a := A.AddressOf(su, path);
    if a.Inside? {
      MakesDirectories(su.phone, dev[a.storage], ROOT, a.names, dev'[a.storage], if r.Ok? then Ok(r.value.handle) else Err(r.error));
      OneStoreKept(dev, a.storage, dev'[a.storage], [], []);
    }
  }

  lemma MadeValid(su: Setup, dev: Dev, path: string)
    requires |dev| == |su.storages| && AllValid(dev)
    ensures var dev' := MkdirAll(su, dev, path).0; |dev'| == |dev| && AllValid(dev')
  {
    hide Valid, MkdirAll;
    Requests.StepValid(su, dev, Requests.MkdirAll(path));
  }

  /** A file is stored as a new object of its name and bytes, beside whatever has that name already,
      in the directory its parent's path resolves to. */
  lemma FileStored(su: Setup, dev: Dev, parent: string, name: string, data: Bytes) returns (x: Spot, d: Handle)
    requires |dev| == |su.storages| && AllValid(dev)
    ensures var (dev', r) := StoreAt(su, dev, parent, name, |data|, data);
            && |dev'| == |dev| && AllValid(dev')
            && (r.Ok? ==> Arrived(dev, dev', [x], [(name, data)])
                          && IsNew(dev, dev', x) && dev'[x.storage].objects[x.handle] == Object(d, name, false, data)
                          && Resolve(su, dev, parent).Ok? && Resolve(su, dev, parent).value.handle == d
                          && Resolve(su, dev, parent).value.storageIndex == x.storage)
  {
    hide Valid, Resolve, UploadReport, Arrived;
    x, d := Spot(0, ROOT), ROOT;
    var (dev', r) := StoreAt(su, dev, parent, name, |data|, data);
    var p := Resolve(su, dev, parent);
    if p.Ok? && p.value.storageIndex < |dev| {
      var i := p.value.storageIndex;
      d := p.value.handle;
      StoredValid(su.phone, dev[i], d, name, data);
      if r.Ok? {
        x := Spot(i, dev[i].next);
        OneStoreKept(dev, i, dev'[i], [x], [(name, data)]);
      }
    }
  }

  lemma StoredValid(ph: Phone, s: Store, d: Handle, name: string, data: Bytes)
    requires Valid(s)
    ensures var (t, r) := UploadReport(ph, s, d, name, |data|, data);
            Valid(t) && s.next !in s.objects && (r.Ok? ==> t == Add(s, Object(d, name, false, data)))
  {
    UploadValid(ph, s, d, name, |data|, data);
    ReportEnds(ph, s, d, name, |data|, data);
  }

  // ---------- whole pushes ----------

  /** Pushing items to any directory of any device: when it succeeds every item has been counted, its
      files are new objects with their names and bytes, and nothing that was there has changed. */
  lemma {:induction false} PushArrives(su: Setup, dev: Dev, items: seq<Item>, here: string, depth: nat, stats: Stats) returns (xs: seq<Spot>)
    requires |dev| == |su.storages| && AllValid(dev)
    ensures var (dev', r) := PushItems(su, dev, items, here, depth, stats);
            && AllValid(dev') && |dev'| == |dev|
            && (r.Ok? ==> r.value == stats.Plus(R.Tally(items)) && Arrived(dev, dev', xs, Files(items)))
    decreases items, 0
  {
    hide AllValid, Arrived, PushItem, R.ItemStats, FilesOf;
    xs := [];
    if items == [] {
      NothingArrived(dev);
    } else {
      var (dev1, r1) := PushItem(su, dev, items[0], here, depth, stats);
      var first := ItemArrives(su, dev, items[0], here, depth, stats);
      if r1.Ok? {
        var rest := PushArrives(su, dev1, items[1..], here, depth, r1.value);
        xs := first + rest;
        if PushItems(su, dev1, items[1..], here, depth, r1.value).1.Ok? {
          ArrivedTwice(dev, dev1, PushItems(su, dev1, items[1..], here, depth, r1.value).0, first, rest, FilesOf(items[0]), Files(items[1..]));
        }
      }
    }
  }

  lemma {:induction false} ItemArrives(su: Setup, dev: Dev, item: Item, here: string, depth: nat, stats: Stats) returns (xs: seq<Spot>)
    requires |dev| == |su.storages| && AllValid(dev)
    ensures var (dev', r) := PushItem(su, dev, item, here, depth, stats);
            && AllValid(dev') && |dev'| == |dev|
            && (r.Ok? ==> r.value == stats.Plus(R.ItemStats(item.node)) && Arrived(dev, dev', xs, FilesOf(item)))
    decreases item, 1
  {
    hide AllValid, Arrived, MkdirAll, StoreAt, JoinDevice, R.Tally, Files, PushItems;
    xs := [];
    match item.node {
      case Odd =>
        NothingArrived(dev);
      case File(data) =>
        var x, d := FileStored(su, dev, here, item.name, data);
        xs := [x];
        assert PushItem(su, dev, item, here, depth, stats).0 == StoreAt(su, dev, here, item.name, |data|, data).0;
      case Folder(sub) =>
        var below := JoinDevice(here, item.name);
        var (dev1, made) := MkdirAll(su, dev, below);
        FolderMade(su, dev, below);
        if made.Ok? && depth + 1 <= MAX_TREE_DEPTH {
          xs := PushArrives(su, dev1, sub, below, depth + 1, stats.Plus(ONE_DIR));
          var (dev2, r) := PushItems(su, dev1, sub, below, depth + 1, stats.Plus(ONE_DIR));
          assert PushItem(su, dev, item, here, depth, stats) == (dev2, r);
          if r.Ok? {
            ArrivedTwice(dev, dev1, dev2, [], xs, [], Files(sub));
            assert [] + xs == xs && [] + Files(sub) == Files(sub);
          }
        } else if made.Ok? {
          assert PushItem(su, dev, item, here, depth, stats) == (dev1, Err(InvalidArgument));
        } else {
          assert PushItem(su, dev, item, here, depth, stats).0 == dev1;
        }
    }
  }

  /** The same for a whole directory. */
  lemma PushTreeArrives(su: Setup, dev: Dev, name: string, items: seq<Item>, remoteParent: string) returns (xs: seq<Spot>)
    requires |dev| == |su.storages| && AllValid(dev)
    ensures var (dev', r) := Push(su, dev, name, items, remoteParent);
            r.Ok? ==> r.value == ONE_DIR.Plus(R.Tally(items)) && Arrived(dev, dev', xs, Files(items))
  {
    hide AllValid, Arrived, MkdirAll, JoinDevice, R.Tally, Files, PushItems;
    var here := JoinDevice(remoteParent, name);
    var (dev1, made) := MkdirAll(su, dev, here);
    FolderMade(su, dev, here);
    xs := [];
    if made.Ok? {
      xs := PushArrives(su, dev1, items, here, 0, ONE_DIR);
      var (dev2, r) := PushItems(su, dev1, items, here, 0, ONE_DIR);
      if r.Ok? {
        ArrivedTwice(dev, dev1, dev2, [], xs, [], Files(items));
        assert [] + xs == xs && [] + Files(items) == Files(items);
      }
    }
  }
}
