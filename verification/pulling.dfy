/** What `pull_tree` (ops.rs:94-156) leaves on the local disk, into whatever stands there: name by
    name, and without following its loop. */
module Pulling {
  import opened Wrappers
  import opened Paths
  import opened Phones
  import opened PlainActor
  import opened Transfer

  // ---------- the tree a pull leaves ----------

  function Shown(su: Setup, dev: Dev, remote: string): seq<Entry>
    requires |dev| == |su.storages|
  {
    match List(su, dev, remote) case Ok(es) => es case Err(_) => []
  }

  function BytesAt(su: Setup, dev: Dev, path: string): Bytes
    requires |dev| == |su.storages|
  {
    match FetchAt(su, dev, path) case Ok(data) => data case Err(_) => []
  }

  ghost predicate Lists(es: seq<Entry>, n: string, isDir: bool) {
    Safe(n) && exists e :: e in es && e.name == n && e.isDir == isDir
  }

  function SafeNames(es: seq<Entry>): set<string> {
    set e | e in es && Safe(e.name) :: e.name
  }

  /** What stands below a name, if that is a directory. */
  function Inside(local: map<string, Tree>, n: string): map<string, Tree> {
    if n in local && local[n].Branch? then local[n].kids else map[]
  }

  /** Files listed have the bytes their paths give, directories listed are merged into what stands
      there, and every other name is left alone. */
  ghost function Merged(su: Setup, dev: Dev, remote: string, local: map<string, Tree>, depth: nat): map<string, Tree>
    requires |dev| == |su.storages|
    decreases MAX_TREE_DEPTH + 1 - depth, 2
  {
    if depth > MAX_TREE_DEPTH then local else MergedWith(su, dev, remote, Shown(su, dev, remote), local, depth)
  }

  ghost function MergedWith(su: Setup, dev: Dev, remote: string, es: seq<Entry>, local: map<string, Tree>, depth: nat): map<string, Tree>
    requires |dev| == |su.storages| && depth <= MAX_TREE_DEPTH
    decreases MAX_TREE_DEPTH + 1 - depth, 1
  {
    map n | n in local.Keys + SafeNames(es) :: Stands(su, dev, remote, es, local, depth, n)
  }

  ghost function Stands(su: Setup, dev: Dev, remote: string, es: seq<Entry>, local: map<string, Tree>, depth: nat, n: string): Tree
    requires |dev| == |su.storages| && depth <= MAX_TREE_DEPTH
    decreases MAX_TREE_DEPTH + 1 - depth, 0
  {
    if Lists(es, n, true) then Branch(Merged(su, dev, JoinDevice(remote, n), Inside(local, n), depth + 1))
    else if Lists(es, n, false) then Leaf(BytesAt(su, dev, JoinDevice(remote, n)))
    else if n in local then local[n] else Leaf([])
  }

  /** Directories, files, bytes and skipped entries, each as often as it is listed. */
  function Counted(su: Setup, dev: Dev, remote: string, depth: nat): Stats
    requires |dev| == |su.storages|
    decreases MAX_TREE_DEPTH + 1 - depth, 1, 0
  {
    if depth > MAX_TREE_DEPTH then ONE_DIR else ONE_DIR.Plus(CountedAll(su, dev, remote, Shown(su, dev, remote), depth))
  }

  function CountedAll(su: Setup, dev: Dev, remote: string, es: seq<Entry>, depth: nat): Stats
    requires |dev| == |su.storages| && depth <= MAX_TREE_DEPTH
    decreases MAX_TREE_DEPTH + 1 - depth, 0, |es|
  {
    if es == [] then Stats(0, 0, 0, 0)
    else
      var rest := CountedAll(su, dev, remote, es[1..], depth);
      if !Safe(es[0].name) then SKIPPED.Plus(rest)
      else if es[0].isDir then Counted(su, dev, JoinDevice(remote, es[0].name), depth + 1).Plus(rest)
      else OneFile(BytesAt(su, dev, JoinDevice(remote, es[0].name))).Plus(rest)
  }

  // ---------- when a pull succeeds ----------

  /** Nothing lies too deep, every directory lists, every file arrives, and no name is a directory on
      one side and a file on the other, or both on the phone. */
  ghost predicate Pullable(su: Setup, dev: Dev, remote: string, local: map<string, Tree>, depth: nat)
    requires |dev| == |su.storages|
    decreases MAX_TREE_DEPTH + 1 - depth, 2
  {
    depth <= MAX_TREE_DEPTH && List(su, dev, remote).Ok? && AllPullable(su, dev, remote, Shown(su, dev, remote), local, depth)
  }

  ghost predicate AllPullable(su: Setup, dev: Dev, remote: string, es: seq<Entry>, local: map<string, Tree>, depth: nat)
    requires |dev| == |su.storages| && depth <= MAX_TREE_DEPTH
    decreases MAX_TREE_DEPTH + 1 - depth, 1
  {
    forall n :: (Lists(es, n, true) ==> FolderPullable(su, dev, remote, es, local, depth, n))
                && (Lists(es, n, false) ==> FilePullable(su, dev, remote, es, local, n))
  }

  ghost predicate FolderPullable(su: Setup, dev: Dev, remote: string, es: seq<Entry>, local: map<string, Tree>, depth: nat, n: string)
    requires |dev| == |su.storages| && depth <= MAX_TREE_DEPTH
    decreases MAX_TREE_DEPTH + 1 - depth, 0
  {
    && (n in local ==> local[n].Branch?) && !Lists(es, n, false)
    && Pullable(su, dev, JoinDevice(remote, n), Inside(local, n), depth + 1)
  }

  ghost predicate FilePullable(su: Setup, dev: Dev, remote: string, es: seq<Entry>, local: map<string, Tree>, n: string)
    requires |dev| == |su.storages|
  {
    (n in local ==> local[n].Leaf?) && !Lists(es, n, true) && FetchAt(su, dev, JoinDevice(remote, n)).Ok?
  }

  // ---------- pulling twice ----------

  /** A pull into what the same pull left changes nothing. */
  lemma {:induction false} MergedTwice(su: Setup, dev: Dev, remote: string, local: map<string, Tree>, depth: nat)
    requires |dev| == |su.storages| && Pullable(su, dev, remote, local, depth)
    ensures var merged := Merged(su, dev, remote, local, depth);
            Pullable(su, dev, remote, merged, depth) && Merged(su, dev, remote, merged, depth) == merged
    decreases MAX_TREE_DEPTH + 1 - depth
  {
    hide List, FetchAt, Safe, JoinDevice, Pullable, Merged;
    PullableIs(su, dev, remote, local, depth);
    var es, merged := Shown(su, dev, remote), Merged(su, dev, remote, local, depth);
    forall n
      ensures Lists(es, n, true) ==> FolderPullable(su, dev, remote, es, merged, depth, n)
      ensures Lists(es, n, false) ==> FilePullable(su, dev, remote, es, merged, n)
      ensures n in merged ==> Stands(su, dev, remote, es, merged, depth, n) == merged[n]
    {
      ListedNames(es, n);
      if Lists(es, n, true) {
        assert FolderPullable(su, dev, remote, es, local, depth, n);
        MergedTwice(su, dev, JoinDevice(remote, n), Inside(local, n), depth + 1);
      } else if Lists(es, n, false) {
        assert FilePullable(su, dev, remote, es, local, n);
      }
    }
    PullableIs(su, dev, remote, merged, depth);
    assert merged.Keys + SafeNames(es) == merged.Keys;
  }

  lemma PullableIs(su: Setup, dev: Dev, remote: string, local: map<string, Tree>, depth: nat)
    requires |dev| == |su.storages|
    ensures Pullable(su, dev, remote, local, depth) <==>
        depth <= MAX_TREE_DEPTH && List(su, dev, remote).Ok? && AllPullable(su, dev, remote, Shown(su, dev, remote), local, depth)
    ensures depth <= MAX_TREE_DEPTH ==> Merged(su, dev, remote, local, depth) == MergedWith(su, dev, remote, Shown(su, dev, remote), local, depth)
  {
  }

  lemma ListedNames(es: seq<Entry>, n: string)
    ensures n in SafeNames(es) <==> Lists(es, n, true) || Lists(es, n, false)
  {
    hide Safe;
  }

  // ---------- one entry after the other ----------

  lemma ListsCons(es: seq<Entry>, n: string, isDir: bool)
    requires es != []
    ensures Lists(es, n, isDir) <==> (Safe(n) && es[0].name == n && es[0].isDir == isDir) || Lists(es[1..], n, isDir)
  {
    hide Safe;
    assert es == [es[0]] + es[1..];
  }

  /** The other names of a listing, once its first entry is dealt with. */
  lemma OtherNames(su: Setup, dev: Dev, remote: string, es: seq<Entry>, local: map<string, Tree>, local1: map<string, Tree>, depth: nat, m: string)
    requires |dev| == |su.storages| && depth <= MAX_TREE_DEPTH && es != [] && (Safe(es[0].name) ==> m != es[0].name)
    requires (m in local1 <==> m in local) && (m in local ==> local1[m] == local[m])
    ensures Lists(es, m, true) == Lists(es[1..], m, true) && Lists(es, m, false) == Lists(es[1..], m, false)
    ensures FolderPullable(su, dev, remote, es, local, depth, m) == FolderPullable(su, dev, remote, es[1..], local1, depth, m)
    ensures FilePullable(su, dev, remote, es, local, m) == FilePullable(su, dev, remote, es[1..], local1, m)
    ensures Stands(su, dev, remote, es, local, depth, m) == Stands(su, dev, remote, es[1..], local1, depth, m)
  {
    hide Lists, Safe, Pullable, Merged, FetchAt, JoinDevice;
    ListsConsBoth(es, m);
  }

  lemma ListsConsBoth(es: seq<Entry>, m: string)
    requires es != [] && (Safe(es[0].name) ==> m != es[0].name)
    ensures Lists(es, m, true) == Lists(es[1..], m, true) && Lists(es, m, false) == Lists(es[1..], m, false)
  {
    ListsCons(es, m, true);
    ListsCons(es, m, false);
  }

  lemma SafeNamesCons(es: seq<Entry>)
    requires es != []
    ensures SafeNames(es) == SafeNames(es[1..]) + if Safe(es[0].name) then {es[0].name} else {}
  {
    hide Safe;
    assert es == [es[0]] + es[1..];
  }

  /** A first entry with an unsafe name is passed over. */
  lemma FirstUnsafe(su: Setup, dev: Dev, remote: string, es: seq<Entry>, local: map<string, Tree>, depth: nat)
    requires |dev| == |su.storages| && depth <= MAX_TREE_DEPTH && es != [] && !Safe(es[0].name)
    ensures AllPullable(su, dev, remote, es, local, depth) <==> AllPullable(su, dev, remote, es[1..], local, depth)
    ensures MergedWith(su, dev, remote, es, local, depth) == MergedWith(su, dev, remote, es[1..], local, depth)
  {
    hide Lists, Safe, FolderPullable, FilePullable, Stands, SafeNames;
    SafeNamesCons(es);
    forall m
      ensures Lists(es, m, true) == Lists(es[1..], m, true) && Lists(es, m, false) == Lists(es[1..], m, false)
      ensures FolderPullable(su, dev, remote, es, local, depth, m) == FolderPullable(su, dev, remote, es[1..], local, depth, m)
      ensures FilePullable(su, dev, remote, es, local, m) == FilePullable(su, dev, remote, es[1..], local, m)
      ensures Stands(su, dev, remote, es, local, depth, m) == Stands(su, dev, remote, es[1..], local, depth, m)
    {
      OtherNames(su, dev, remote, es, local, local, depth, m);
    }
  }

  /** A first entry that is a directory is merged, and merging it again changes nothing. */
  lemma FirstFolder(su: Setup, dev: Dev, remote: string, es: seq<Entry>, local: map<string, Tree>, depth: nat)
    requires |dev| == |su.storages| && depth <= MAX_TREE_DEPTH && es != [] && Safe(es[0].name) && es[0].isDir
    ensures var n := es[0].name;
            var sub, under := JoinDevice(remote, n), Inside(local, n);
            var local1 := local[n := Branch(Merged(su, dev, sub, under, depth + 1))];
            && (AllPullable(su, dev, remote, es, local, depth) <==>
                  (n in local ==> local[n].Branch?) && Pullable(su, dev, sub, under, depth + 1)
                  && AllPullable(su, dev, remote, es[1..], local1, depth))
            && (AllPullable(su, dev, remote, es, local, depth) ==>
                  MergedWith(su, dev, remote, es[1..], local1, depth) == MergedWith(su, dev, remote, es, local, depth))
  {
    hide Safe, Pullable, Merged, FetchAt, JoinDevice, Lists, SafeNames, FolderPullable, FilePullable, Stands;
    var n, rest := es[0].name, es[1..];
    var sub, under := JoinDevice(remote, n), Inside(local, n);
    var local1 := local[n := Branch(Merged(su, dev, sub, under, depth + 1))];
    SafeNamesCons(es);
    forall m | m != n
      ensures Lists(es, m, true) == Lists(rest, m, true) && Lists(es, m, false) == Lists(rest, m, false)
      ensures FolderPullable(su, dev, remote, es, local, depth, m) == FolderPullable(su, dev, remote, rest, local1, depth, m)
      ensures FilePullable(su, dev, remote, es, local, m) == FilePullable(su, dev, remote, rest, local1, m)
      ensures Stands(su, dev, remote, es, local, depth, m) == Stands(su, dev, remote, rest, local1, depth, m)
    {
      OtherNames(su, dev, remote, es, local, local1, depth, m);
    }
    FirstFolderName(su, dev, remote, es, local, depth);
  }

  lemma FirstFolderName(su: Setup, dev: Dev, remote: string, es: seq<Entry>, local: map<string, Tree>, depth: nat)
    requires |dev| == |su.storages| && depth <= MAX_TREE_DEPTH && es != [] && Safe(es[0].name) && es[0].isDir
    ensures var n, rest := es[0].name, es[1..];
            var sub, under := JoinDevice(remote, n), Inside(local, n);
            var local1 := local[n := Branch(Merged(su, dev, sub, under, depth + 1))];
            var here := (n in local ==> local[n].Branch?) && Pullable(su, dev, sub, under, depth + 1);
            && Lists(es, n, true)
            && (FolderPullable(su, dev, remote, es, local, depth, n) <==> here && !Lists(rest, n, false))
            && (Lists(es, n, false) <==> Lists(rest, n, false))
            && !FilePullable(su, dev, remote, rest, local1, n)
            && (here && !Lists(rest, n, false) ==> FolderPullable(su, dev, remote, rest, local1, depth, n))
            && (here && !Lists(rest, n, false) ==>
                  Stands(su, dev, remote, rest, local1, depth, n) == Stands(su, dev, remote, es, local, depth, n))
  {
    hide Safe, Pullable, Merged, FetchAt, JoinDevice, Lists;
    var n := es[0].name;
    ListsCons(es, n, true);
    ListsCons(es, n, false);
    if Pullable(su, dev, JoinDevice(remote, n), Inside(local, n), depth + 1) {
      MergedTwice(su, dev, JoinDevice(remote, n), Inside(local, n), depth + 1);
    }
  }

  /** A first entry that is a file takes its place, whatever file stood there. */
  lemma FirstFile(su: Setup, dev: Dev, remote: string, es: seq<Entry>, local: map<string, Tree>, depth: nat)
    requires |dev| == |su.storages| && depth <= MAX_TREE_DEPTH && es != [] && Safe(es[0].name) && !es[0].isDir
    ensures var n := es[0].name;
            var path := JoinDevice(remote, n);
            var local1 := local[n := Leaf(BytesAt(su, dev, path))];
            && (AllPullable(su, dev, remote, es, local, depth) <==>
                  (n in local ==> local[n].Leaf?) && FetchAt(su, dev, path).Ok?
                  && AllPullable(su, dev, remote, es[1..], local1, depth))
            && (AllPullable(su, dev, remote, es, local, depth) ==>
                  MergedWith(su, dev, remote, es[1..], local1, depth) == MergedWith(su, dev, remote, es, local, depth))
  {
    hide Safe, Pullable, Merged, FetchAt, JoinDevice, Lists, SafeNames, FolderPullable, FilePullable, Stands, BytesAt;
    var n, rest := es[0].name, es[1..];
    var local1 := local[n := Leaf(BytesAt(su, dev, JoinDevice(remote, n)))];
    SafeNamesCons(es);
    forall m | m != n
      ensures Lists(es, m, true) == Lists(rest, m, true) && Lists(es, m, false) == Lists(rest, m, false)
      ensures FolderPullable(su, dev, remote, es, local, depth, m) == FolderPullable(su, dev, remote, rest, local1, depth, m)
      ensures FilePullable(su, dev, remote, es, local, m) == FilePullable(su, dev, remote, rest, local1, m)
      ensures Stands(su, dev, remote, es, local, depth, m) == Stands(su, dev, remote, rest, local1, depth, m)
    {
      OtherNames(su, dev, remote, es, local, local1, depth, m);
    }
    FirstFileName(su, dev, remote, es, local, depth);
  }

  lemma FirstFileName(su: Setup, dev: Dev, remote: string, es: seq<Entry>, local: map<string, Tree>, depth: nat)
    requires |dev| == |su.storages| && depth <= MAX_TREE_DEPTH && es != [] && Safe(es[0].name) && !es[0].isDir
    ensures var n, rest := es[0].name, es[1..];
            var path := JoinDevice(remote, n);
            var local1 := local[n := Leaf(BytesAt(su, dev, path))];
            var here := (n in local ==> local[n].Leaf?) && FetchAt(su, dev, path).Ok?;
            && Lists(es, n, false)
            && (FilePullable(su, dev, remote, es, local, n) <==> here && !Lists(rest, n, true))
            && (Lists(es, n, true) <==> Lists(rest, n, true))
            && !FolderPullable(su, dev, remote, rest, local1, depth, n)
            && (here && !Lists(rest, n, true) ==> FilePullable(su, dev, remote, rest, local1, n))
            && (here && !Lists(rest, n, true) ==>
                  Stands(su, dev, remote, rest, local1, depth, n) == Stands(su, dev, remote, es, local, depth, n))
  {
    hide Safe, Pullable, Merged, FetchAt, JoinDevice, Lists, BytesAt;
    var n := es[0].name;
    ListsCons(es, n, true);
    ListsCons(es, n, false);
  }

  // ---------- the theorem ----------

  /** Pulling any remote directory into any local one: exactly when it succeeds, and then exactly
      what stands there and what was counted. */
  lemma {:induction false} PullIs(su: Setup, dev: Dev, remote: string, local: map<string, Tree>, depth: nat)
    requires |dev| == |su.storages|
    ensures var (r, after) := Pull(su, dev, remote, local, depth);
            && (r.Ok? <==> Pullable(su, dev, remote, local, depth))
            && (r.Ok? ==> after == Merged(su, dev, remote, local, depth) && r.value == Counted(su, dev, remote, depth))
    decreases MAX_TREE_DEPTH + 1 - depth, 1, 0
  {
    hide List, AllPullable, MergedWith, PullEntries, CountedAll;
    PullableIs(su, dev, remote, local, depth);
    if depth <= MAX_TREE_DEPTH && List(su, dev, remote).Ok? {
      PullEntriesIs(su, dev, remote, Shown(su, dev, remote), ONE_DIR, local, depth);
    }
  }

  lemma {:induction false} PullEntriesIs(su: Setup, dev: Dev, remote: string, es: seq<Entry>, stats: Stats, local: map<string, Tree>, depth: nat)
    requires |dev| == |su.storages| && depth <= MAX_TREE_DEPTH
    ensures var (r, after) := PullEntries(su, dev, remote, es, stats, local, depth);
            && (r.Ok? <==> AllPullable(su, dev, remote, es, local, depth))
            && (r.Ok? ==> after == MergedWith(su, dev, remote, es, local, depth) && r.value == stats.Plus(CountedAll(su, dev, remote, es, depth)))
    decreases MAX_TREE_DEPTH + 1 - depth, 0, |es|
  {
    hide List, FetchAt, Safe, JoinDevice, Pull, Pullable, Merged, AllPullable, MergedWith, Counted;
    if es == [] {
      NothingListed(su, dev, remote, local, depth);
    } else {
      var n := es[0].name;
      var path := JoinDevice(remote, n);
      var (one, local1) := PullEntry(su, dev, remote, es[0], local, depth);
      if !Safe(n) {
        FirstUnsafe(su, dev, remote, es, local, depth);
      } else if es[0].isDir {
        FirstFolder(su, dev, remote, es, local, depth);
        TooDeep(su, dev, path, Inside(local, n), depth + 1);
        PullIs(su, dev, path, Inside(local, n), depth + 1);
      } else {
        FirstFile(su, dev, remote, es, local, depth);
      }
      if one.Ok? {
        PullEntriesIs(su, dev, remote, es[1..], stats.Plus(one.value), local1, depth);
      }
    }
  }

  lemma TooDeep(su: Setup, dev: Dev, remote: string, local: map<string, Tree>, depth: nat)
    requires |dev| == |su.storages|
    ensures Pullable(su, dev, remote, local, depth) ==> depth <= MAX_TREE_DEPTH
  {
  }

  lemma NothingListed(su: Setup, dev: Dev, remote: string, local: map<string, Tree>, depth: nat)
    requires |dev| == |su.storages| && depth <= MAX_TREE_DEPTH
    ensures AllPullable(su, dev, remote, [], local, depth) && MergedWith(su, dev, remote, [], local, depth) == local
  {
    hide Safe;
    assert forall n, isDir :: !Lists([], n, isDir);
  }
}
