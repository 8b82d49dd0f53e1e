/** When packing ends well, what the archive holds, and that unpacking it gives the tree back. */
module BundleProofs {
  import opened Wrappers
  import opened Phones
  import opened Bundle

  // ---------- cycles and depth ----------

  /** Directories entered one inside the other. */
  ghost predicate Chain(disk: Disk, c: seq<Inode>) {
    && (forall k :: 0 <= k < |c| ==> c[k] in disk.dirs)
    && (forall k :: 0 < k < |c| ==> Inside(disk, c[k - 1], c[k]))
  }

  ghost predicate Inside(disk: Disk, d: Inode, child: Inode) {
    d in disk.dirs && exists n :: n in disk.dirs[d] && disk.dirs[d][n] == child
  }

  /** A chain from `d` that goes too deep, or comes back to a directory being walked. */
  ghost predicate Bad(disk: Disk, d: Inode, depth: nat, visited: seq<Inode>, c: seq<Inode>) {
    && c != [] && c[0] == d && Chain(disk, c)
    && (depth + |c| - 1 > MAX_PACK_DEPTH || c[|c| - 1] in visited + c[..|c| - 1])
  }

  /** A failed walk has met a bad chain. */
  lemma {:induction false} FailureHasReason(disk: Disk, o: Order, d: Inode, prefix: Route, depth: nat,
      visited: seq<Inode>) returns (c: seq<Inode>)
    requires d in disk.dirs && Walk(disk, o, d, prefix, depth, visited).Err?
    ensures Bad(disk, d, depth, visited, c)
    decreases MAX_PACK_DEPTH + 1 - depth
  {
    c := [d];
    if depth <= MAX_PACK_DEPTH && d !in visited {
      var n := FailingName(disk, o, d, prefix, depth, visited + [d], o(disk.dirs[d]));
      var child := disk.dirs[d][n];
      var rest := FailureHasReason(disk, o, child, prefix + [n], depth + 1, visited + [d]);
      c := [d] + rest;
      assert Inside(disk, d, child);
      assert c[..|c| - 1] == [d] + rest[..|rest| - 1];
      assert visited + [d] + rest[..|rest| - 1] == visited + c[..|c| - 1];
    }
  }

  lemma {:induction false} FailingName(disk: Disk, o: Order, d: Inode, prefix: Route, depth: nat,
      visited: seq<Inode>, names: seq<string>) returns (n: string)
    requires d in disk.dirs && depth <= MAX_PACK_DEPTH && (forall x :: x in names ==> x in disk.dirs[d])
    requires WalkNames(disk, o, d, prefix, depth, visited, names).Err?
    ensures n in names && disk.dirs[d][n] in disk.dirs && Walk(disk, o, disk.dirs[d][n], prefix + [n], depth + 1, visited).Err?
    decreases |names|
  {
    hide Walk;
    if WalkName(disk, o, d, prefix, depth, visited, names[0]).Err? {
      n := names[0];
    } else {
      n := FailingName(disk, o, d, prefix, depth, visited, names[1..]);
    }
  }

  /** A bad chain fails the walk. */
  lemma {:induction false} ReasonFails(disk: Disk, o: Order, d: Inode, prefix: Route, depth: nat, visited: seq<Inode>, c: seq<Inode>)
    requires d in disk.dirs && Bad(disk, d, depth, visited, c)
    ensures Walk(disk, o, d, prefix, depth, visited).Err?
    decreases |c|
  {
    if |c| > 1 && depth <= MAX_PACK_DEPTH && d !in visited {
      assert Inside(disk, c[0], c[1]);
      var n :| n in disk.dirs[d] && disk.dirs[d][n] == c[1];
      var rest := c[1..];
      assert visited + c[..|c| - 1] == (visited + [d]) + rest[..|rest| - 1];
      assert forall k :: 0 < k < |rest| ==> rest[k] == c[k + 1] && rest[k - 1] == c[k];
      ReasonFails(disk, o, c[1], prefix + [n], depth + 1, visited + [d], rest);
      FailsAtName(disk, o, d, prefix, depth, visited + [d], o(disk.dirs[d]), n);
    }
  }

  lemma {:induction false} FailsAtName(disk: Disk, o: Order, d: Inode, prefix: Route, depth: nat,
      visited: seq<Inode>, names: seq<string>, n: string)
    requires d in disk.dirs && depth <= MAX_PACK_DEPTH && (forall x :: x in names ==> x in disk.dirs[d]) && n in names
    requires disk.dirs[d][n] in disk.dirs && Walk(disk, o, disk.dirs[d][n], prefix + [n], depth + 1, visited).Err?
    ensures WalkNames(disk, o, d, prefix, depth, visited, names).Err?
    decreases |names|
  {
    hide Walk;
    if names[0] != n {
      FailsAtName(disk, o, d, prefix, depth, visited, names[1..], n);
    }
  }

  /** From a chain that repeats a directory, chains of any length. */
  lemma {:induction false} Pump(disk: Disk, c: seq<Inode>, i: nat, j: nat, length: nat) returns (long: seq<Inode>)
    requires Chain(disk, c) && i < j < |c| && j == |c| - 1 && c[i] == c[j]
    ensures Chain(disk, long) && |long| >= length && long != [] && long[0] == c[0] && long[|long| - 1] == c[j]
    decreases length
  {
    if length <= |c| {
      long := c;
    } else {
      var shorter := Pump(disk, c, i, j, length - 1);
      var turn := c[i + 1..];
      long := shorter + turn;
      forall k | 0 < k < |long|
        ensures Inside(disk, long[k - 1], long[k])
      {
        if k < |shorter| {
          assert Inside(disk, shorter[k - 1], shorter[k]);
        } else if k == |shorter| {
          assert Inside(disk, c[i], c[i + 1]);
        } else {
          assert Inside(disk, c[k - |shorter| + i], c[k - |shorter| + i + 1]);
        }
      }
    }
  }

  /** Packing a directory succeeds exactly when no chain of directories inside one another is longer
      than the limit allows: always on a shallow tree, never on a graph with a reachable cycle. */
  lemma PackSucceedsIff(disk: Disk, o: Order, root: Inode)
    requires root in disk.dirs
    ensures Walk(disk, o, root, [], 0, []).Ok? <==> forall c :: Chain(disk, c) && c != [] && c[0] == root ==> |c| <= MAX_PACK_DEPTH + 1
  {
    hide Walk;
    if Walk(disk, o, root, [], 0, []).Ok? {
      forall c | Chain(disk, c) && c != [] && c[0] == root
        ensures |c| <= MAX_PACK_DEPTH + 1
      {
        if Bad(disk, root, 0, [], c) {
          ReasonFails(disk, o, root, [], 0, [], c);
        }
      }
    } else {
      var c := FailureHasReason(disk, o, root, [], 0, []);
      if |c| <= MAX_PACK_DEPTH + 1 {
        assert c[|c| - 1] in c[..|c| - 1];
        var i :| 0 <= i < |c| - 1 && c[i] == c[|c| - 1];
        var long := Pump(disk, c, i, |c| - 1, MAX_PACK_DEPTH + 2);
        assert Chain(disk, long);
      }
    }
  }

  // ---------- what the archive holds ----------

  /** The inode a relative path leads to. */
  function Follow(disk: Disk, d: Inode, q: Route): Option<Inode>
    decreases |q|
  {
    if q == [] then Some(d)
    else if d in disk.dirs && q[0] in disk.dirs[d] then Follow(disk, disk.dirs[d][q[0]], q[1..])
    else None
  }

  function MemberAt(disk: Disk, i: Inode, path: Route): Option<Member> {
    if i in disk.dirs then Some(Member(false, path, Folder))
    else if i in disk.files then Some(Member(false, path, File(disk.files[i])))
    else None
  }

  /** `m` is what the disk has at some path below `d`. */
  ghost predicate Stems(disk: Disk, d: Inode, prefix: Route, m: Member, q: Route) {
    q != [] && Follow(disk, d, q).Some? && MemberAt(disk, Follow(disk, d, q).value, prefix + q) == Some(m)
  }

  lemma {:induction false} NamesMembers(disk: Disk, o: Order, d: Inode, prefix: Route, depth: nat,
      visited: seq<Inode>, names: seq<string>, m: Member)
    requires d in disk.dirs && depth <= MAX_PACK_DEPTH && forall n :: n in names ==> n in disk.dirs[d]
    requires WalkNames(disk, o, d, prefix, depth, visited, names).Ok?
    ensures forall n :: n in names ==> WalkName(disk, o, d, prefix, depth, visited, n).Ok?
    ensures m in WalkNames(disk, o, d, prefix, depth, visited, names).value.members
            <==> exists n :: n in names && m in WalkName(disk, o, d, prefix, depth, visited, n).value.members
    decreases |names|
  {
    hide WalkName;
    if names != [] {
      NamesMembers(disk, o, d, prefix, depth, visited, names[1..], m);
      var first := WalkName(disk, o, d, prefix, depth, visited, names[0]).value;
      var rest := WalkNames(disk, o, d, prefix, depth, visited, names[1..]).value;
      assert WalkNames(disk, o, d, prefix, depth, visited, names).value.members == first.members + rest.members;
      assert names == [names[0]] + names[1..];
      if m in rest.members {
        var n :| n in names[1..] && m in WalkName(disk, o, d, prefix, depth, visited, n).value.members;
        assert n in names;
      }
      if n :| n in names && m in WalkName(disk, o, d, prefix, depth, visited, n).value.members {
        assert n == names[0] || n in names[1..];
      }
    }
  }

  /** Everything in the archive is on the disk. */
  lemma {:induction false} MemberHasRoute(disk: Disk, o: Order, d: Inode, prefix: Route, depth: nat, visited: seq<Inode>, m: Member)
    returns (q: Route)
    requires d in disk.dirs && Walk(disk, o, d, prefix, depth, visited).Ok?
    requires m in Walk(disk, o, d, prefix, depth, visited).value.members
    ensures Stems(disk, d, prefix, m, q)
    decreases MAX_PACK_DEPTH + 1 - depth, 1
  {
    hide WalkName, Stems;
    NamesMembers(disk, o, d, prefix, depth, visited + [d], o(disk.dirs[d]), m);
    var n :| n in o(disk.dirs[d]) && m in WalkName(disk, o, d, prefix, depth, visited + [d], n).value.members;
    q := MemberOfName(disk, o, d, prefix, depth, visited + [d], m, n);
  }

  lemma {:induction false} MemberOfName(disk: Disk, o: Order, d: Inode, prefix: Route, depth: nat, visited: seq<Inode>, m: Member, n: string)
    returns (q: Route)
    requires d in disk.dirs && depth <= MAX_PACK_DEPTH && n in disk.dirs[d]
    requires WalkName(disk, o, d, prefix, depth, visited, n).Ok? && m in WalkName(disk, o, d, prefix, depth, visited, n).value.members
    ensures Stems(disk, d, prefix, m, q)
    decreases MAX_PACK_DEPTH + 1 - depth, 0
  {
    hide Walk;
    var child, path := disk.dirs[d][n], prefix + [n];
    q := [n];
    assert q[1..] == [] && Follow(disk, child, q[1..]) == Some(child) && prefix + q == path;
    if child in disk.dirs && m != Member(false, path, Folder) {
      var rest := MemberHasRoute(disk, o, child, path, depth + 1, visited, m);
      q := [n] + rest;
      assert q[1..] == rest && prefix + q == path + rest;
    }
  }

  /** Everything on the disk below the root, links and special files apart, is in the archive. */
  lemma {:induction false} RouteHasMember(disk: Disk, o: Order, d: Inode, prefix: Route, depth: nat,
      visited: seq<Inode>, m: Member, q: Route)
    requires d in disk.dirs && Walk(disk, o, d, prefix, depth, visited).Ok? && Stems(disk, d, prefix, m, q)
    ensures m in Walk(disk, o, d, prefix, depth, visited).value.members
    decreases |q|, 1
  {
    hide WalkName;
    NamesMembers(disk, o, d, prefix, depth, visited + [d], o(disk.dirs[d]), m);
    assert q[0] in o(disk.dirs[d]);
    NameHasMember(disk, o, d, prefix, depth, visited + [d], m, q);
  }

  lemma {:induction false} NameHasMember(disk: Disk, o: Order, d: Inode, prefix: Route, depth: nat,
      visited: seq<Inode>, m: Member, q: Route)
    requires d in disk.dirs && depth <= MAX_PACK_DEPTH && q != [] && q[0] in disk.dirs[d] && Stems(disk, d, prefix, m, q)
    requires WalkName(disk, o, d, prefix, depth, visited, q[0]).Ok?
    ensures m in WalkName(disk, o, d, prefix, depth, visited, q[0]).value.members
    decreases |q|, 0
  {
    hide Walk;
    var child, path := disk.dirs[d][q[0]], prefix + [q[0]];
    if |q| == 1 {
      assert q[1..] == [] && prefix + q == path;
      assert Follow(disk, child, q[1..]) == Some(child) && Follow(disk, d, q) == Some(child);
      assert Some(m) == MemberAt(disk, child, path);
      assert WalkName(disk, o, d, prefix, depth, visited, q[0]).value.members[0] == m;
    } else {
      assert q[1..] != [] && prefix + q == path + q[1..];
      assert Follow(disk, d, q) == Follow(disk, child, q[1..]) && child in disk.dirs;
      RouteHasMember(disk, o, child, path, depth + 1, visited, m, q[1..]);
    }
  }

  /** An archive holds exactly the files and directories reachable without following links. */
  lemma ArchiveIsTheTree(disk: Disk, o: Order, root: Inode, m: Member)
    requires root in disk.dirs && Walk(disk, o, root, [], 0, []).Ok?
    ensures m in Walk(disk, o, root, [], 0, []).value.members <==> exists q :: Stems(disk, root, [], m, q)
  {
    hide Walk, Stems;
    if m in Walk(disk, o, root, [], 0, []).value.members {
      var q := MemberHasRoute(disk, o, root, [], 0, [], m);
    }
    if q :| Stems(disk, root, [], m, q) {
      RouteHasMember(disk, o, root, [], 0, [], m, q);
    }
  }

  // ---------- the round trip ----------

  /** What unpacking puts at a path. */
  function ContentAt(disk: Disk, i: Inode): Option<Content> {
    if i in disk.dirs then Some(Directory) else if i in disk.files then Some(Regular(disk.files[i])) else None
  }

  /** Everything landed so far is what the disk has there. */
  ghost predicate Faithful(disk: Disk, root: Inode, at: Landed) {
    forall p :: p in at ==> p != [] && Follow(disk, root, p).Some? && ContentAt(disk, Follow(disk, root, p).value) == Some(at[p])
  }

  lemma {:induction false} PrefixIsDir(disk: Disk, d: Inode, q: Route, k: nat)
    requires Follow(disk, d, q).Some? && k < |q|
    ensures Follow(disk, d, q[..k]).Some? && Follow(disk, d, q[..k]).value in disk.dirs
    decreases k
  {
    if k > 0 {
      PrefixIsDir(disk, disk.dirs[d][q[0]], q[1..], k - 1);
      assert q[..k][0] == q[0] && q[..k][1..] == q[1..][..k - 1];
    } else {
      assert q[..0] == [];
    }
  }

  lemma LandsFaithfully(disk: Disk, root: Inode, at: Landed, m: Member)
    requires Faithful(disk, root, at) && Stems(disk, root, [], m, m.path)
    ensures UnpackIn(at, m).Ok? && Faithful(disk, root, UnpackIn(at, m).value)
    ensures m.path in UnpackIn(at, m).value && forall p :: p in at ==> p in UnpackIn(at, m).value
  {
    assert [] + m.path == m.path;
    forall a | a in Ancestors(m.path)
      ensures a != [] && Follow(disk, root, a).Some? && Follow(disk, root, a).value in disk.dirs
    {
      var k :| 0 < k < |m.path| && a == m.path[..k];
      PrefixIsDir(disk, root, m.path, k);
    }
  }

  /** The limits of `unpack_tar_zstd`. */
  predicate WithinLimits(c: Counts) {
    c.raw <= MAX_BYTES && c.files + c.dirs <= MAX_ENTRIES
  }

  lemma {:induction false} CountsGrow(c: Counts, ms: seq<Member>)
    ensures var t := Count(c, ms); c.files <= t.files && c.dirs <= t.dirs && c.raw <= t.raw
    decreases |ms|
  {
    if ms != [] {
      CountsGrow(c.And(ms[0]), ms[1..]);
    }
  }

  /** Unpacking faithful members fails only at the limits, and loses and invents nothing. */
  lemma {:induction false} UnpacksFaithfully(disk: Disk, root: Inode, ms: seq<Member>, c: Counts, at: Landed)
    requires forall m :: m in ms ==> Stems(disk, root, [], m, m.path) && !Unsafe(m)
    requires Faithful(disk, root, at) && WithinLimits(c)
    ensures Unpack(ms, c, at).Ok? <==> WithinLimits(Count(c, ms))
    ensures Unpack(ms, c, at).Ok? ==>
        var (counts, after) := Unpack(ms, c, at).value;
        && counts == Count(c, ms) && Faithful(disk, root, after)
        && (forall p :: p in at ==> p in after) && (forall m :: m in ms ==> m.path in after)
    decreases |ms|
  {
    hide Stems, Faithful, UnpackIn;
    if ms != [] {
      var m := ms[0];
      StemsKind(disk, root, m);
      CountsGrow(c.And(m), ms[1..]);
      LandsFaithfully(disk, root, at, m);
      if WithinLimits(c.And(m)) {
        UnpacksFaithfully(disk, root, ms[1..], c.And(m), UnpackIn(at, m).value);
        assert ms == [m] + ms[1..];
      }
    }
  }

  lemma StemsKind(disk: Disk, root: Inode, m: Member)
    requires Stems(disk, root, [], m, m.path)
    ensures !m.kind.Other?
  {
  }

  /** Names as `read_dir` gives them. */
  ghost predicate OrdinaryNames(disk: Disk) {
    forall d, n :: d in disk.dirs && n in disk.dirs[d] ==> n != ".."
  }

  lemma {:induction false} RoutesAreSafe(disk: Disk, d: Inode, q: Route)
    requires OrdinaryNames(disk) && Follow(disk, d, q).Some?
    ensures ".." !in q
    decreases |q|
  {
    if q != [] {
      RoutesAreSafe(disk, disk.dirs[d][q[0]], q[1..]);
      assert q == [q[0]] + q[1..];
    }
  }

  /** What landed is the disk's tree below the root, without links and special files. */
  ghost predicate IsTheTree(disk: Disk, root: Inode, at: Landed) {
    && (forall p :: p in at <==> p != [] && Follow(disk, root, p).Some? && ContentAt(disk, Follow(disk, root, p).value).Some?)
    && (forall p :: p in at ==> ContentAt(disk, Follow(disk, root, p).value) == Some(at[p]))
  }

  /** Pack, then unpack: within the limits, and only then, unpacking succeeds; both sides count the
      same, and what lands is the source tree without links and special files. */
  lemma PackThenUnpack(disk: Disk, o: Order, root: Inode)
    requires root in disk.dirs && OrdinaryNames(disk) && Walk(disk, o, root, [], 0, []).Ok?
    ensures var packed := Walk(disk, o, root, [], 0, []).value.members;
            var counts := Count(Counts(0, 0, 0), packed);
            var r := Unpack(packed, Counts(0, 0, 0), map[]);
            && (r.Ok? <==> WithinLimits(counts))
            && (r.Ok? ==> r.value.0 == counts && IsTheTree(disk, root, r.value.1))
  {
    hide Walk, Unpack;
    var packed := Walk(disk, o, root, [], 0, []).value.members;
    forall m | m in packed
      ensures Stems(disk, root, [], m, m.path) && !Unsafe(m)
    {
      ArchiveIsTheTree(disk, o, root, m);
      var q :| Stems(disk, root, [], m, q);
      assert [] + q == q && m.path == q;
      RoutesAreSafe(disk, root, q);
    }
    UnpacksFaithfully(disk, root, packed, Counts(0, 0, 0), map[]);
    var r := Unpack(packed, Counts(0, 0, 0), map[]);
    if r.Ok? {
      forall p | p != [] && Follow(disk, root, p).Some? && ContentAt(disk, Follow(disk, root, p).value).Some?
        ensures p in r.value.1
      {
        var m := MemberAt(disk, Follow(disk, root, p).value, p).value;
        assert [] + p == p && Stems(disk, root, [], m, p);
        ArchiveIsTheTree(disk, o, root, m);
      }
    }
  }

  /** A directory packed and extracted over whatever stands at the destination. When both go through
      the destination is the whole new tree and both sides count the same; an archive beyond the
      limits, or a promotion that is not let through, leaves what the destination keeps. */
  method PackThenExtract(disk: Disk, o: Order, root: Inode, there: Destination, clears: bool, aside: bool, moves: bool, tidies: bool, back: bool)
    returns (packed: Option<Counts>, r: Result<Counts>)
    requires root in disk.dirs && OrdinaryNames(disk)
    modifies there
    ensures packed.Some? <==> forall c :: Chain(disk, c) && c != [] && c[0] == root ==> |c| <= MAX_PACK_DEPTH + 1
    ensures r.Ok? <==> packed.Some? && WithinLimits(packed.value) && Promotes(old(there.dest), old(there.backup), clears, aside, moves)
    ensures r.Ok? ==> r == Ok(packed.value) && there.dest.Some? && IsTheTree(disk, root, there.dest.value)
    ensures r.Err? && (packed.None? || !WithinLimits(packed.value)) ==> there.dest == old(there.dest) && there.backup == old(there.backup)
    ensures r.Err? && packed.Some? && WithinLimits(packed.value) ==>
        (there.dest, there.backup) == Kept(old(there.dest), old(there.backup), clears, aside, back)
  {
    hide Walk, Unpack, IsTheTree, Grown, Kept, Promotes;
    PackSucceedsIff(disk, o, root);
    var state := new WalkState(disk, o);
    ghost var before := state.State();
    var ok := state.WalkAdd(root, [], 0);
    if !ok {
      return None, Err(Io);
    }
    PackThenUnpack(disk, o, root);
    WalkedOnly(before, Walk(disk, o, root, [], 0, []).value);
    packed := Some(Counts(state.files, state.dirs, state.raw));
    r := there.Extract(state.archive, clears, aside, moves, tidies, back);
  }

  lemma WalkedOnly(s: (Counts, seq<Member>, nat), w: Walked)
    requires s == (Counts(0, 0, 0), [], 0)
    ensures Grown(s, w) == (Count(Counts(0, 0, 0), w.members), w.members, w.skipped)
  {
    assert [] + w.members == w.members;
  }

  // ---------- any archive ----------

  /** A member that lands somewhere. */
  predicate Lands(m: Member) {
    m.path != [] && !m.kind.Other?
  }

  ghost predicate AsDirectory(ms: seq<Member>, p: Route) {
    exists m :: m in ms && Lands(m) && (p in Ancestors(m.path) || (p == m.path && m.kind.Folder?))
  }

  ghost predicate AsFile(ms: seq<Member>, p: Route) {
    exists m :: m in ms && Lands(m) && p == m.path && m.kind.File?
  }

  /** No path is a file of one member and a directory of another. */
  ghost predicate NoClash(ms: seq<Member>) {
    forall p :: !(AsDirectory(ms, p) && AsFile(ms, p))
  }

  /** The bytes of the last file of a path. */
  function LastFile(ms: seq<Member>, p: Route): Bytes {
    if ms == [] then []
    else
      var m := ms[|ms| - 1];
      if m.path == p && m.kind.File? then m.kind.data else LastFile(ms[..|ms| - 1], p)
  }

  /** Exactly the members' paths and the directories above them, each file as its last member has it. */
  ghost predicate IsLanding(ms: seq<Member>, at: Landed) {
    && (forall p :: p in at <==> AsDirectory(ms, p) || AsFile(ms, p))
    && (forall p :: p in at ==> at[p] == if AsDirectory(ms, p) then Directory else Regular(LastFile(ms, p)))
  }

  lemma AsSnoc(ms: seq<Member>, m: Member, p: Route)
    ensures AsDirectory(ms + [m], p) <==> AsDirectory(ms, p) || (Lands(m) && (p in Ancestors(m.path) || (p == m.path && m.kind.Folder?)))
    ensures AsFile(ms + [m], p) <==> AsFile(ms, p) || (Lands(m) && p == m.path && m.kind.File?)
    ensures LastFile(ms + [m], p) == if m.path == p && m.kind.File? then m.kind.data else LastFile(ms, p)
  {
    hide Ancestors;
    assert forall x :: x in ms + [m] <==> x in ms || x == m;
    assert (ms + [m])[..|ms|] == ms;
  }

  lemma NotItsAncestor(p: Route)
    ensures p !in Ancestors(p)
  {
  }

  /** One member more lands unless it clashes with those before it. */
  lemma LandsNext(ms: seq<Member>, m: Member, at: Landed)
    requires IsLanding(ms, at) && NoClash(ms)
    ensures UnpackIn(at, m).Ok? <==> NoClash(ms + [m])
    ensures UnpackIn(at, m).Ok? ==> IsLanding(ms + [m], UnpackIn(at, m).value)
  {
    hide Ancestors, LastFile, AsDirectory, AsFile;
    forall p
      ensures NextAt(ms, m, p)
    {
      AsSnoc(ms, m, p);
    }
    NotItsAncestor(m.path);
    if Lands(m) {
      LandsUnless(ms, m, at);
      if UnpackIn(at, m).Ok? {
        LandsThere(ms, m, at);
      }
    } else {
      LandsNowhere(ms, m, at);
    }
  }

  /** What one member more makes of a path. */
  ghost predicate NextAt(ms: seq<Member>, m: Member, p: Route) {
    && (AsDirectory(ms + [m], p) <==> AsDirectory(ms, p) || (Lands(m) && (p in Ancestors(m.path) || (p == m.path && m.kind.Folder?))))
    && (AsFile(ms + [m], p) <==> AsFile(ms, p) || (Lands(m) && p == m.path && m.kind.File?))
    && LastFile(ms + [m], p) == if m.path == p && m.kind.File? then m.kind.data else LastFile(ms, p)
  }

  lemma LandsNowhere(ms: seq<Member>, m: Member, at: Landed)
    requires IsLanding(ms, at) && NoClash(ms) && !Lands(m) && forall p :: NextAt(ms, m, p)
    ensures UnpackIn(at, m) == Ok(at) && NoClash(ms + [m]) && IsLanding(ms + [m], at)
  {
    hide Ancestors, LastFile, AsDirectory, AsFile;
    forall p
      ensures (AsDirectory(ms + [m], p) <==> AsDirectory(ms, p)) && (AsFile(ms + [m], p) <==> AsFile(ms, p))
      ensures p in at ==> LastFile(ms + [m], p) == LastFile(ms, p)
    {
      assert NextAt(ms, m, p);
      NotTheTop(ms, p);
    }
  }

  lemma NotTheTop(ms: seq<Member>, p: Route)
    ensures AsDirectory(ms, p) || AsFile(ms, p) ==> p != []
  {
    hide Ancestors;
    forall m | m in ms
      ensures p in Ancestors(m.path) ==> p != []
    {
      AncestorIsPart(m.path, p);
    }
  }

  lemma LandsUnless(ms: seq<Member>, m: Member, at: Landed)
    requires IsLanding(ms, at) && NoClash(ms) && Lands(m) && m.path !in Ancestors(m.path)
    requires forall p :: NextAt(ms, m, p)
    ensures UnpackIn(at, m).Ok? <==> NoClash(ms + [m])
  {
    hide Ancestors, LastFile, AsDirectory, AsFile;
    if UnpackIn(at, m).Err? {
      if a :| a in Ancestors(m.path) && a in at && at[a].Regular? {
        assert NextAt(ms, m, a);
      } else {
        assert NextAt(ms, m, m.path);
      }
    } else {
      forall p
        ensures !(AsDirectory(ms + [m], p) && AsFile(ms + [m], p))
      {
        assert NextAt(ms, m, p);
        assert !(AsDirectory(ms, p) && AsFile(ms, p));
      }
    }
  }

  lemma LandsThere(ms: seq<Member>, m: Member, at: Landed)
    requires IsLanding(ms, at) && NoClash(ms) && Lands(m) && m.path !in Ancestors(m.path) && UnpackIn(at, m).Ok?
    requires forall p :: NextAt(ms, m, p)
    ensures IsLanding(ms + [m], UnpackIn(at, m).value)
  {
    hide Ancestors, LastFile, AsDirectory, AsFile;
    var next := UnpackIn(at, m).value;
    forall p
      ensures p in next <==> AsDirectory(ms + [m], p) || AsFile(ms + [m], p)
      ensures p in next ==> next[p] == if AsDirectory(ms + [m], p) then Directory else Regular(LastFile(ms + [m], p))
    {
      assert NextAt(ms, m, p);
      assert !(AsDirectory(ms, p) && AsFile(ms, p));
    }
  }

  lemma {:induction false} UnpackIff(done: seq<Member>, ms: seq<Member>, c: Counts, at: Landed)
    requires IsLanding(done, at) && NoClash(done) && WithinLimits(c)
    ensures Unpack(ms, c, at).Ok? <==> (forall m :: m in ms ==> !Unsafe(m)) && WithinLimits(Count(c, ms)) && NoClash(done + ms)
    ensures Unpack(ms, c, at).Ok? ==> Unpack(ms, c, at).value.0 == Count(c, ms) && IsLanding(done + ms, Unpack(ms, c, at).value.1)
    decreases |ms|
  {
    hide IsLanding, NoClash, UnpackIn, Unsafe;
    if ms == [] {
      assert done + ms == done;
    } else {
      var m := ms[0];
      assert (done + [m]) + ms[1..] == done + ms && ms == [m] + ms[1..];
      CountsGrow(c.And(m), ms[1..]);
      LandsNext(done, m, at);
      ClashStays(done + [m], ms[1..]);
      OtherLandsNowhere(at, m);
      if UnpackIn(at, m).Ok? && WithinLimits(c.And(m)) {
        UnpackIff(done + [m], ms[1..], c.And(m), UnpackIn(at, m).value);
      }
    }
  }

  lemma OtherLandsNowhere(at: Landed, m: Member)
    ensures m.kind.Other? ==> UnpackIn(at, m) == Ok(at)
  {
  }

  lemma ClashStays(a: seq<Member>, b: seq<Member>)
    ensures NoClash(a + b) ==> NoClash(a)
  {
    hide Ancestors;
    assert forall m :: m in a ==> m in a + b;
    forall p | AsDirectory(a, p) && AsFile(a, p)
      ensures AsDirectory(a + b, p) && AsFile(a + b, p)
    {
    }
  }

  /** Any archive, from wherever it comes: it unpacks exactly when no member is absolute or climbs, the
      limits are kept and no path is used as a file and as a directory; and then exactly its members
      stand in the staging directory, none of them outside. */
  lemma AnyArchive(ms: seq<Member>)
    ensures var r := Unpack(ms, Counts(0, 0, 0), map[]);
            && (r.Ok? <==> (forall m :: m in ms ==> !m.absolute && ".." !in m.path) && WithinLimits(Count(Counts(0, 0, 0), ms)) && NoClash(ms))
            && (r.Ok? ==> r.value.0 == Count(Counts(0, 0, 0), ms) && IsLanding(ms, r.value.1))
            && (r.Ok? ==> forall p :: p in r.value.1 ==> p != [] && ".." !in p)
  {
    hide Unpack, Ancestors;
    assert [] + ms == ms;
    UnpackIff([], ms, Counts(0, 0, 0), map[]);
    var r := Unpack(ms, Counts(0, 0, 0), map[]);
    if r.Ok? {
      forall p | p in r.value.1
        ensures p != [] && ".." !in p
      {
        var m :| m in ms && Lands(m) && (p in Ancestors(m.path) || p == m.path);
        AncestorIsPart(m.path, p);
      }
    }
  }

  lemma AncestorIsPart(path: Route, p: Route)
    ensures p in Ancestors(path) ==> p != [] && p <= path
  {
  }

  // ---------- each thing once ----------

  /** A path below `prefix`. */
  predicate Under(prefix: Route, q: Route) {
    |prefix| < |q| && q[..|prefix|] == prefix
  }

  /** What the disk has at a path below `d` is neither a directory nor a file. */
  ghost predicate OddAt(disk: Disk, d: Inode, prefix: Route, q: Route) {
    Under(prefix, q) && Follow(disk, d, q[|prefix|..]).Some?
    && Follow(disk, d, q[|prefix|..]).value !in disk.dirs && Follow(disk, d, q[|prefix|..]).value !in disk.files
  }

  predicate OncePerPath(ms: seq<Member>) {
    forall i, j :: 0 <= i < j < |ms| ==> ms[i].path != ms[j].path
  }

  /** The walk of a directory meets every path below it once: no two members share one, and what it
      counts as skipped are exactly the paths of links and special files. */
  lemma {:induction false} WalkMeetsOnce(disk: Disk, o: Order, d: Inode, prefix: Route, depth: nat, visited: seq<Inode>)
    returns (odd: seq<Route>)
    requires d in disk.dirs && Walk(disk, o, d, prefix, depth, visited).Ok?
    ensures var w := Walk(disk, o, d, prefix, depth, visited).value;
            && OncePerPath(w.members) && Distinct(odd) && |odd| == w.skipped
            && (forall m :: m in w.members ==> Under(prefix, m.path))
            && (forall q :: q in odd <==> OddAt(disk, d, prefix, q))
    decreases MAX_PACK_DEPTH + 1 - depth, 1, 0
  {
    hide WalkNames, OddAt, OncePerPath, Distinct;
    odd := NamesMeetOnce(disk, o, d, prefix, depth, visited + [d], o(disk.dirs[d]));
    forall q
      ensures OddAt(disk, d, prefix, q) ==> |prefix| < |q| && q[|prefix|] in o(disk.dirs[d])
    {
      FirstStep(disk, o, d, prefix, q);
    }
  }

  lemma FirstStep(disk: Disk, o: Order, d: Inode, prefix: Route, q: Route)
    requires d in disk.dirs
    ensures OddAt(disk, d, prefix, q) ==> |prefix| < |q| && q[|prefix|] in o(disk.dirs[d])
  {
    if OddAt(disk, d, prefix, q) {
      assert q[|prefix|..][0] == q[|prefix|];
    }
  }

  lemma {:induction false} NamesMeetOnce(disk: Disk, o: Order, d: Inode, prefix: Route, depth: nat, visited: seq<Inode>, names: seq<string>)
    returns (odd: seq<Route>)
    requires d in disk.dirs && depth <= MAX_PACK_DEPTH && (forall n :: n in names ==> n in disk.dirs[d]) && Distinct(names)
    requires WalkNames(disk, o, d, prefix, depth, visited, names).Ok?
    ensures var w := WalkNames(disk, o, d, prefix, depth, visited, names).value;
            && OncePerPath(w.members) && Distinct(odd) && |odd| == w.skipped
            && (forall m :: m in w.members ==> Under(prefix, m.path) && m.path[|prefix|] in names)
            && (forall q :: q in odd <==> OddAt(disk, d, prefix, q) && q[|prefix|] in names)
    decreases MAX_PACK_DEPTH + 1 - depth, 0, |names|
  {
    hide WalkName, OddAt;
    odd := [];
    if names != [] {
      var first := NameMeetsOnce(disk, o, d, prefix, depth, visited, names[0]);
      var rest := NamesMeetOnce(disk, o, d, prefix, depth, visited, names[1..]);
      odd := first + rest;
      OddIsUnder(disk, d, prefix);
      assert names == [names[0]] + names[1..] && names[0] !in names[1..];
      var a := WalkName(disk, o, d, prefix, depth, visited, names[0]).value;
      var b := WalkNames(disk, o, d, prefix, depth, visited, names[1..]).value;
      OnceTogether(a.members, b.members);
      DistinctTogether(first, rest);
    }
  }

  lemma OddIsUnder(disk: Disk, d: Inode, prefix: Route)
    ensures forall q :: OddAt(disk, d, prefix, q) ==> Under(prefix, q)
  {
  }

  lemma OnceTogether(a: seq<Member>, b: seq<Member>)
    requires OncePerPath(a) && OncePerPath(b) && forall m, k :: m in a && k in b ==> m.path != k.path
    ensures OncePerPath(a + b)
  {
  }

  lemma DistinctTogether<T>(a: seq<T>, b: seq<T>)
    requires Distinct(a) && Distinct(b) && forall x :: x in a ==> x !in b
    ensures Distinct(a + b)
  {
    var all := a + b;
    forall i, j | 0 <= i < j < |all|
      ensures all[i] != all[j]
    {
      assert i < |a| ==> all[i] == a[i] && all[i] in a;
      assert j >= |a| ==> all[j] == b[j - |a|] && all[j] in b;
    }
  }

  lemma {:induction false} NameMeetsOnce(disk: Disk, o: Order, d: Inode, prefix: Route, depth: nat, visited: seq<Inode>, n: string)
    returns (odd: seq<Route>)
    requires d in disk.dirs && depth <= MAX_PACK_DEPTH && n in disk.dirs[d]
    requires WalkName(disk, o, d, prefix, depth, visited, n).Ok?
    ensures var w := WalkName(disk, o, d, prefix, depth, visited, n).value;
            && OncePerPath(w.members) && Distinct(odd) && |odd| == w.skipped
            && (forall m :: m in w.members ==> Under(prefix, m.path) && m.path[|prefix|] == n)
            && (forall q :: q in odd <==> OddAt(disk, d, prefix, q) && q[|prefix|] == n)
    decreases MAX_PACK_DEPTH + 1 - depth, 0, 0
  {
    hide Walk, OddAt;
    var child, path := disk.dirs[d][n], prefix + [n];
    OddIsUnder(disk, d, prefix);
    OddIsUnder(disk, child, path);
    assert path[..|prefix|] == prefix;
    forall q
      ensures Under(path, q) ==> Under(prefix, q) && q[|prefix|] == n
      ensures OddAt(disk, d, prefix, q) && q[|prefix|] == n <==>
          if q == path then child !in disk.dirs && child !in disk.files else child in disk.dirs && OddAt(disk, child, path, q)
    {
      OddStep(disk, d, prefix, n, q);
    }
    odd := [];
    if child in disk.dirs {
      odd := WalkMeetsOnce(disk, o, child, path, depth + 1, visited);
      assert !Under(path, path);
    } else if child !in disk.files {
      odd := [path];
    }
  }

  lemma OddStep(disk: Disk, d: Inode, prefix: Route, n: string, q: Route)
    requires d in disk.dirs && n in disk.dirs[d]
    ensures var child, path := disk.dirs[d][n], prefix + [n];
            && (Under(path, q) ==> Under(prefix, q) && q[|prefix|] == n)
            && (OddAt(disk, d, prefix, q) && q[|prefix|] == n <==>
                  if q == path then child !in disk.dirs && child !in disk.files else child in disk.dirs && OddAt(disk, child, path, q))
  {
    var child, path := disk.dirs[d][n], prefix + [n];
    if Under(path, q) {
      assert q[..|prefix|] == q[..|path|][..|prefix|] && q[|prefix|] == q[..|path|][|prefix|];
    }
    if Under(prefix, q) && q[|prefix|] == n {
      var rest := q[|prefix|..];
      assert rest[0] == n && rest[1..] == q[|path|..];
      assert q[..|path|] == path;
      assert Follow(disk, d, rest) == Follow(disk, child, rest[1..]);
      if rest[1..] == [] {
        assert q == path;
      } else {
        assert q != path && Under(path, q);
        assert child !in disk.dirs ==> Follow(disk, child, rest[1..]).None?;
      }
    }
  }
}
