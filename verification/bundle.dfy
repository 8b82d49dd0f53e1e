/** Bundles: `walk_add`, `unpack_tar_zstd` and `promote` of `crates/cli/src/bundle.rs`.

    An archive is a sequence of members. The local disk is a graph of inodes, so directories may be
    shared and may form cycles. */
module Bundle {
  import opened Wrappers
  import opened Phones

  type Inode = nat
  type Route = seq<string>

  const MAX_PACK_DEPTH: nat := 128
  const MAX_ENTRIES: nat := 2_000_000
  const MAX_BYTES: nat := 64 * 1024 * 1024 * 1024

  /** An inode that is neither a directory nor a file is a link, a socket or a device. */
  datatype Disk = Disk(dirs: map<Inode, map<string, Inode>>, files: map<Inode, Bytes>)

  type Listing = map<string, Inode> -> seq<string>

  ghost predicate Enumerates(o: Listing) {
    && (forall m: map<string, Inode>, n :: n in o(m) <==> n in m)
    && (forall m: map<string, Inode> {:trigger o(m)} :: Distinct(o(m)))
  }

  predicate Distinct<T(==)>(s: seq<T>) {
    forall i, j :: 0 <= i < j < |s| ==> s[i] != s[j]
  }

  ghost function SomeNames(m: map<string, Inode>): (names: seq<string>)
    ensures (forall n :: n in names <==> n in m) && Distinct(names)
  {
    if m == map[] then [] else var n :| n in m; [n] + SomeNames(m - {n})
  }

  ghost function SomeListing(): (o: Listing)
    ensures Enumerates(o)
  {
    m => SomeNames(m)
  }

  /** The order in which a directory's entries are visited; the code sorts them. */
  type Order = o: Listing | Enumerates(o) ghost witness SomeListing()

  datatype Kind = Folder | File(data: Bytes) | Other

  datatype Member = Member(absolute: bool, path: Route, kind: Kind)

  datatype Counts = Counts(files: nat, dirs: nat, raw: nat) {
    function And(m: Member): Counts {
      match m.kind
      case Folder => Counts(files, dirs + 1, raw)
      case File(data) => Counts(files + 1, dirs, raw + |data|)
      case Other => this
    }
  }

  function Count(c: Counts, ms: seq<Member>): Counts
    decreases |ms|
  {
    if ms == [] then c else Count(c.And(ms[0]), ms[1..])
  }

  lemma {:induction false} CountSplit(c: Counts, a: seq<Member>, b: seq<Member>)
    ensures Count(c, a + b) == Count(Count(c, a), b)
    decreases |a|
  {
    if a == [] {
      assert a + b == b;
    } else {
      assert (a + b)[0] == a[0] && (a + b)[1..] == a[1..] + b;
      CountSplit(c.And(a[0]), a[1..], b);
    }
  }

  // ---------- packing ----------

  datatype Walked = Walked(members: seq<Member>, skipped: nat) {
    function Then(w: Walked): Walked {
      Walked(members + w.members, skipped + w.skipped)
    }
  }

  /** `walk_add`, with the stack of directories being walked. */
  function Walk(disk: Disk, o: Order, d: Inode, prefix: Route, depth: nat, visited: seq<Inode>): Result<Walked>
    requires d in disk.dirs
    decreases MAX_PACK_DEPTH + 1 - depth, 1, 0
  {
    if depth > MAX_PACK_DEPTH || d in visited then Err(Io)
    else WalkNames(disk, o, d, prefix, depth, visited + [d], o(disk.dirs[d]))
  }

  function WalkNames(disk: Disk, o: Order, d: Inode, prefix: Route, depth: nat, visited: seq<Inode>, names: seq<string>): Result<Walked>
    requires d in disk.dirs && depth <= MAX_PACK_DEPTH && forall n :: n in names ==> n in disk.dirs[d]
    decreases MAX_PACK_DEPTH + 1 - depth, 0, |names|
  {
    if names == [] then Ok(Walked([], 0))
    else
      var first :- WalkName(disk, o, d, prefix, depth, visited, names[0]);
      var rest :- WalkNames(disk, o, d, prefix, depth, visited, names[1..]);
      Ok(first.Then(rest))
  }

  function WalkName(disk: Disk, o: Order, d: Inode, prefix: Route, depth: nat, visited: seq<Inode>, n: string): Result<Walked>
    requires d in disk.dirs && depth <= MAX_PACK_DEPTH && n in disk.dirs[d]
    decreases MAX_PACK_DEPTH + 1 - depth, 0, 0
  {
    var child, path := disk.dirs[d][n], prefix + [n];
    if child in disk.dirs then
      var sub :- Walk(disk, o, child, path, depth + 1, visited);
      Ok(Walked([Member(false, path, Folder)] + sub.members, sub.skipped))
    else if child in disk.files then Ok(Walked([Member(false, path, File(disk.files[child]))], 0))
    else Ok(Walked([], 1))
  }

  function Prepend(done: Walked, r: Result<Walked>): Result<Walked> {
    match r case Ok(w) => Ok(done.Then(w)) case Err(e) => Err(e)
  }

  lemma PrependTwice(a: Walked, b: Walked, r: Result<Walked>)
    ensures Prepend(a, Prepend(b, r)) == Prepend(a.Then(b), r)
  {
    if r.Ok? {
      assert a.members + (b.members + r.value.members) == a.members + b.members + r.value.members;
    }
  }

  ghost function Grown(s: (Counts, seq<Member>, nat), w: Walked): (Counts, seq<Member>, nat) {
    (Count(s.0, w.members), s.1 + w.members, s.2 + w.skipped)
  }

  lemma GrownTwice(s: (Counts, seq<Member>, nat), a: Walked, b: Walked)
    ensures Grown(Grown(s, a), b) == Grown(s, a.Then(b))
  {
    CountSplit(s.0, a.members, b.members);
    assert s.1 + a.members + b.members == s.1 + (a.members + b.members);
  }

  lemma GrownBy(s: (Counts, seq<Member>, nat), m: Member)
    ensures Grown(s, Walked([m], 0)) == (s.0.And(m), s.1 + [m], s.2)
    ensures Grown(s, Walked([], 0)) == s
    ensures Grown(s, Walked([], 1)) == (s.0, s.1, s.2 + 1)
  {
    assert Count(s.0.And(m), [m][1..]) == s.0.And(m);
    assert s.1 + [] == s.1;
  }

  lemma PrependNothing(r: Result<Walked>)
    ensures Prepend(Walked([], 0), r) == r
  {
    if r.Ok? {
      assert [] + r.value.members == r.value.members;
    }
  }

  /** `WalkState`, with the archive under construction. */
  class WalkState {
    const disk: Disk
    const order: Order
    var files: nat
    var dirs: nat
    var raw: nat
    var skipped: nat
    var visited: seq<Inode>
    var archive: seq<Member>

    constructor (disk: Disk, order: Order)
      ensures this.disk == disk && this.order == order && visited == [] && archive == []
      ensures Counts(files, dirs, raw) == Counts(0, 0, 0) && skipped == 0
    {
      this.disk, this.order := disk, order;
      files, dirs, raw, skipped, visited, archive := 0, 0, 0, 0, [], [];
    }

    ghost function State(): (Counts, seq<Member>, nat)
      reads this
    {
      (Counts(files, dirs, raw), archive, skipped)
    }

    /** `walk_add`: on success the stack of ancestors is what it was, and the archive and the
        counters have grown by exactly the walk. */
    method WalkAdd(d: Inode, prefix: Route, depth: nat) returns (ok: bool)
      requires d in disk.dirs
      modifies this
      ensures ok <==> Walk(disk, order, d, prefix, depth, old(visited)).Ok?
      ensures ok ==> visited == old(visited) && State() == Grown(old(State()), Walk(disk, order, d, prefix, depth, old(visited)).value)
      decreases MAX_PACK_DEPTH + 1 - depth, 1
    {
      if depth > MAX_PACK_DEPTH {
        return false;
      }
      if d in visited {
        return false;
      }
      visited := visited + [d];
      var names := order(disk.dirs[d]);
      ghost var goal := Walk(disk, order, d, prefix, depth, old(visited));
      ghost var done := Walked([], 0);
      assert names[0..] == names;
      PrependNothing(WalkNames(disk, order, d, prefix, depth, visited, names));
      GrownBy(State(), Member(false, [], Folder));
      var k := 0;
      while k < |names|
        invariant 0 <= k <= |names| && visited == old(visited) + [d]
        invariant forall n :: n in names ==> n in disk.dirs[d]
        invariant State() == Grown(old(State()), done)
        invariant goal == Prepend(done, WalkNames(disk, order, d, prefix, depth, visited, names[k..]))
      {
        assert names[k..][0] == names[k] && names[k..][1..] == names[k + 1..];
        var added := AddName(d, prefix, depth, names[k]);
        if !added {
          return false;
        }
        ghost var one := WalkName(disk, order, d, prefix, depth, visited, names[k]).value;
        PrependTwice(done, one, WalkNames(disk, order, d, prefix, depth, visited, names[k + 1..]));
        GrownTwice(old(State()), done, one);
        done := done.Then(one);
        k := k + 1;
      }
      visited := visited[..|visited| - 1];
      assert done.Then(Walked([], 0)) == done;
      ok := true;
    }

    /** One directory entry. */
    method AddName(d: Inode, prefix: Route, depth: nat, n: string) returns (ok: bool)
      requires d in disk.dirs && depth <= MAX_PACK_DEPTH && n in disk.dirs[d]
      modifies this
      ensures ok <==> WalkName(disk, order, d, prefix, depth, old(visited), n).Ok?
      ensures ok ==> visited == old(visited) && State() == Grown(old(State()), WalkName(disk, order, d, prefix, depth, old(visited), n).value)
      decreases MAX_PACK_DEPTH + 1 - depth, 0
    {
      hide Walk, Grown;
      var child, path := disk.dirs[d][n], prefix + [n];
      GrownBy(State(), Member(false, path, if child in disk.dirs then Folder else if child in disk.files then File(disk.files[child]) else Other));
      if child in disk.dirs {
        dirs := dirs + 1;
        archive := archive + [Member(false, path, Folder)];
        ok := WalkAdd(child, path, depth + 1);
        if ok {
          ghost var sub := Walk(disk, order, child, path, depth + 1, visited).value;
          GrownTwice(old(State()), Walked([Member(false, path, Folder)], 0), sub);
          assert Walked([Member(false, path, Folder)], 0).Then(sub) == Walked([Member(false, path, Folder)] + sub.members, sub.skipped);
        }
      } else if child in disk.files {
        files := files + 1;
        raw := raw + |disk.files[child]|;
        archive := archive + [Member(false, path, File(disk.files[child]))];
        ok := true;
      } else {
        skipped := skipped + 1;
        ok := true;
      }
    }
  }

  // ---------- unpacking ----------

  datatype Content = Directory | Regular(data: Bytes)

  /** A directory tree on the local disk, by path. */
  type Landed = map<Route, Content>

  /** `is_unsafe_archive_path`. */
  predicate Unsafe(m: Member) {
    m.absolute || ".." in m.path
  }

  function Ancestors(path: Route): set<Route> {
    set k | 0 < k < |path| :: path[..k]
  }

  /** `Entry::unpack_in`: missing parents are made; a file never turns into a directory, nor back. */
  function UnpackIn(at: Landed, m: Member): Result<Landed> {
    if m.path == [] || m.kind.Other? then Ok(at)
    else if exists a :: a in Ancestors(m.path) && a in at && at[a].Regular? then Err(Io)
    else if m.path in at && at[m.path].Regular? != m.kind.File? then Err(Io)
    else Ok(at + (map a | a in Ancestors(m.path) :: Directory)[m.path := if m.kind.File? then Regular(m.kind.data) else Directory])
  }

  function Unpack(ms: seq<Member>, c: Counts, at: Landed): Result<(Counts, Landed)>
    decreases |ms|
  {
    if ms == [] then Ok((c, at))
    else if Unsafe(ms[0]) then Err(Io)
    else if ms[0].kind.Other? then Unpack(ms[1..], c, at)
    else
      var c' := c.And(ms[0]);
      if (ms[0].kind.File? && c'.raw > MAX_BYTES) || c'.files + c'.dirs > MAX_ENTRIES then Err(Io)
      else
        var next :- UnpackIn(at, ms[0]);
        Unpack(ms[1..], c', next)
  }

  method UnpackArchive(ms: seq<Member>) returns (r: Result<(Counts, Landed)>)
    ensures r == Unpack(ms, Counts(0, 0, 0), map[])
  {
    var files: nat, dirs: nat, raw: nat := 0, 0, 0;
    var at: Landed := map[];
    assert ms[0..] == ms;
    for k := 0 to |ms|
      invariant Unpack(ms, Counts(0, 0, 0), map[]) == Unpack(ms[k..], Counts(files, dirs, raw), at)
    {
      assert ms[k..][0] == ms[k] && ms[k..][1..] == ms[k + 1..];
      if Unsafe(ms[k]) {
        return Err(Io);
      }
      match ms[k].kind {
        case Folder =>
          dirs := dirs + 1;
        case File(data) =>
          files := files + 1;
          raw := raw + |data|;
          if raw > MAX_BYTES {
            return Err(Io);
          }
        case Other =>
          continue;
      }
      if files + dirs > MAX_ENTRIES {
        return Err(Io);
      }
      var next := UnpackIn(at, ms[k]);
      if next.Err? {
        return Err(next.error);
      }
      at := next.value;
    }
    r := Ok((Counts(files, dirs, raw), at));
  }

  /** A new tree takes the destination's place: it can be moved in, and what stands there can be moved
      to a backup name that is free. */
  predicate Promotes(dest: Option<Landed>, backup: Option<Landed>, clears: bool, aside: bool, moves: bool) {
    moves && (dest.Some? ==> aside && (clears || backup.None?))
  }

  /** What a promotion leaves under the backup name. */
  function Behind(dest: Option<Landed>, backup: Option<Landed>, clears: bool, tidies: bool): Option<Landed> {
    if tidies || (clears && dest.None?) then None else if dest.Some? then dest else backup
  }

  /** Destination and backup after a promotion that failed. A destination that could not be moved
      aside is untouched; one that was is moved back, or stays under the backup name; and where there
      was none, a backup that was not cleared is moved there. */
  function Kept(dest: Option<Landed>, backup: Option<Landed>, clears: bool, aside: bool, back: bool): (Option<Landed>, Option<Landed>) {
    var cleared := if clears then None else backup;
    if dest.Some? && (!aside || cleared.Some?) then (dest, cleared)
    else
      var saved := if dest.Some? then dest else cleared;
      if back then (saved, None) else (None, saved)
  }

  /** The destination directory, its backup name beside it, and the private staging directory. */
  class Destination {
    var dest: Option<Landed>
    var backup: Option<Landed>
    var staging: Option<Landed>

    /** `promote`. The parameters say which of its five file-system operations the system lets
        through: clearing an old backup, moving `dest` aside, moving the new tree in, removing the
        backup, moving the old tree back. The new tree stands there whole, or the old one does,
        provided the move back works and no backup of an earlier run was in the way. */
    method Promote(clears: bool, aside: bool, moves: bool, tidies: bool, back: bool) returns (ok: bool)
      requires staging.Some?
      modifies this
      ensures ok <==> Promotes(old(dest), old(backup), clears, aside, moves)
      ensures ok ==> dest == old(staging) && staging.None? && backup == Behind(old(dest), old(backup), clears, tidies)
      ensures !ok ==> staging == old(staging) && (dest, backup) == Kept(old(dest), old(backup), clears, aside, back)
      ensures !ok && old(dest).None? ==> dest == if !clears && back then old(backup) else None
      ensures !ok && old(dest).Some? ==>
          if back || !aside || (!clears && old(backup).Some?) then dest == old(dest) else dest.None? && backup == old(dest)
    {
      if clears {
        backup := None;
      }
      if dest.Some? {
        if !aside || backup.Some? {
          return false;
        }
        backup := dest;
        dest := None;
      }
      if moves {
        dest := staging;
        staging := None;
        if tidies {
          backup := None;
        }
        return true;
      }
      if backup.Some? && back {
        dest := backup;
        backup := None;
      }
      ok := false;
    }

    /** `unpack_tar_zstd`: it succeeds exactly when the archive decodes and its tree can be promoted,
        and then the destination is that tree. An archive that does not decode leaves destination and
        backup alone; after a failed promotion they are what it kept, and the tree stays in the
        staging directory. */
    method Extract(ms: seq<Member>, clears: bool, aside: bool, moves: bool, tidies: bool, back: bool) returns (r: Result<Counts>)
      modifies this
      ensures var unpacked := Unpack(ms, Counts(0, 0, 0), map[]);
              && (r.Ok? <==> unpacked.Ok? && Promotes(old(dest), old(backup), clears, aside, moves))
              && (unpacked.Err? ==> r == Err(unpacked.error) && dest == old(dest) && backup == old(backup) && staging.None?)
              && (r.Ok? ==> r.value == unpacked.value.0 && dest == Some(unpacked.value.1)
                            && backup == Behind(old(dest), old(backup), clears, tidies) && staging.None?)
              && (unpacked.Ok? && r.Err? ==>
                    staging == Some(unpacked.value.1) && (dest, backup) == Kept(old(dest), old(backup), clears, aside, back))
      ensures r.Err? && old(dest).Some? && back ==> dest == old(dest)
      ensures r.Err? && old(dest).None? && (clears || old(backup).None?) ==> dest.None?
    {
      staging := Some(map[]);
      var unpacked := UnpackArchive(ms);
      if unpacked.Err? {
        staging := None;
        return Err(unpacked.error);
      }
      staging := Some(unpacked.value.1);
      var promoted := Promote(clears, aside, moves, tidies, back);
      r := if promoted then Ok(unpacked.value.0) else Err(Io);
    }
  }
}
