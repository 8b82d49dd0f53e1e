/** The device actor: `ActorState` of `crates/core/src/actor.rs`, answering from its cache.

    Every method is proved to answer exactly what `PlainActor` answers from the device and to
    leave the device in the same state, and to repair the cache as it goes. */
module Actor {
  import opened Wrappers
  import opened Names
  import opened Paths
  import opened Phones
  import opened Cache
  import opened Coherence
  import opened PlainActor
  import opened TreeRemoval
  import opened Requests
  import opened Answers
  import opened Served

  ghost predicate DistinctIds(su: Setup) {
    forall i, j :: 0 <= i < j < |su.storages| ==> su.storages[i].id != su.storages[j].id
  }

  /** The joint invariant of device and cache; storage `idx` is exempt at the directories `open`. */
  ghost predicate CacheOk(su: Setup, dev: Dev, caches: Caches, idx: nat, open: set<Handle>) {
    && DistinctIds(su)
    && |dev| == |su.storages|
    && forall i :: 0 <= i < |dev| ==>
        && Valid(dev[i])
        && |SlotOf(caches, su.storages[i].id).listings| <= MAX_LISTINGS
        && CoherentExcept(su.phone, dev[i], SlotOf(caches, su.storages[i].id), if i == idx then open else {})
  }

  ghost predicate AllCoherent(su: Setup, dev: Dev, caches: Caches) {
    CacheOk(su, dev, caches, 0, {})
  }

  /** Between two states of a session the phone refused `after - before` listings it was asked for;
      the first refusal ends the request that met it. */
  ghost predicate Balked(ph: Phone, before: nat, after: nat, failed: bool) {
    before <= after && (ListsAll(ph) ==> after == before) && (after > before ==> failed)
  }

  /** A change confined to one storage. */
  lemma OneStorage(su: Setup, dev: Dev, dev': Dev, c: Caches, c': Caches, idx: nat, open: set<Handle>, open': set<Handle>)
    requires CacheOk(su, dev, c, idx, open) && idx < |dev|
    requires |dev'| == |dev| && dev' == dev[idx := dev'[idx]]
    requires forall sid :: sid != su.storages[idx].id ==> SlotOf(c', sid) == SlotOf(c, sid)
    requires Valid(dev'[idx])
    requires |SlotOf(c', su.storages[idx].id).listings| <= MAX_LISTINGS
    requires CoherentExcept(su.phone, dev'[idx], SlotOf(c', su.storages[idx].id), open')
    ensures CacheOk(su, dev', c', idx, open')
  {
    forall i | 0 <= i < |dev'| && i != idx
      ensures SlotOf(c', su.storages[i].id) == SlotOf(c, su.storages[i].id)
    {
    }
  }

  lemma SameMeaning(su: Setup, dev: Dev, c: Caches, i: nat, j: nat)
    requires CacheOk(su, dev, c, i, {})
    ensures CacheOk(su, dev, c, j, {})
  {
  }

  lemma Wider(su: Setup, dev: Dev, c: Caches, idx: nat, open: set<Handle>, wider: set<Handle>)
    requires CacheOk(su, dev, c, idx, open) && open <= wider
    ensures CacheOk(su, dev, c, idx, wider)
  {
  }

  lemma OnlyAtTwice(a: Dev, b: Dev, c: Dev, idx: nat)
    requires OnlyAt(a, b, idx) && OnlyAt(b, c, idx)
    ensures OnlyAt(a, c, idx)
    ensures a[idx] != c[idx] ==> a != c
  {
  }

  lemma OnlyAtSelf(a: Dev, idx: nat)
    requires idx < |a|
    ensures OnlyAt(a, a, idx)
  {
  }

  ghost predicate Shrunk(s: Store, t: Store) {
    t.objects.Keys < s.objects.Keys
  }

  /** All that an interrupted recursive removal can spoil: listings inside the subtree of the
      directory it was asked to remove. */
  ghost predicate StaleBelow(su: Setup, before: Dev, dev: Dev, caches: Caches, idx: nat, p: DevPath) {
    && idx < |before|
    && var target := FindTarget(su.phone, before[idx], p);
       target.Ok? && target.value.1.isDir && CacheOk(su, dev, caches, idx, Subtree(before[idx].objects, target.value.1.handle))
  }

  ghost predicate StaleBelowTarget(su: Setup, before: Dev, dev: Dev, caches: Caches, raw: string) {
    && var p := Paths.ParseSpec(su.chars, raw);
       p.Ok? && var idx := FindStorageIndex(su, p.value.storageRef);
                idx.Ok? && StaleBelow(su, before, dev, caches, idx.value, p.value)
  }

  /** Removals only take objects away. */
  ghost predicate Reduced(s: Store, t: Store) {
    t.next == s.next && t.objects.Keys <= s.objects.Keys
  }

  /** The listings a running walk over `dir` may have made stale: none before its first deletion. */
  ghost predicate StaleAt(s: Store, now: Store, dir: Handle, open: set<Handle>, stale: set<Handle>) {
    (now == s && stale == open) || (Shrunk(s, now) && stale == open + {dir})
  }

  lemma StoreIsValid(su: Setup, dev: Dev, c: Caches, idx: nat, open: set<Handle>)
    requires CacheOk(su, dev, c, idx, open) && idx < |dev|
    ensures Valid(dev[idx]) && |su.storages| == |dev|
  {
  }

  lemma ForgetSize(st: StorageCache, d: Handle)
    ensures |Forget(st, d).listings| <= |st.listings|
  {
    SubsetSize(Forget(st, d).listings.Keys, st.listings.Keys);
  }

  class ActorState {
    const su: Setup
    const cache: MetaCache
    var dev: Dev
    var clock: Time
    /** How often the phone refused to list a directory. */
    ghost var balks: nat

    ghost predicate Inv()
      reads this, cache
    {
      AllCoherent(su, dev, cache.storages)
    }

    lemma InvIsValid()
      requires Inv()
      ensures |dev| == |su.storages| && AllValid(dev)
    {
    }

    ghost predicate InvExcept(idx: nat, open: set<Handle>)
      reads this, cache
    {
      CacheOk(su, dev, cache.storages, idx, open)
    }

    /** A fresh session: the storage table was read, nothing is cached. */
    constructor (su: Setup, dev: Dev)
      requires DistinctIds(su) && |dev| == |su.storages|
      requires forall i :: 0 <= i < |dev| ==> Valid(dev[i])
      ensures Inv() && this.su == su && this.dev == dev
      ensures fresh(cache)
    {
      this.su := su;
      this.dev := dev;
      this.clock := 0;
      this.balks := 0;
      this.cache := new MetaCache();
    }

    method Now() returns (t: Time)
      modifies this`clock
      ensures t == clock >= old(clock)
    {
      var elapsed: nat :| elapsed >= 0;
      clock := clock + elapsed;
      t := clock;
    }

    /** Drops one listing after a change to storage `idx` that touched only `d` beyond `open`. */
    method Repair(idx: nat, d: Handle, ghost open: set<Handle>)
      requires idx < |su.storages| && InvExcept(idx, open)
      modifies cache
      ensures InvExcept(idx, open - {d})
    {
      var sid := su.storages[idx].id;
      ForgetCoherent(su.phone, dev[idx], SlotOf(cache.storages, sid), open, d);
      ForgetSize(SlotOf(cache.storages, sid), d);
      cache.Invalidate(sid, d);
      OneStorage(su, dev, dev, old(cache.storages), cache.storages, idx, open, open - {d});
    }

    /** One mutating request sent to the device. */
    method Send(idx: nat, op: Op, ghost open: set<Handle>) returns (r: Result<Handle>)
      requires idx < |su.storages| && InvExcept(idx, open)
      modifies this`dev
      ensures (dev, r) == (old(dev)[idx := Apply(su.phone, old(dev)[idx], op).0], Apply(su.phone, old(dev)[idx], op).1)
      ensures InvExcept(idx, open + if r.Ok? then Touched(old(dev)[idx], op) else {})
      ensures r.Err? ==> dev == old(dev) && InvExcept(idx, open)
    {
      ApplyCoherent(su.phone, dev[idx], op, SlotOf(cache.storages, su.storages[idx].id), open);
      ApplyValid(su.phone, dev[idx], op);
      var (s, out) := Apply(su.phone, dev[idx], op);
      dev := dev[idx := s];
      r := out;
      OneStorage(su, old(dev), dev, cache.storages, cache.storages, idx, open, open + if r.Ok? then Touched(old(dev)[idx], op) else {});
    }

    /** `children_of`: a fresh listing answers, otherwise the device is asked and the answer kept. */
    method ChildrenOf(idx: nat, dir: Handle, refresh: bool, ghost open: set<Handle>) returns (r: Result<seq<Entry>>)
      requires InvExcept(idx, open) && dir !in open
      modifies this`clock, this`balks, cache
      ensures InvExcept(idx, open)
      ensures Balked(su.phone, old(balks), balks, r.Err?)
      ensures idx < |dev| && balks == old(balks) ==> MayHear(su, dev, idx, dir, r)
      ensures balks > old(balks) ==> idx < |dev| && r.Err? && su.phone.lists(dev[idx], dir) == Some(r.error)
      ensures idx >= |dev| ==> r == Err(InvalidArgument)
      ensures idx < |dev| && r.Ok? ==> dir in SlotOf(cache.storages, su.storages[idx].id).listings
    {
      if idx >= |su.storages| {
        return Err(InvalidArgument);
      }
      var sid := su.storages[idx].id;
      var asked := Now();
      var hit := cache.Hit(sid, dir, asked);
      assert CoherentAt(su.phone, dev[idx], SlotOf(cache.storages, sid), dir);
      if !refresh && hit.Some? {
        return Ok(hit.value);
      }
      r := Fetch(idx, dir, open);
    }

    /** Asks the device, and keeps what it answers. */
    method Fetch(idx: nat, dir: Handle, ghost open: set<Handle>) returns (r: Result<seq<Entry>>)
      requires InvExcept(idx, open) && dir !in open && idx < |su.storages| == |dev|
      modifies this`clock, this`balks, cache
      ensures InvExcept(idx, open)
      ensures Balked(su.phone, old(balks), balks, r.Err?)
      ensures balks == old(balks) ==> r == ListObjects(su.phone, dev[idx], dir)
      ensures balks > old(balks) ==> r.Err? && su.phone.lists(dev[idx], dir) == Some(r.error)
      ensures r.Ok? ==> dir in SlotOf(cache.storages, su.storages[idx].id).listings
    {
      hide CoherentAt, Entries, Valid, ListObjects;
      r := AskListing(su.phone, dev[idx], dir);
      if su.phone.lists(dev[idx], dir).Some? {
        balks := balks + 1;
        return;
      }
      if r.Ok? {
        var sid := su.storages[idx].id;
        var answered := Now();
        ghost var before := SlotOf(cache.storages, sid);
        cache.StoreListing(sid, dir, r.value, answered);
        ghost var after := SlotOf(cache.storages, sid);
        StoreCoherent(su.phone, dev[idx], before, after, open, dir, answered);
        StoreKeepsCap(before, after, dir, r.value, answered);
        assert open - {dir} == open;
        OneStorage(su, dev, dev, old(cache.storages), cache.storages, idx, open, open);
      }
    }

    method Children(idx: nat, dir: Handle, refresh: bool) returns (r: Result<seq<Entry>>)
      requires Inv() && idx < |su.storages|
      modifies this`clock, this`balks, cache
      ensures Inv() && Balked(su.phone, old(balks), balks, r.Err?)
      ensures Listable(dev[idx], dir) && balks == old(balks) ==> r == ListHandle(su, dev, idx, dir)
      ensures !Listable(dev[idx], dir) ==> r.Err? || r == Ok([])
      ensures r.Ok? ==> dir in SlotOf(cache.storages, su.storages[idx].id).listings
    {
      SameMeaning(su, dev, cache.storages, 0, idx);
      r := ChildrenOf(idx, dir, refresh, {});
      SameMeaning(su, dev, cache.storages, idx, 0);
    }

    /** Creates one directory and drops the parent's listing. */
    method CreateFolder(idx: nat, parent: Handle, name: string) returns (r: Result<Handle>)
      requires Inv() && idx < |su.storages|
      modifies this`dev, cache
      ensures Inv()
      ensures dev == old(dev)[idx := Apply(su.phone, old(dev)[idx], Create(parent, name)).0]
      ensures r == Apply(su.phone, old(dev)[idx], Create(parent, name)).1
    {
      SameMeaning(su, dev, cache.storages, 0, idx);
      r := Send(idx, Create(parent, name), {});
      if r.Ok? {
        Repair(idx, parent, {parent});
        assert {parent} - {parent} == {};
      }
      SameMeaning(su, dev, cache.storages, idx, 0);
    }

    /** The loop shared by `resolve`, `list` and `walk_to_parent`. */
    method WalkSegments(idx: nat, segs: seq<string>, dirsOnly: bool, refresh: bool) returns (r: Result<Handle>)
      requires Inv() && idx < |su.storages|
      modifies this`clock, this`balks, cache
      ensures Inv() && Balked(su.phone, old(balks), balks, r.Err?)
      ensures balks == old(balks) ==> r == Walk(su.phone, dev[idx], ROOT, segs, dirsOnly)
      ensures r.Ok? ==> Listable(dev[idx], r.value)
    {
      var cur := ROOT;
      for k := 0 to |segs|
        invariant Inv() && Listable(dev[idx], cur) && balks == old(balks)
        invariant Walk(su.phone, dev[idx], ROOT, segs, dirsOnly) == Walk(su.phone, dev[idx], cur, segs[k..], dirsOnly)
      {
        var entries := Children(idx, cur, refresh);
        if entries.Err? {
          return Err(entries.error);
        }
        var found := ChildByName(su.phone.folding, entries.value, segs[k]);
        assert segs[k..][1..] == segs[k + 1..];
        if found.None? {
          return Err(NotFound);
        }
        if dirsOnly && !found.value.isDir {
          return Err(WrongKind);
        }
        ChildIsListed(su.phone.folding, entries.value, segs[k]);
        EntriesAreKids(su.phone, Kids(dev[idx], cur), found.value);
        cur := found.value.handle;
      }
      r := Ok(cur);
    }

    method ResolvePath(raw: string, refresh: bool) returns (r: Result<Resolved>)
      requires Inv()
      modifies this`clock, this`balks, cache
      ensures Inv() && Balked(su.phone, old(balks), balks, r.Err?)
      ensures balks == old(balks) ==> r == Resolve(su, dev, raw)
    {
      var parsed := Paths.Parse(su.chars, raw);
      if parsed.Err? {
        return Err(parsed.error);
      }
      var p := parsed.value;
      if p.IsRoot() {
        return Err(InvalidArgument);
      }
      var found := FindStorageIndex(su, p.storageRef);
      if found.Err? {
        return Err(found.error);
      }
      var idx := found.value;
      if p.segments == [] {
        return Ok(Resolved(idx, ROOT, RootEntry(su, idx)));
      }
      var cur := WalkSegments(idx, p.segments, false, refresh);
      if cur.Err? {
        return Err(cur.error);
      }
      var info := AskInfo(su.phone, dev[idx], cur.value);
      r := if info.Err? then Err(info.error) else Ok(Resolved(idx, cur.value, info.value));
    }

    method ListPath(raw: string, refresh: bool) returns (r: Result<seq<Entry>>)
      requires Inv()
      modifies this`clock, this`balks, cache
      ensures Inv() && Balked(su.phone, old(balks), balks, r.Err?)
      ensures balks == old(balks) ==> r == List(su, dev, raw)
    {
      var parsed := Paths.Parse(su.chars, raw);
      if parsed.Err? {
        return Err(parsed.error);
      }
      var p := parsed.value;
      if p.IsRoot() {
        return Ok(StorageEntries(su));
      }
      var found := FindStorageIndex(su, p.storageRef);
      if found.Err? {
        return Err(found.error);
      }
      var cur := WalkSegments(found.value, p.segments, true, refresh);
      if cur.Err? {
        return Err(cur.error);
      }
      r := Children(found.value, cur.value, refresh);
    }

    /** `walk_to_parent` and the search for the last segment that `remove`, `rename` and
        `move_into` share. */
    method Locate(p: DevPath, idx: nat) returns (r: Result<(Handle, Entry)>)
      requires Inv() && idx < |su.storages|
      modifies this`clock, this`balks, cache
      ensures Inv() && Balked(su.phone, old(balks), balks, r.Err?)
      ensures balks == old(balks) ==> r == FindTarget(su.phone, dev[idx], p)
    {
      hide CacheOk, Entries, Walk;
      var parent := WalkSegments(idx, if p.segments == [] then [] else p.segments[..|p.segments| - 1], false, false);
      if parent.Err? {
        return Err(parent.error);
      }
      var entries := Children(idx, parent.value, false);
      if entries.Err? {
        return Err(entries.error);
      }
      var found := ChildByName(su.phone.folding, entries.value, LastOr(p.segments));
      r := if found.None? then Err(NotFound) else Ok((parent.value, found.value));
    }

    method MkdirPath(raw: string) returns (r: Result<Entry>)
      requires Inv()
      modifies this`dev, this`clock, this`balks, cache
      ensures Inv() && Balked(su.phone, old(balks), balks, r.Err?)
      ensures balks == old(balks) ==> (dev, r) == PlainActor.MkdirAll(su, old(dev), raw)
      ensures balks > old(balks) ==> dev == old(dev)
    {
      var parsed := Paths.Parse(su.chars, raw);
      if parsed.Err? {
        return Err(parsed.error);
      }
      var p := parsed.value;
      if p.IsRoot() {
        return Err(InvalidArgument);
      }
      var found := FindStorageIndex(su, p.storageRef);
      if found.Err? {
        return Err(found.error);
      }
      var leaf := MkdirBelow(found.value, p.segments);
      r := if leaf.Err? then Err(leaf.error) else Ok(Entry(leaf.value, 0, LastOr(p.segments), true, 0));
    }

    method MkdirBelow(idx: nat, segs: seq<string>) returns (r: Result<Handle>)
      requires Inv() && idx < |su.storages|
      modifies this`dev, this`clock, this`balks, cache
      ensures Inv() && Balked(su.phone, old(balks), balks, r.Err?)
      ensures balks == old(balks) ==>
          (dev, r) == (old(dev)[idx := MkdirWalk(su.phone, old(dev)[idx], ROOT, segs).0], MkdirWalk(su.phone, old(dev)[idx], ROOT, segs).1)
      ensures balks > old(balks) ==> dev == old(dev)
    {
      hide CacheOk, Entries, Valid, CreateAll;
      InvIsValid();
      assert dev[idx := dev[idx]] == dev;
      var cur := ROOT;
      for depth := 0 to |segs|
        invariant Inv() && dev == old(dev) && Listable(dev[idx], cur) && balks == old(balks)
        invariant MkdirWalk(su.phone, dev[idx], ROOT, segs) == MkdirWalk(su.phone, dev[idx], cur, segs[depth..])
      {
        var entries := Children(idx, cur, false);
        if entries.Err? {
          return Err(entries.error);
        }
        var child := ChildByName(su.phone.folding, entries.value, segs[depth]);
        assert segs[depth..][1..] == segs[depth + 1..];
        if child.None? {
          r := CreateMissing(idx, cur, segs[depth..]);
          return;
        }
        if !child.value.isDir {
          return Err(WrongKind);
        }
        ChildIsListed(su.phone.folding, entries.value, segs[depth]);
        EntriesAreKids(su.phone, Kids(dev[idx], cur), child.value);
        cur := child.value.handle;
      }
      r := Ok(cur);
    }

    /** The inner loop of `mkdir_all`: create everything from here down. */
    method CreateMissing(idx: nat, start: Handle, segs: seq<string>) returns (r: Result<Handle>)
      requires Inv() && idx < |su.storages|
      modifies this`dev, cache
      ensures Inv() && dev == old(dev)[idx := CreateAll(su.phone, old(dev)[idx], start, segs).0]
      ensures r == CreateAll(su.phone, old(dev)[idx], start, segs).1
    {
      var cur := start;
      for k := 0 to |segs|
        invariant Inv() && |dev| == |old(dev)| && dev == old(dev)[idx := dev[idx]]
        invariant CreateAll(su.phone, old(dev)[idx], start, segs) == CreateAll(su.phone, dev[idx], cur, segs[k..])
      {
        assert segs[k..][1..] == segs[k + 1..];
        var h := CreateFolder(idx, cur, segs[k]);
        if h.Err? {
          return h;
        }
        cur := h.value;
      }
      r := Ok(cur);
    }

    /** `delete_tree`. While it runs, the listings of the directories still open on the path may
        be stale; `open` names those above `dir`. On success only the listing that showed `dir` is
        left to repair; on failure nothing outside the subtree is stale. */
    method DeleteBelow(idx: nat, dir: Handle, ghost rank: map<Handle, nat>, ghost open: set<Handle>) returns (r: Result<nat>)
      requires idx < |su.storages| == |dev| && InvExcept(idx, open)
      requires Ranks(dev[idx].objects, rank) && dir in dev[idx].objects && dev[idx].objects[dir].isDir
      requires forall o :: o in open && o in rank ==> rank[dir] < rank[o]
      modifies this`dev, this`clock, this`balks, cache
      ensures OnlyAt(old(dev), dev, idx) && Balked(su.phone, old(balks), balks, r.Err?)
      ensures Reduced(old(dev)[idx], dev[idx])
      ensures balks == old(balks) ==> (dev[idx], r) == DeleteTree(su.phone, old(dev)[idx], rank, dir)
      ensures r.Ok? ==> InvExcept(idx, open + {old(dev)[idx].objects[dir].parent})
      ensures r.Err? ==> InvExcept(idx, open + Subtree(old(dev)[idx].objects, dir))
      ensures r.Err? && dev[idx] == old(dev)[idx] ==> InvExcept(idx, open)
      decreases rank[dir], 1, 0
    {
      hide CacheOk, Pending, Rest, Ranks, Reaches, DeleteTree, Valid;
      StoreIsValid(su, dev, cache.storages, idx, open);
      ghost var was, s := dev, dev[idx];
      PendingAtStart(su.phone, s, rank, dir);
      SubtreeSplits(su.phone, s, dir);
      TreeIsRestThenTop(su.phone, s, rank, dir);
      var entries := ChildrenOf(idx, dir, false, open);
      OnlyAtSelf(dev, idx);
      if entries.Err? {
        Wider(su, dev, cache.storages, idx, open, open + Subtree(s.objects, dir));
        return Err(entries.error);
      }
      ghost var whole := Below(s.objects, entries.value);
      ghost var stale;
      r, stale := DeleteInside(idx, dir, entries.value, rank, open, Rest(su.phone, s, rank, dir, entries.value), whole);
      if r.Err? {
        Wider(su, dev, cache.storages, idx, open + {dir} + whole, open + Subtree(s.objects, dir));
        return;
      }
      var count := r.value;
      ghost var inside := dev;
      var gone := Send(idx, Delete(dir), stale);
      OnlyAtTwice(was, inside, dev, idx);
      if gone.Err? {
        Wider(su, dev, cache.storages, idx, stale, open + Subtree(s.objects, dir));
        return Err(gone.error);
      }
      Repair(idx, dir, stale + {s.objects[dir].parent});
      Wider(su, dev, cache.storages, idx, stale + {s.objects[dir].parent} - {dir}, open + {s.objects[dir].parent});
      r := Ok(count + 1);
    }

    /** The loop of `delete_tree` over the children it listed. */
    method DeleteInside(idx: nat, dir: Handle, es: seq<Entry>, ghost rank: map<Handle, nat>, ghost open: set<Handle>,
        ghost goal: (Store, Result<nat>), ghost whole: set<Handle>) returns (r: Result<nat>, ghost stale: set<Handle>)
      requires idx < |su.storages| == |dev| && InvExcept(idx, open)
      requires Pending(su.phone, dev[idx], rank, dir, es, 0, goal, whole)
      requires forall o :: o in open && o in rank ==> rank[dir] < rank[o]
      modifies this`dev, this`clock, this`balks, cache
      ensures OnlyAt(old(dev), dev, idx) && Balked(su.phone, old(balks), balks, r.Err?)
      ensures Reduced(old(dev)[idx], dev[idx])
      ensures balks == old(balks) ==> (dev[idx], r) == goal
      ensures r.Ok? ==> InvExcept(idx, stale) && StaleAt(old(dev)[idx], dev[idx], dir, open, stale)
      ensures r.Err? ==> InvExcept(idx, open + {dir} + whole)
      ensures r.Err? && dev[idx] == old(dev)[idx] ==> InvExcept(idx, open)
      decreases rank[dir], 0, 1
    {
      hide CacheOk, Pending, Rest, Ranks, Shrunk;
      OnlyAtSelf(dev, idx);
      ghost var s := dev[idx];
      var count := 0;
      assert es[0..] == es;
      stale := open;
      for k := 0 to |es|
        invariant OnlyAt(old(dev), dev, idx) && balks == old(balks) && Reduced(s, dev[idx])
        invariant InvExcept(idx, stale) && StaleAt(s, dev[idx], dir, open, stale)
        invariant Pending(su.phone, dev[idx], rank, dir, es[k..], count, goal, whole)
      {
        ghost var was := dev;
        assert es[k..][0] == es[k] && es[k..][1..] == es[k + 1..];
        var one := DeleteNext(idx, dir, es[k], count, s, rank, open, stale, es[k..], goal, whole);
        OnlyAtTwice(old(dev), was, dev, idx);
        if one.Err? {
          return one, stale;
        }
        count := count + one.value;
        stale := open + {dir};
      }
      PendingFacts(su.phone, dev[idx], rank, dir, es[|es|..], count, goal, whole);
      r := Ok(count);
    }

    /** One turn of that loop, seen from the whole walk. */
    method DeleteNext(idx: nat, dir: Handle, e: Entry, ghost count: nat, ghost s: Store,
        ghost rank: map<Handle, nat>, ghost open: set<Handle>, ghost stale: set<Handle>,
        ghost left: seq<Entry>, ghost goal: (Store, Result<nat>), ghost whole: set<Handle>) returns (one: Result<nat>)
      requires idx < |su.storages| == |dev| && InvExcept(idx, stale) && left != [] && left[0] == e
      requires StaleAt(s, dev[idx], dir, open, stale)
      requires Pending(su.phone, dev[idx], rank, dir, left, count, goal, whole)
      requires forall o :: o in open && o in rank ==> rank[dir] < rank[o]
      modifies this`dev, this`clock, this`balks, cache
      ensures OnlyAt(old(dev), dev, idx) && Reduced(old(dev)[idx], dev[idx])
      ensures one.Ok? ==> Pending(su.phone, dev[idx], rank, dir, left[1..], count + one.value, goal, whole)
      ensures one.Ok? ==> InvExcept(idx, open + {dir}) && StaleAt(s, dev[idx], dir, open, open + {dir})
      ensures Balked(su.phone, old(balks), balks, one.Err?)
      ensures one.Err? && balks == old(balks) ==> goal == (dev[idx], one)
      ensures one.Err? ==> InvExcept(idx, open + {dir} + whole)
      ensures one.Err? && dev[idx] == s ==> InvExcept(idx, open)
      decreases rank[dir], 0, 0
    {
      hide CacheOk, Pending, DeleteEntry, Rest, Ranks, Subtree;
      ghost var now := dev[idx];
      PendingFacts(su.phone, now, rank, dir, left, count, goal, whole);
      PendingStep(su.phone, now, rank, dir, left, count, goal, whole);
      one := DeleteOne(idx, e, rank, stale);
      if one.Err? {
        Wider(su, dev, cache.storages, idx, stale + Subtree(now.objects, e.handle), open + {dir} + whole);
      } else {
        assert stale + {dir} == open + {dir};
      }
    }

    /** One turn of the loop of `delete_tree`. */
    method DeleteOne(idx: nat, e: Entry, ghost rank: map<Handle, nat>, ghost open: set<Handle>) returns (r: Result<nat>)
      requires idx < |su.storages| == |dev| && InvExcept(idx, open)
      requires Ranks(dev[idx].objects, rank) && e.handle in dev[idx].objects && dev[idx].objects[e.handle].isDir == e.isDir
      requires forall o :: o in open && o in rank ==> rank[e.handle] < rank[o]
      modifies this`dev, this`clock, this`balks, cache
      ensures OnlyAt(old(dev), dev, idx)
      ensures Balked(su.phone, old(balks), balks, r.Err?)
      ensures Reduced(old(dev)[idx], dev[idx])
      ensures balks == old(balks) ==> (dev[idx], r) == DeleteEntry(su.phone, old(dev)[idx], rank, e)
      ensures r.Ok? ==> InvExcept(idx, open + {old(dev)[idx].objects[e.handle].parent})
      ensures r.Err? ==> InvExcept(idx, open + Subtree(old(dev)[idx].objects, e.handle))
      ensures r.Err? && dev[idx] == old(dev)[idx] ==> InvExcept(idx, open)
      decreases rank[e.handle], 2, 0
    {
      if e.isDir {
        r := DeleteBelow(idx, e.handle, rank, open);
      } else {
        var gone := Send(idx, Delete(e.handle), open);
        r := if gone.Ok? then Ok(1) else Err(gone.error);
        Wider(su, dev, cache.storages, idx, open + (if gone.Ok? then Touched(old(dev)[idx], Delete(e.handle)) else {}),
              open + if gone.Ok? then {old(dev)[idx].objects[e.handle].parent} else Subtree(old(dev)[idx].objects, e.handle));
      }
    }

    method RemovePath(raw: string, recursive: bool) returns (r: Result<nat>)
      requires Inv()
      modifies this`dev, this`clock, this`balks, cache
      ensures Balked(su.phone, old(balks), balks, r.Err?)
      ensures balks == old(balks) ==> (dev, r) == PlainActor.Remove(su, old(dev), raw, recursive) && RemovesPath(su, old(dev), raw, recursive, dev, r)
      ensures r.Ok? || SameObjects(old(dev), dev) ==> Inv()
      ensures Inv() || StaleBelowTarget(su, old(dev), dev, cache.storages, raw)
    {
      hide RemovesPath;
      RemoveRemoves(su, dev, raw, recursive);
      var parsed := Paths.Parse(su.chars, raw);
      if parsed.Err? {
        return Err(parsed.error);
      }
      var p := parsed.value;
      if p.IsRoot() || p.segments == [] {
        return Err(InvalidArgument);
      }
      var found := FindStorageIndex(su, p.storageRef);
      if found.Err? {
        return Err(found.error);
      }
      r := RemoveIn(found.value, p, recursive);
    }

    method RemoveIn(idx: nat, p: DevPath, recursive: bool) returns (r: Result<nat>)
      requires Inv() && idx < |su.storages| == |dev|
      modifies this`dev, this`clock, this`balks, cache
      ensures OnlyAt(old(dev), dev, idx) && Balked(su.phone, old(balks), balks, r.Err?)
      ensures balks == old(balks) ==> (dev[idx], r) == RemoveAt(su.phone, old(dev)[idx], p, recursive)
      ensures r.Ok? || SameObjects(old(dev), dev) ==> Inv()
      ensures Inv() || StaleBelow(su, old(dev), dev, cache.storages, idx, p)
    {
      hide CacheOk, DeleteTree, Ranks, Reaches, Entries;
      SameMeaning(su, dev, cache.storages, 0, idx);
      StoreIsValid(su, dev, cache.storages, idx, {});
      OnlyAtSelf(dev, idx);
      ghost var s := dev[idx];
      var located := Locate(p, idx);
      if located.Err? {
        return Err(located.error);
      }
      var (parent, target) := located.value;
      TargetIsKid(su.phone, s, p);
      SameMeaning(su, dev, cache.storages, 0, idx);
      if target.isDir {
        if !recursive {
          return Err(WrongKind);
        }
        ghost var rank := SomeRank(s.objects);
        DeleteTreeExact(su.phone, s, rank, target.handle);
        r := DeleteBelow(idx, target.handle, rank, {});
        if r.Err? {
          assert {} + Subtree(s.objects, target.handle) == Subtree(s.objects, target.handle);
          assert InvExcept(idx, Subtree(old(dev)[idx].objects, target.handle));
          if SameObjects(old(dev), dev) {
            assert dev[idx] == s;
            SameMeaning(su, dev, cache.storages, idx, 0);
          }
          return;
        }
      } else {
        var gone := Send(idx, Delete(target.handle), {});
        if gone.Err? {
          SameMeaning(su, dev, cache.storages, idx, 0);
          return Err(gone.error);
        }
        r := Ok(1);
      }
      assert {} + {parent} == {parent};
      Repair(idx, parent, {parent});
      assert {parent} - {parent} == {};
      SameMeaning(su, dev, cache.storages, idx, 0);
    }

    /** `rename_handle`. A source directory that is gone may still be answered from its empty
        listing: an error either way, but not the same one. */
    method RenameByHandle(idx: nat, fromParent: Handle, fromName: string, toParent: Handle, toName: string) returns (r: Result<Entry>)
      requires Inv()
      modifies this`dev, this`clock, this`balks, cache
      ensures Inv() && Balked(su.phone, old(balks), balks, r.Err?)
      ensures idx < |old(dev)| && (!Listable(old(dev)[idx], fromParent) || balks > old(balks)) ==> r.Err? && dev == old(dev)
      ensures (idx < |old(dev)| ==> Listable(old(dev)[idx], fromParent)) && balks == old(balks) ==>
          (dev, r) == RenameHandle(su, old(dev), idx, fromParent, fromName, toParent, toName)
    {
      hide CacheOk, Entries, Valid;
      InvIsValid();
      if idx >= |su.storages| {
        return Err(InvalidArgument);
      }
      OnlyAtSelf(dev, idx);
      var entries := Children(idx, fromParent, false);
      if entries.Err? {
        return Err(entries.error);
      }
      var src := ChildByName(su.phone.folding, entries.value, fromName);
      if src.None? {
        return Err(NotFound);
      }
      ChildIsListed(su.phone.folding, entries.value, fromName);
      EntriesAreKids(su.phone, Kids(dev[idx], fromParent), src.value);
      r := RelocateAt(idx, src.value.handle, fromParent, toParent, fromName, toName);
    }

    /** Moves one object and drops both directories' listings. */
    method MoveObject(idx: nat, h: Handle, from: Handle, to: Handle) returns (r: Result<Handle>)
      requires Inv() && idx < |su.storages| == |dev|
      requires h in dev[idx].objects && dev[idx].objects[h].parent == from
      modifies this`dev, cache
      ensures Inv()
      ensures (dev, r) == (old(dev)[idx := Apply(su.phone, old(dev)[idx], Move(h, to)).0], Apply(su.phone, old(dev)[idx], Move(h, to)).1)
    {
      hide CacheOk, Valid, Apply;
      SameMeaning(su, dev, cache.storages, 0, idx);
      r := Send(idx, Move(h, to), {});
      if r.Ok? {
        Repair(idx, from, {} + ({from} + {to}));
        Repair(idx, to, {} + ({from} + {to}) - {from});
        assert {} + ({from} + {to}) - {from} - {to} == {};
      }
      SameMeaning(su, dev, cache.storages, idx, 0);
    }

    method RelocateAt(idx: nat, h: Handle, fromParent: Handle, toParent: Handle, fromName: string,
        toName: string) returns (r: Result<Entry>)
      requires Inv() && idx < |su.storages| == |dev|
      requires h in dev[idx].objects && dev[idx].objects[h].parent == fromParent
      modifies this`dev, cache
      ensures Inv() && OnlyAt(old(dev), dev, idx)
      ensures (dev[idx], r) == Relocate(su.phone, old(dev)[idx], h, fromParent, toParent, fromName, toName)
    {
      hide CacheOk, Entries, Valid;
      OnlyAtSelf(dev, idx);
      if fromParent != toParent {
        var moved := MoveObject(idx, h, fromParent, toParent);
        if moved.Err? {
          return Err(moved.error);
        }
      }
      SameMeaning(su, dev, cache.storages, 0, idx);
      assert h in dev[idx].objects && dev[idx].objects[h].parent == toParent;
      if fromName != toName {
        ghost var was := dev;
        var named := Send(idx, Rename(h, toName), {});
        OnlyAtTwice(old(dev), was, dev, idx);
        if named.Err? {
          SameMeaning(su, dev, cache.storages, idx, 0);
          return Err(named.error);
        }
        Repair(idx, toParent, {} + {toParent});
        assert {} + {toParent} - {toParent} == {};
      }
      SameMeaning(su, dev, cache.storages, idx, 0);
      r := AskInfo(su.phone, dev[idx], h);
    }

    method RenameByPath(raw: string, newName: string) returns (r: Result<Entry>)
      requires Inv()
      modifies this`dev, this`clock, this`balks, cache
      ensures Inv() && Balked(su.phone, old(balks), balks, r.Err?)
      ensures balks == old(balks) ==> (dev, r) == PlainActor.RenamePath(su, old(dev), raw, newName) && RenamesPath(su, old(dev), raw, newName, dev, r)
      ensures balks > old(balks) ==> dev == old(dev)
    {
      hide CacheOk, Entries, Valid, Walk, RenamesPath;
      InvIsValid();
      RenameRenames(su, dev, raw, newName);
      var parsed := Paths.Parse(su.chars, raw);
      if parsed.Err? {
        return Err(parsed.error);
      }
      var p := parsed.value;
      if p.IsRoot() || p.segments == [] {
        return Err(InvalidArgument);
      }
      if '/' in newName {
        return Err(InvalidArgument);
      }
      var found := FindStorageIndex(su, p.storageRef);
      if found.Err? {
        return Err(found.error);
      }
      var idx := found.value;
      var located := Locate(p, idx);
      if located.Err? {
        return Err(located.error);
      }
      var (parent, target) := located.value;
      TargetIsKid(su.phone, dev[idx], p);
      SameMeaning(su, dev, cache.storages, 0, idx);
      assert dev[idx := dev[idx]] == dev;
      var named := Send(idx, Rename(target.handle, newName), {});
      if named.Err? {
        SameMeaning(su, dev, cache.storages, idx, 0);
        return Err(named.error);
      }
      Repair(idx, parent, {} + {parent});
      assert {} + {parent} - {parent} == {};
      SameMeaning(su, dev, cache.storages, idx, 0);
      r := AskInfo(su.phone, dev[idx], target.handle);
    }

    method MoveByPath(srcRaw: string, dstRaw: string) returns (r: Result<Entry>)
      requires Inv()
      modifies this`dev, this`clock, this`balks, cache
      ensures Inv() && Balked(su.phone, old(balks), balks, r.Err?)
      ensures balks == old(balks) ==> (dev, r) == PlainActor.MoveInto(su, old(dev), srcRaw, dstRaw) && MovesPath(su, old(dev), srcRaw, dstRaw, dev, r)
      ensures balks > old(balks) ==> dev == old(dev)
    {
      hide CacheOk, Entries, Valid, Walk, MovesPath, Paths.ParseSpec, FindStorageIndex, ListObjects, Resolve;
      InvIsValid();
      MoveMoves(su, dev, srcRaw, dstRaw);
      var parsed := Paths.Parse(su.chars, srcRaw);
      if parsed.Err? {
        return Err(parsed.error);
      }
      var parsedDst := Paths.Parse(su.chars, dstRaw);
      if parsedDst.Err? {
        return Err(parsedDst.error);
      }
      var src, dst := parsed.value, parsedDst.value;
      if src.IsRoot() || dst.IsRoot() || src.segments == [] || dst.segments == [] {
        return Err(InvalidArgument);
      }
      var i := FindStorageIndex(su, src.storageRef);
      if i.Err? {
        return Err(i.error);
      }
      var j := FindStorageIndex(su, dst.storageRef);
      if j.Err? {
        return Err(j.error);
      }
      if i.value != j.value {
        return Err(InvalidArgument);
      }
      var idx := i.value;
      var located := Locate(src, idx);
      if located.Err? {
        return Err(located.error);
      }
      var (parent, target) := located.value;
      TargetIsKid(su.phone, dev[idx], src);
      var dir := ResolvePath(dstRaw, false);
      if dir.Err? {
        return Err(dir.error);
      }
      if !dir.value.entry.isDir {
        return Err(WrongKind);
      }
      var to := dir.value.handle;
      assert dev[idx := dev[idx]] == dev;
      var moved := MoveObject(idx, target.handle, parent, to);
      if moved.Err? {
        return Err(moved.error);
      }
      r := AskInfo(su.phone, dev[idx], target.handle);
    }

    /** `upload_into`. After an error the cache is coherent exactly when no object stays behind,
        which the phone's answers to the upload and to the clean-up decide, or the parent's listing
        was not cached. */
    method UploadFile(idx: nat, parent: Handle, name: string, size: nat, stream: Bytes) returns (r: Result<Entry>)
      requires Inv()
      modifies this`dev, cache
      ensures (dev, r) == UploadInto(su, old(dev), idx, parent, name, size, stream)
      ensures r.Ok? ==> Inv()
      ensures r.Err? && idx < |su.storages| ==>
          (Inv() <==> !LeavesPart(su.phone, old(dev)[idx], parent, name, size, stream)
                      || parent !in SlotOf(old(cache.storages), su.storages[idx].id).listings)
      ensures idx >= |su.storages| ==> Inv() && dev == old(dev)
    {
      hide CacheOk, CoherentExcept, Entries, Valid, Apply;
      InvIsValid();
      if idx >= |su.storages| {
        return Err(InvalidArgument);
      }
      ghost var s := dev[idx];
      UploadKeepsInv(su, dev, cache.storages, idx, parent, name, size, stream);
      assert dev[idx := dev[idx]] == dev;
      if !IsDirectory(dev[idx], parent) {
        return Err(StaleHandle);
      }
      match su.phone.upload(dev[idx], parent, name, size, stream) {
        case Refused(e) => return Err(e);
        case Partial(sent, e) =>
          var kept := if sent <= |stream| then stream[..sent] else stream;
          var partial := dev[idx].next;
          dev := dev[idx := Add(dev[idx], Object(parent, name, false, kept))];
          dev := dev[idx := Apply(su.phone, dev[idx], Delete(partial)).0];
          assert dev == old(dev)[idx := Upload(su.phone, s, parent, name, size, stream).0];
          return Err(e);
        case Accepted =>
      }
      var uploaded := dev[idx].next;
      dev := dev[idx := Add(dev[idx], Object(parent, name, false, stream))];
      if |stream| != size {
        dev := dev[idx := Apply(su.phone, dev[idx], Delete(uploaded)).0];
        assert dev == old(dev)[idx := Upload(su.phone, s, parent, name, size, stream).0];
        return Err(Mtp);
      }
      cache.Invalidate(su.storages[idx].id, parent);
      r := AskInfo(su.phone, dev[idx], uploaded);
    }

    /** `HDelete`: on success the directory that showed the object loses its listing. */
    method DeleteByHandle(idx: nat, h: Handle) returns (r: Result<()>)
      requires Inv()
      modifies this`dev, cache
      ensures Inv() && (dev, r) == DeleteHandle(su, old(dev), idx, h)
    {
      hide CacheOk, CoherentExcept, Valid;
      InvIsValid();
      if idx >= |su.storages| {
        return Err(InvalidArgument);
      }
      var sid := su.storages[idx].id;
      ghost var s := dev[idx];
      ghost var c := cache.storages;
      assert dev[idx := dev[idx]] == dev;
      var (after, gone) := Apply(su.phone, dev[idx], Delete(h));
      dev := dev[idx := after];
      if gone.Err? {
        return Err(gone.error);
      }
      cache.InvalidateHandle(sid, h);
      DeleteKeepsInv(su, old(dev), c, cache.storages, idx, h);
      r := Ok(());
    }

    method MakeDirByHandle(idx: nat, parent: Handle, name: string) returns (r: Result<Entry>)
      requires Inv()
      modifies this`dev, cache
      ensures Inv() && (dev, r) == MakeDir(su, old(dev), idx, parent, name)
    {
      hide CacheOk, CoherentExcept, Valid;
      InvIsValid();
      if idx >= |su.storages| {
        return Err(InvalidArgument);
      }
      var made := CreateFolder(idx, parent, name);
      r := if made.Err? then Err(made.error) else Ok(Entry(made.value, parent, name, true, 0));
    }

    /** `download`: copies the pieces the device delivers, and rejects a stream that breaks or ends
        early. */
    method DownloadInto(target: Resolved) returns (r: Result<Bytes>)
      requires |dev| == |su.storages|
      ensures r == Download(su, dev, target) && Downloads(su, dev, target.storageIndex, target.handle, r)
    {
      hide Downloads;
      DownloadDownloads(su, dev, target);
      if target.storageIndex >= |su.storages| {
        return Err(InvalidArgument);
      }
      var s := dev[target.storageIndex];
      if target.handle !in s.objects {
        return Err(StaleHandle);
      }
      if s.objects[target.handle].isDir {
        return Err(WrongKind);
      }
      var data := s.objects[target.handle].data;
      var pieces := su.phone.chunking(data);
      var written: Bytes := [];
      for k := 0 to |pieces|
        invariant written == data[..Min(Sum(pieces[..k]), |data|)]
      {
        assert pieces[..k + 1][..k] == pieces[..k];
        var piece := data[|written|..Min(|written| + pieces[k], |data|)];
        written := written + piece;
      }
      assert pieces[..|pieces|] == pieces;
      assert written == Delivered(su.phone, data);
      var broken := su.phone.breaks(data);
      if broken.Some? {
        return Err(broken.value);
      }
      if |written| != |data| {
        return Err(Mtp);
      }
      assert written == data;
      r := Ok(written);
    }

    /** `dispatch`: the reply and the device are those of the actor without a cache, for every
        request whose provisos hold, and so what `Serves` says of them; and whatever the request, a
        removed directory listed by handle is answered by the same error or by its last, empty,
        listing. */
    method Dispatch(req: Request) returns (reply: Reply)
      requires Inv() && AllValid(dev) && |dev| == |su.storages|
      modifies this`dev, this`clock, this`balks, cache
      ensures Balked(su.phone, old(balks), balks, IsError(reply))
      ensures Orderly(su, old(dev), req) && balks == old(balks) ==> (dev, reply) == Step(su, old(dev), req) && Inv()
      ensures Orderly(su, old(dev), req) && balks == old(balks) ==> Serves(su, old(dev), req, dev, reply)
      ensures balks > old(balks) && (req.RemovePath? ==> SameObjects(old(dev), dev)) ==> Inv()
      ensures req.HList? && !Orderly(su, old(dev), req) ==>
          Inv() && dev == old(dev) && (IsError(reply) || reply == Listed(Ok([])))
      ensures req.HRename? && !Orderly(su, old(dev), req) ==> Inv() && dev == old(dev) && IsError(reply)
    {
      hide CacheOk, Valid, Resolve, List, Download, UploadInto, RenameHandle, MakeDir, DeleteHandle, LeavesPart, Serves;
      hide PlainActor.MkdirAll, PlainActor.Remove, PlainActor.RenamePath, PlainActor.MoveInto;
      StepServes(su, dev, req);
      match req {
        case Shutdown => reply := Done(Ok(()));
        case Ping => reply := Done(PingReply(su, dev));
        case Storages => reply := Table(su.storages);
        case HList(_, _) => reply := DispatchByHandle(req);
        case HInfo(_, _) => reply := DispatchByHandle(req);
        case HRead(_, _, _, _) => reply := DispatchByHandle(req);
        case HDelete(_, _) => reply := DispatchByHandle(req);
        case HUpload(_, _, _, _, _) => reply := DispatchByHandle(req);
        case HMkdir(_, _, _) => reply := DispatchByHandle(req);
        case HRename(_, _, _, _, _) => reply := DispatchByHandle(req);
        case ListDir(_, _) => reply := DispatchByPath(req);
        case ResolvePath(_, _) => reply := DispatchByPath(req);
        case DownloadFile(_) => reply := DispatchByPath(req);
        case UploadFile(_, _, _, _) => reply := DispatchByPath(req);
        case _ => reply := DispatchChange(req);
      }
    }

    /** The arms of `dispatch` whose requests name handles. */
    method DispatchByHandle(req: Request) returns (reply: Reply)
      requires Inv() && AllValid(dev) && |dev| == |su.storages|
      requires req.HList? || req.HInfo? || req.HRead? || req.HDelete? || req.HUpload? || req.HMkdir? || req.HRename?
      modifies this`dev, this`clock, this`balks, cache
      ensures Balked(su.phone, old(balks), balks, IsError(reply))
      ensures Orderly(su, old(dev), req) && balks == old(balks) ==> (dev, reply) == Step(su, old(dev), req) && Inv()
      ensures balks > old(balks) && (req.RemovePath? ==> SameObjects(old(dev), dev)) ==> Inv()
      ensures req.HList? && !Orderly(su, old(dev), req) ==>
          Inv() && dev == old(dev) && (IsError(reply) || reply == Listed(Ok([])))
      ensures req.HRename? && !Orderly(su, old(dev), req) ==> Inv() && dev == old(dev) && IsError(reply)
    {
      hide CacheOk, Valid, Download, UploadInto, RenameHandle, MakeDir, DeleteHandle, LeavesPart;
      match req {
        case HList(i, d) =>
          if i < |dev| {
            var r := Children(i, d, false);
            reply := Listed(r);
          } else {
            reply := Listed(Err(InvalidArgument));
          }
        case HInfo(i, h) => reply := Meta(InfoHandle(su, dev, i, h));
        case HRead(i, h, off, n) => reply := Data(ReadHandle(su, dev, i, h, off, n));
        case HDelete(i, h) => var r := DeleteByHandle(i, h); reply := Done(r);
        case HUpload(i, p, name, size, stream) => var r := this.UploadFile(i, p, name, size, stream); reply := Meta(r);
        case HMkdir(i, p, name) => var r := MakeDirByHandle(i, p, name); reply := Meta(r);
        case HRename(i, fp, fname, tp, tname) => var r := RenameByHandle(i, fp, fname, tp, tname); reply := Meta(r);
      }
    }

    /** The arms that look at paths, and the transfers to and from resolved places. */
    method DispatchByPath(req: Request) returns (reply: Reply)
      requires Inv() && AllValid(dev) && |dev| == |su.storages|
      requires req.ListDir? || req.ResolvePath? || req.DownloadFile? || req.UploadFile?
      modifies this`dev, this`clock, this`balks, cache
      ensures Balked(su.phone, old(balks), balks, IsError(reply))
      ensures Orderly(su, old(dev), req) && balks == old(balks) ==> (dev, reply) == Step(su, old(dev), req) && Inv()
      ensures balks > old(balks) ==> Inv()
    {
      hide CacheOk, Valid, Resolve, List, Download, UploadInto, LeavesPart, Downloads;
      match req {
        case ListDir(path, refresh) => var r := ListPath(path, refresh); reply := Listed(r);
        case ResolvePath(path, refresh) => var r := this.ResolvePath(path, refresh); reply := Located(r);
        case DownloadFile(target) => var r := DownloadInto(target); reply := Data(r);
        case UploadFile(p, name, size, stream) =>
          var r := this.UploadFile(p.storageIndex, p.handle, name, size, stream); reply := Meta(r);
      }
    }

    /** The arms that change what paths name. */
    method DispatchChange(req: Request) returns (reply: Reply)
      requires Inv() && AllValid(dev) && |dev| == |su.storages|
      requires req.MkdirAll? || req.RemovePath? || req.RenamePath? || req.MoveInto?
      modifies this`dev, this`clock, this`balks, cache
      ensures Balked(su.phone, old(balks), balks, IsError(reply))
      ensures Orderly(su, old(dev), req) && balks == old(balks) ==> (dev, reply) == Step(su, old(dev), req) && Inv()
      ensures balks > old(balks) && (req.RemovePath? ==> SameObjects(old(dev), dev)) ==> Inv()
    {
      hide CacheOk, Valid, LeavesPart, SameObjects, StaleBelowTarget, RemovesPath, RenamesPath, MovesPath;
      hide PlainActor.MkdirAll, PlainActor.Remove, PlainActor.RenamePath, PlainActor.MoveInto;
      match req {
        case MkdirAll(path) => var r := MkdirPath(path); reply := Meta(r);
        case RemovePath(path, rec) => var r := this.RemovePath(path, rec); reply := Removed(r);
        case RenamePath(path, name) => var r := RenameByPath(path, name); reply := Meta(r);
        case MoveInto(src, dst) => var r := MoveByPath(src, dst); reply := Meta(r);
      }
    }

    /** The run loop: over every run whose requests meet the provisos, the cached actor is
        indistinguishable from one without a cache, and its cache stays coherent. */
    method Serve(reqs: seq<Request>) returns (replies: seq<Reply>)
      requires Inv() && AllValid(dev) && |dev| == |su.storages| && OrderlyRun(su, dev, reqs) && ListsAll(su.phone)
      modifies this`dev, this`clock, this`balks, cache
      ensures Inv() && AllValid(dev) && |dev| == |su.storages|
      ensures (dev, replies) == Run(su, old(dev), reqs) && ServesRun(su, old(dev), reqs, dev, replies)
    {
      hide CacheOk, Valid, Step, Orderly, Serves, ServesRun;
      InvIsValid();
      RunServes(su, dev, reqs);
      replies := [];
      var running := true;
      var next := 0;
      ghost var dev0 := dev;
      assert reqs[0..] == reqs;
      assert [] + Run(su, dev, reqs).1 == Run(su, dev, reqs).1;
      while running && next < |reqs|
        invariant 0 <= next <= |reqs|
        invariant Inv() && AllValid(dev) && |dev| == |su.storages|
        invariant running ==> OrderlyRun(su, dev, reqs[next..])
        invariant var (d, rest) := Run(su, dev, if running then reqs[next..] else []);
                  Run(su, dev0, reqs) == (d, replies + rest)
        decreases running, |reqs| - next
      {
        assert reqs[next..][0] == reqs[next] && reqs[next..][1..] == reqs[next + 1..];
        if reqs[next].Shutdown? {
          running := false;
        } else {
          StepValid(su, dev, reqs[next]);
          var reply := Dispatch(reqs[next]);
          ghost var (d, rest) := Run(su, dev, reqs[next + 1..]);
          assert replies + ([reply] + rest) == (replies + [reply]) + rest;
          replies := replies + [reply];
          next := next + 1;
        }
      }
      assert replies + [] == replies;
    }
  }

  lemma DeleteKeepsInv(su: Setup, dev: Dev, c: Caches, c': Caches, idx: nat, h: Handle)
    requires AllCoherent(su, dev, c) && idx < |dev| && h in dev[idx].objects
    requires SlotOf(c', su.storages[idx].id) == ForgetHandle(SlotOf(c, su.storages[idx].id), h)
    requires forall sid :: sid != su.storages[idx].id ==> SlotOf(c', sid) == SlotOf(c, sid)
    ensures AllCoherent(su, dev[idx := Apply(su.phone, dev[idx], Delete(h)).0], c')
  {
    var st := SlotOf(c, su.storages[idx].id);
    SameMeaning(su, dev, c, 0, idx);
    ForgetHandleCoherent(su.phone, dev[idx], st, h);
    ApplyValid(su.phone, dev[idx], Delete(h));
    if h in st.parents {
      ForgetSize(st, st.parents[h]);
    }
    var dev' := dev[idx := Apply(su.phone, dev[idx], Delete(h)).0];
    OneStorage(su, dev, dev', c, c', idx, {}, {});
    SameMeaning(su, dev', c', idx, 0);
  }

  /** What an upload does to the joint invariant, success or not. */
  lemma UploadKeepsInv(su: Setup, dev: Dev, c: Caches, idx: nat, parent: Handle, name: string, size: nat, stream: Bytes)
    requires AllCoherent(su, dev, c) && idx < |dev|
    ensures var (t, r) := Upload(su.phone, dev[idx], parent, name, size, stream);
            var sid := su.storages[idx].id;
            var dev' := dev[idx := t];
            && (r.Ok? ==> AllCoherent(su, dev', c[sid := Forget(SlotOf(c, sid), parent)]))
            && (r.Err? ==>
                  (AllCoherent(su, dev', c) <==>
                     !LeavesPart(su.phone, dev[idx], parent, name, size, stream) || parent !in SlotOf(c, sid).listings))
  {
    var (t, r) := Upload(su.phone, dev[idx], parent, name, size, stream);
    var sid := su.storages[idx].id;
    var st := SlotOf(c, sid);
    SameMeaning(su, dev, c, 0, idx);
    UploadCoherent(su.phone, dev[idx], parent, name, size, stream, st);
    LeavesPartIff(su.phone, dev[idx], parent, name, size, stream);
    ForgetSize(st, parent);
    var dev' := dev[idx := t];
    if r.Ok? {
      OneStorage(su, dev, dev', c, c[sid := Forget(st, parent)], idx, {}, {});
      SameMeaning(su, dev', c[sid := Forget(st, parent)], idx, 0);
    } else if t.objects == dev[idx].objects || parent !in st.listings {
      OneStorage(su, dev, dev', c, c, idx, {}, {});
      SameMeaning(su, dev', c, idx, 0);
    } else {
      assert dev'[idx] == t && !Coherent(su.phone, t, st);
      assert !AllCoherent(su, dev', c);
    }
  }
}
