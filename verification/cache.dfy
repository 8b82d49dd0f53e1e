/** The metadata cache: `crates/core/src/cache.rs`. Time is a number of milliseconds. */
module Cache {
  import opened Wrappers
  import opened Phones

  type StorageId = nat
  type Time = nat

  const LIST_TTL: Time := 60_000
  const MAX_LISTINGS: nat := 256

  datatype Listing = Listing(fetchedAt: Time, children: seq<Entry>)

  datatype StorageCache = StorageCache(listings: map<Handle, Listing>, parents: map<Handle, Handle>)

  type Caches = map<StorageId, StorageCache>

  predicate Expired(l: Listing, now: Time) {
    l.fetchedAt + LIST_TTL < now
  }

  /** A storage nobody asked about yet has an empty slot. */
  function SlotOf(c: Caches, sid: StorageId): StorageCache {
    if sid in c then c[sid] else StorageCache(map[], map[])
  }

  function FreshListings(st: StorageCache, now: Time): map<Handle, Listing> {
    map d | d in st.listings && !Expired(st.listings[d], now) :: st.listings[d]
  }

  /** The child-to-directory facts a listing teaches; the listing's key is what is learned. */
  function Learn(parents: map<Handle, Handle>, children: seq<Entry>, dir: Handle): map<Handle, Handle> {
    if children == [] then parents
    else Learn(parents, children[..|children| - 1], dir)[children[|children| - 1].handle := dir]
  }

  lemma {:induction false} Learned(parents: map<Handle, Handle>, children: seq<Entry>, dir: Handle, h: Handle)
    ensures var after := Learn(parents, children, dir);
            if exists e :: e in children && e.handle == h then h in after && after[h] == dir
            else (h in after <==> h in parents) && (h in after ==> after[h] == parents[h])
  {
    if children != [] {
      var init, last := children[..|children| - 1], children[|children| - 1];
      Learned(parents, init, dir, h);
      assert forall e :: e in children <==> e in init || e == last;
    }
  }

  /** What a store leaves: the fresh listings, less the oldest one when the cap is reached by a
      new directory, plus the new listing, and what the children taught. */
  ghost predicate StoredAs(before: StorageCache, after: StorageCache, dir: Handle, children: seq<Entry>, now: Time) {
    var live := FreshListings(before, now);
    && after.parents == Learn(before.parents, children, dir)
    && dir in after.listings && after.listings[dir] == Listing(now, children)
    && (if |live| >= MAX_LISTINGS && dir !in live then
          exists oldest :: && oldest in live
                           && (forall d :: d in live ==> live[oldest].fetchedAt <= live[d].fetchedAt)
                           && after.listings == (live - {oldest})[dir := Listing(now, children)]
        else
          after.listings == live[dir := Listing(now, children)])
  }

  /** Storing never takes a storage over the cap. */
  lemma StoreKeepsCap(before: StorageCache, after: StorageCache, dir: Handle, children: seq<Entry>, now: Time)
    requires StoredAs(before, after, dir, children, now)
    requires |before.listings| <= MAX_LISTINGS
    ensures |after.listings| <= MAX_LISTINGS
  {
    hide FreshListings, Learn;
    var live := FreshListings(before, now);
    FreshAreFewer(before, now);
    if |live| >= MAX_LISTINGS && dir !in live {
      var oldest :| oldest in live && after.listings == (live - {oldest})[dir := Listing(now, children)];
      WithoutOne(live, oldest);
      WithOne(live - {oldest}, dir, Listing(now, children));
    } else {
      WithOne(live, dir, Listing(now, children));
    }
  }

  lemma FreshAreFewer(st: StorageCache, now: Time)
    ensures |FreshListings(st, now)| <= |st.listings|
  {
    SubsetSize(FreshListings(st, now).Keys, st.listings.Keys);
  }

  lemma WithoutOne(m: map<Handle, Listing>, d: Handle)
    requires d in m
    ensures |m - {d}| == |m| - 1
  {
    assert (m - {d}).Keys == m.Keys - {d};
  }

  lemma WithOne(m: map<Handle, Listing>, d: Handle, l: Listing)
    ensures |m[d := l]| == if d in m then |m| else |m| + 1
  {
    assert m[d := l].Keys == m.Keys + {d};
  }

  lemma SubsetSize<T>(a: set<T>, b: set<T>)
    requires a <= b
    ensures |a| <= |b|
  {
    assert |b| == |a| + |b - a| by {
      assert b == a + (b - a);
    }
  }

  class MetaCache {
    var storages: Caches

    constructor ()
      ensures storages == map[]
    {
      storages := map[];
    }

    /** `listing`: a hit only while the listing is no older than `LIST_TTL`. */
    function Hit(sid: StorageId, dir: Handle, now: Time): Option<seq<Entry>>
      reads this
    {
      if sid !in storages || dir !in storages[sid].listings then None
      else if Expired(storages[sid].listings[dir], now) then None
      else Some(storages[sid].listings[dir].children)
    }

    method StoreListing(sid: StorageId, dir: Handle, children: seq<Entry>, now: Time)
      modifies this
      ensures StoredAs(SlotOf(old(storages), sid), SlotOf(storages, sid), dir, children, now)
      ensures storages == old(storages)[sid := SlotOf(storages, sid)]
    {
      var st := SlotOf(storages, sid);
      var listings := FreshListings(st, now);
      if |listings| >= MAX_LISTINGS && dir !in listings {
        var oldest := Oldest(listings);
        listings := listings - {oldest};
      }
      var parents := st.parents;
      for i := 0 to |children|
        invariant parents == Learn(st.parents, children[..i], dir)
      {
        assert children[..i + 1][..i] == children[..i];
        parents := parents[children[i].handle := dir];
      }
      assert children[..|children|] == children;
      listings := listings[dir := Listing(now, children)];
      storages := storages[sid := StorageCache(listings, parents)];
    }

    static method Oldest(listings: map<Handle, Listing>) returns (oldest: Handle)
      requires listings != map[]
      ensures oldest in listings
      ensures forall d :: d in listings ==> listings[oldest].fetchedAt <= listings[d].fetchedAt
    {
      oldest :| oldest in listings;
      var rest := listings.Keys - {oldest};
      while rest != {}
        invariant oldest in listings && rest <= listings.Keys
        invariant forall d :: d in listings && d !in rest ==> listings[oldest].fetchedAt <= listings[d].fetchedAt
        decreases rest
      {
        var d :| d in rest;
        if listings[d].fetchedAt < listings[oldest].fetchedAt {
          oldest := d;
        }
        rest := rest - {d};
      }
    }

    function ParentOf(sid: StorageId, handle: Handle): Option<Handle>
      reads this
    {
      if sid in storages && handle in storages[sid].parents then Some(storages[sid].parents[handle]) else None
    }

    method Invalidate(sid: StorageId, parent: Handle)
      modifies this
      ensures storages == old(storages)[sid := Forget(SlotOf(old(storages), sid), parent)]
    {
      var st := SlotOf(storages, sid);
      storages := storages[sid := st.(listings := st.listings - {parent})];
    }

    /** Drops the directory that held `handle`, or the whole storage when no listing showed it. */
    method InvalidateHandle(sid: StorageId, handle: Handle)
      modifies this
      ensures SlotOf(storages, sid) == ForgetHandle(SlotOf(old(storages), sid), handle)
      ensures forall other :: other != sid ==> SlotOf(storages, other) == SlotOf(old(storages), other)
    {
      match ParentOf(sid, handle) {
        case Some(parent) => Invalidate(sid, parent);
        case None => ClearStorage(sid);
      }
    }

    method ClearStorage(sid: StorageId)
      modifies this
      ensures storages == old(storages) - {sid}
    {
      storages := storages - {sid};
    }
  }

  function Forget(st: StorageCache, dir: Handle): StorageCache {
    st.(listings := st.listings - {dir})
  }

  function ForgetHandle(st: StorageCache, handle: Handle): StorageCache {
    if handle in st.parents then Forget(st, st.parents[handle]) else StorageCache(map[], map[])
  }
}
