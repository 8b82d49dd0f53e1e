/** How old an attribute can be when the phone's owner changes files while the phone is mounted:
    the actor's listing cache under the adapter's attribute cache (actor.rs:979-1010,
    adapter.rs:594-644, 830-838, 1218-1246). */
module Staleness {
  import opened Wrappers
  import opened Phones
  import opened Cache
  import AdapterFacts

  type Attr = AdapterFacts.Attr

  const ATTR_TTL: Time := AdapterFacts.ATTR_TTL

  datatype Seen = Seen(attr: Attr, at: Time)

  function AttrOf(e: Entry): Attr {
    AdapterFacts.Attr.Attr(e.isDir, e.size)
  }

  /** The read path of a mount over one storage whose content at each instant is `life`. */
  class Watcher {
    const ph: Phone
    const life: Time -> Store
    const sid: StorageId
    const cache: MetaCache
    var attrs: map<Handle, Seen>
    var now: Time

    /** The attribute was the object's at the instant `t`. */
    ghost predicate TrueAt(t: Time, h: Handle, a: Attr) {
      var info := ObjectInfo(life(t), h); info.Ok? && AttrOf(info.value) == a
    }

    ghost predicate ListedAt(t: Time, dir: Handle, es: seq<Entry>) {
      ListObjects(ph, life(t), dir) == Ok(es)
    }

    ghost predicate Recent(t: Time, limit: Time, at: Time) {
      t <= at <= t + limit
    }

    ghost predicate ListingsTrue()
      reads this, cache
    {
      forall d :: d in SlotOf(cache.storages, sid).listings ==>
        var l := SlotOf(cache.storages, sid).listings[d]; l.fetchedAt <= now && ListedAt(l.fetchedAt, d, l.children)
    }

    ghost predicate AttrsTrue()
      reads this
    {
      forall h :: h in attrs ==> SeenTrue(h, attrs[h])
    }

    ghost predicate SeenTrue(h: Handle, s: Seen)
      reads this`now
    {
      s.at <= now && exists t: Time :: Recent(t, LIST_TTL, s.at) && TrueAt(t, h, s.attr)
    }

    ghost predicate Inv()
      reads this, cache
    {
      ListingsTrue() && AttrsTrue()
    }

    constructor (ph: Phone, life: Time -> Store, sid: StorageId)
      ensures Inv() && this.ph == ph && this.life == life && this.sid == sid && now == 0 && attrs == map[]
      ensures fresh(cache) && SlotOf(cache.storages, sid) == StorageCache(map[], map[])
    {
      this.ph, this.life, this.sid := ph, life, sid;
      attrs, now := map[], 0;
      cache := new MetaCache();
    }

    method Wait(elapsed: Time)
      requires Inv()
      modifies this`now
      ensures Inv() && now == old(now) + elapsed
    {
      now := now + elapsed;
    }

    /** `children_of`: a listing younger than the limit is served again. */
    method Children(dir: Handle) returns (r: Result<seq<Entry>>)
      requires Inv()
      modifies cache
      ensures Inv()
      ensures r.Ok? ==> exists t: Time :: Recent(t, LIST_TTL, now) && ListedAt(t, dir, r.value)
      ensures old(cache.Hit(sid, dir, now)).Some? ==> r == Ok(old(cache.Hit(sid, dir, now)).value)
      ensures old(cache.Hit(sid, dir, now)).None? ==> r == AskListing(ph, life(now), dir) && (r.Ok? ==> cache.Hit(sid, dir, now) == Some(r.value))
    {
      var hit := cache.Hit(sid, dir, now);
      if hit.Some? {
        assert ListedAt(SlotOf(cache.storages, sid).listings[dir].fetchedAt, dir, hit.value);
        return Ok(hit.value);
      }
      r := AskListing(ph, life(now), dir);
      if r.Ok? {
        assert ListedAt(now, dir, r.value) && Recent(now, LIST_TTL, now);
        cache.StoreListing(sid, dir, r.value, now);
      }
    }

    /** `readdir` with `seed_attrs`: the attributes are stamped now, however old the listing is. */
    method Readdir(dir: Handle) returns (r: Result<seq<Entry>>)
      requires Inv()
      modifies this`attrs, cache
      ensures Inv()
      ensures r.Ok? ==> exists t: Time :: Recent(t, LIST_TTL, now) && ListedAt(t, dir, r.value)
      ensures old(cache.Hit(sid, dir, now)).Some? ==> r == Ok(old(cache.Hit(sid, dir, now)).value)
      ensures r.Ok? ==> forall e :: e in r.value ==> e.handle in attrs && attrs[e.handle] == Seen(AttrOf(e), now)
    {
      r := Children(dir);
      if r.Ok? {
        ghost var t: Time :| Recent(t, LIST_TTL, now) && ListedAt(t, dir, r.value);
        Seed(r.value, dir, t);
      }
    }

    method Seed(es: seq<Entry>, ghost dir: Handle, ghost t: Time)
      requires AttrsTrue() && Recent(t, LIST_TTL, now) && ListedAt(t, dir, es)
      modifies this`attrs
      ensures AttrsTrue() && forall e :: e in es ==> e.handle in attrs && attrs[e.handle] == Seen(AttrOf(e), now)
    {
      hide ListObjects, ObjectInfo, TrueAt, SeenTrue;
      DistinctHandles(ph, life(t), dir, es);
      for k := 0 to |es|
        invariant AttrsTrue()
        invariant forall i :: 0 <= i < k ==> es[i].handle in attrs && attrs[es[i].handle] == Seen(AttrOf(es[i]), now)
      {
        SeedIsTrue(es, dir, t, k);
        attrs := attrs[es[k].handle := Seen(AttrOf(es[k]), now)];
      }
    }

    lemma SeedIsTrue(es: seq<Entry>, dir: Handle, t: Time, k: nat)
      requires Recent(t, LIST_TTL, now) && ListedAt(t, dir, es) && k < |es|
      ensures SeenTrue(es[k].handle, Seen(AttrOf(es[k]), now))
    {
      ListedIsTrue(ph, life(t), dir, es, k);
      assert TrueAt(t, es[k].handle, AttrOf(es[k]));
    }

    /** `getattr` of an object nobody staged: what it answers was true at most 62 seconds ago. */
    method GetAttr(h: Handle) returns (r: Result<Attr>)
      requires Inv()
      modifies this`attrs
      ensures Inv()
      ensures r.Ok? ==> exists t: Time :: Recent(t, LIST_TTL + ATTR_TTL, now) && TrueAt(t, h, r.value)
      ensures h in old(attrs) && now <= old(attrs)[h].at + ATTR_TTL ==> r == Ok(old(attrs)[h].attr)
    {
      if h in attrs && now <= attrs[h].at + ATTR_TTL {
        var seen := attrs[h];
        ghost var t: Time :| Recent(t, LIST_TTL, seen.at) && TrueAt(t, h, seen.attr);
        assert Recent(t, LIST_TTL + ATTR_TTL, now);
        return Ok(seen.attr);
      }
      var info := AskInfo(ph, life(now), h);
      if info.Err? {
        return Err(info.error);
      }
      assert TrueAt(now, h, AttrOf(info.value)) && Recent(now, LIST_TTL, now) && Recent(now, LIST_TTL + ATTR_TTL, now);
      attrs := attrs[h := Seen(AttrOf(info.value), now)];
      r := Ok(AttrOf(info.value));
    }

    /** Every mutation of the adapter drops the cached attributes, and the actor drops listings. */
    method Mutated(dir: Handle)
      requires Inv()
      modifies this`attrs, cache
      ensures Inv()
    {
      attrs := map[];
      cache.Invalidate(sid, dir);
    }
  }

  lemma ListedIsTrue(ph: Phone, s: Store, dir: Handle, es: seq<Entry>, k: nat)
    requires ListObjects(ph, s, dir) == Ok(es) && k < |es|
    ensures ObjectInfo(s, es[k].handle) == Ok(es[k])
  {
    EntriesAreKids(ph, Kids(s, dir), es[k]);
  }

  lemma DistinctHandles(ph: Phone, s: Store, dir: Handle, es: seq<Entry>)
    requires ListObjects(ph, s, dir) == Ok(es)
    ensures forall i, j :: 0 <= i < j < |es| ==> es[i].handle != es[j].handle
  {
    assert IsOrder(ph.order(Kids(s, dir)), Kids(s, dir));
  }

  /** The two limits do add up: whatever happens to the file meanwhile, 62 seconds after its
      directory was first listed the mount still answers with what it was then. */
  method OldestAnswer(ph: Phone, life: Time -> Store, dir: Handle, h: Handle) returns (r: Result<Attr>)
    requires AskListing(ph, life(0), dir).Ok? && h in Kids(life(0), dir)
    ensures r == Ok(AttrOf(Describe(h, life(0).objects[h])))
  {
    var w := new Watcher(ph, life, 0);
    var first := w.Children(dir);
    w.Wait(LIST_TTL);
    var again := w.Readdir(dir);
    assert again == first == AskListing(ph, life(0), dir) == ListObjects(ph, life(0), dir);
    ghost var k := Listed(ph, life(0), dir, h);
    w.Wait(ATTR_TTL);
    r := w.GetAttr(h);
  }

  lemma Listed(ph: Phone, s: Store, dir: Handle, h: Handle) returns (k: nat)
    requires ListObjects(ph, s, dir).Ok? && h in Kids(s, dir)
    ensures var es := ListObjects(ph, s, dir).value;
            k < |es| && es[k] == Describe(h, s.objects[h])
  {
    var es := ListObjects(ph, s, dir).value;
    EntriesAreKids(ph, Kids(s, dir), Describe(h, s.objects[h]));
    k :| 0 <= k < |es| && es[k] == Describe(h, s.objects[h]);
  }
}
