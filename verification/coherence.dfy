/** When a storage's cache agrees with the device, and what keeps it so. */
module Coherence {
  import opened Wrappers
  import opened Phones
  import opened Cache

  ghost predicate Listable(s: Store, d: Handle) {
    d == ROOT || d in s.objects
  }

  /** A kept listing shows what the device would answer now, and each child it shows is
      recorded under the listing's key. A directory that is gone can only have left an empty one. */
  ghost predicate CoherentAt(ph: Phone, s: Store, st: StorageCache, d: Handle) {
    d in st.listings ==>
      var children := st.listings[d].children;
      if Listable(s, d) then
        && ListObjects(ph, s, d) == Ok(children)
        && (forall h :: h in Kids(s, d) ==> h in st.parents && st.parents[h] == d)
      else
        children == []
  }

  ghost predicate CoherentExcept(ph: Phone, s: Store, st: StorageCache, open: set<Handle>) {
    && (forall d :: d in st.listings ==> d < s.next)
    && (forall d :: d !in open ==> CoherentAt(ph, s, st, d))
  }

  ghost predicate Coherent(ph: Phone, s: Store, st: StorageCache) {
    CoherentExcept(ph, s, st, {})
  }

  /** A directory whose content did not change keeps its coherence. */
  lemma SameKids(ph: Phone, s: Store, t: Store, st: StorageCache, d: Handle)
    requires CoherentAt(ph, s, st, d)
    requires d in st.listings ==> Kids(s, d) == Kids(t, d)
    requires d in st.listings ==> (Listable(s, d) <==> Listable(t, d))
    requires d in s.objects && d in t.objects ==> s.objects[d].isDir == t.objects[d].isDir
    ensures CoherentAt(ph, t, st, d)
  {
  }

  /** A request makes stale at most the directories it touches. */
  lemma ApplyCoherent(ph: Phone, s: Store, op: Op, st: StorageCache, open: set<Handle>)
    requires Valid(s) && CoherentExcept(ph, s, st, open)
    ensures CoherentExcept(ph, Apply(ph, s, op).0, st, open + Touched(s, op))
  {
    var t := Apply(ph, s, op).0;
    ApplyValid(ph, s, op);
    forall d | d !in open + Touched(s, op)
      ensures CoherentAt(ph, t, st, d)
    {
      ApplyFrame(ph, s, op, d);
      if op.Delete? && d == op.handle && d in s.objects && d !in t.objects {
        assert Kids(s, d) == map[];
        EntriesCount(ph, Kids(s, d));
      } else {
        SameKids(ph, s, t, st, d);
      }
    }
  }

  /** And no invalidation is spare: when a request changes what a directory shows, a listing of
      it that was kept is stale. */
  lemma TouchedIsStale(ph: Phone, s: Store, op: Op, st: StorageCache, d: Handle, h: Handle)
    requires Valid(s) && CoherentAt(ph, s, st, d) && d in st.listings && Listable(s, d)
    requires var t := Apply(ph, s, op).0;
             Listable(t, d) && ((h in Kids(s, d)) != (h in Kids(t, d)) || (h in Kids(s, d) && Kids(s, d)[h].name != Kids(t, d)[h].name))
    ensures !CoherentAt(ph, Apply(ph, s, op).0, st, d)
  {
    var t := Apply(ph, s, op).0;
    if h in Kids(s, d) {
      var e := Describe(h, Kids(s, d)[h]);
      EntriesAreKids(ph, Kids(s, d), e);
      EntriesAreKids(ph, Kids(t, d), e);
      assert e in Entries(ph, Kids(s, d)) && e !in Entries(ph, Kids(t, d));
    } else {
      var e := Describe(h, Kids(t, d)[h]);
      EntriesAreKids(ph, Kids(s, d), e);
      EntriesAreKids(ph, Kids(t, d), e);
      assert e in Entries(ph, Kids(t, d)) && e !in Entries(ph, Kids(s, d));
    }
  }

  lemma ForgetCoherent(ph: Phone, s: Store, st: StorageCache, open: set<Handle>, d: Handle)
    requires CoherentExcept(ph, s, st, open)
    ensures CoherentExcept(ph, s, Forget(st, d), open - {d})
  {
    forall x | x !in open - {d}
      ensures CoherentAt(ph, s, Forget(st, d), x)
    {
      if x != d {
        assert CoherentAt(ph, s, st, x);
      }
    }
  }

  /** Deleting by handle: the learned parent is the one directory that can have gone stale. */
  lemma ForgetHandleCoherent(ph: Phone, s: Store, st: StorageCache, h: Handle)
    requires Valid(s) && Coherent(ph, s, st) && h in s.objects
    ensures CoherentExcept(ph, Apply(ph, s, Delete(h)).0, ForgetHandle(st, h), {})
  {
    var t := Apply(ph, s, Delete(h)).0;
    var p := s.objects[h].parent;
    ApplyCoherent(ph, s, Delete(h), st, {});
    if h in st.parents {
      ForgetCoherent(ph, t, st, {p}, st.parents[h]);
      if st.parents[h] != p {
        assert CoherentAt(ph, s, st, p);
        assert h in Kids(s, p);
      }
    }
  }

  /** Storing what the device just answered repairs that directory and spoils no other: a child
      is shown by one coherent listing only. */
  lemma StoreCoherent(ph: Phone, s: Store, before: StorageCache, after: StorageCache, open: set<Handle>, d: Handle, now: Time)
    requires Valid(s) && CoherentExcept(ph, s, before, open)
    requires ListObjects(ph, s, d).Ok?
    requires StoredAs(before, after, d, ListObjects(ph, s, d).value, now)
    ensures CoherentExcept(ph, s, after, open - {d})
  {
    var children := ListObjects(ph, s, d).value;
    forall x | x !in open - {d}
      ensures CoherentAt(ph, s, after, x)
    {
      if x in after.listings && Listable(s, x) {
        forall h | h in Kids(s, x)
          ensures h in after.parents && after.parents[h] == x
        {
          LearnedKid(ph, before.parents, Kids(s, d), d, h);
        }
      }
    }
  }

  lemma LearnedKid(ph: Phone, parents: map<Handle, Handle>, kids: map<Handle, Object>, d: Handle, h: Handle)
    ensures var after := Learn(parents, Entries(ph, kids), d);
            if h in kids then h in after && after[h] == d
            else (h in after <==> h in parents) && (h in after ==> after[h] == parents[h])
  {
    var es := Entries(ph, kids);
    Learned(parents, es, d, h);
    if h in kids {
      EntriesAreKids(ph, kids, Describe(h, kids[h]));
    }
    forall e | e in es && e.handle == h
      ensures h in kids
    {
      EntriesAreKids(ph, kids, e);
    }
  }

  /** Uploads: on success only the parent is touched; a failed upload leaves a coherent cache
      exactly when it leaves no object behind or the parent's listing was not kept. */
  lemma UploadCoherent(ph: Phone, s: Store, parent: Handle, name: string, size: nat, stream: Bytes, st: StorageCache)
    requires Valid(s) && Coherent(ph, s, st)
    ensures var (t, r) := Upload(ph, s, parent, name, size, stream);
            && Valid(t)
            && (r.Ok? ==> Coherent(ph, t, Forget(st, parent)))
            && CoherentExcept(ph, t, st, {parent})
            && (r.Err? ==> (Coherent(ph, t, st) <==> !LeavesPart(ph, s, parent, name, size, stream) || parent !in st.listings))
  {
    var (t, r) := Upload(ph, s, parent, name, size, stream);
    UploadValid(ph, s, parent, name, size, stream);
    LeavesPartIff(ph, s, parent, name, size, stream);
    forall d | d != parent
      ensures CoherentAt(ph, t, st, d)
    {
      SameKids(ph, s, t, st, d);
    }
    ForgetCoherent(ph, t, st, {parent}, parent);
    if r.Err? {
      if t.objects == s.objects {
        KidsExt(s, t, parent);
        SameKids(ph, s, t, st, parent);
      } else if parent in st.listings {
        LeftoverIsStale(ph, s, t, parent, st);
      }
    }
  }

  lemma LeftoverIsStale(ph: Phone, s: Store, t: Store, parent: Handle, st: StorageCache)
    requires Valid(s) && CoherentAt(ph, s, st, parent) && parent in st.listings && IsDirectory(s, parent)
    requires s.next in t.objects && t.objects[s.next].parent == parent && IsDirectory(t, parent)
    ensures !CoherentAt(ph, t, st, parent)
  {
    var e := Describe(s.next, t.objects[s.next]);
    EntriesAreKids(ph, Kids(t, parent), e);
    EntriesAreKids(ph, Kids(s, parent), e);
    assert e in Entries(ph, Kids(t, parent)) && e !in Entries(ph, Kids(s, parent));
  }
}
