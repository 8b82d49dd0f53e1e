/** What each step of the adapter does to the staging invariant and to what clients see. */
module StagingSteps {
  import opened Wrappers
  import opened Names
  import opened Phones
  import opened PlainActor
  import opened Staging

  /** A directory id a client can hold. */
  predicate DirectoryId(id: Id) {
    id.StorageRoot? || (id.Real? && id.handle != ROOT)
  }

  // ---------- one stage set, the device as before ----------

  function WithStage(v: View, id: Id, s: Stage, bytes: Bytes): View {
    v.(staged := v.staged[id := s], files := v.files[id := bytes])
  }

  /** What a stage needs to take its place beside the others. */
  ghost predicate Fits(su: Setup, v: View, id: Id, s: Stage, bytes: Bytes) {
    var w := WithStage(v, id, s, bytes);
    && id in v.known && |bytes| == s.size
    && StageOk(su, w, id)
    && (forall a :: a in v.staged && a != id ==> StageKey(su, v.staged[a]) != StageKey(su, s))
    && (forall a :: a in v.known ==> Unaliased(w, id, a))
  }

  lemma StageSet(su: Setup, v: View, id: Id, s: Stage, bytes: Bytes)
    requires Inv(su, v) && Fits(su, v, id, s, bytes)
    ensures Inv(su, WithStage(v, id, s, bytes))
  {
    hide AllValid, DistinctKeys, StageOk, Shows, DevOk, Unaliased, KnownId, StagesOk, NoAlias, KnownOk, FilesOk, UniqueOk;
    var w := WithStage(v, id, s, bytes);
    SameDevOk(su, v, w);
    OtherStagesOk(su, v, id, s, bytes);
    SetFilesOk(su, v, id, s, bytes);
    KnownCovers(v);
    StillKnown(v, w);
  }

  lemma SetFilesOk(su: Setup, v: View, id: Id, s: Stage, bytes: Bytes)
    requires FilesOk(v) && UniqueOk(su, v) && Fits(su, v, id, s, bytes)
    ensures FilesOk(WithStage(v, id, s, bytes)) && UniqueOk(su, WithStage(v, id, s, bytes))
  {
    hide StageOk, Unaliased;
  }

  lemma StillKnown(v: View, w: View)
    requires KnownOk(v) && w.known == v.known && w.dev == v.dev && v.lastVirtual <= w.lastVirtual && w.staged.Keys <= w.known
    ensures KnownOk(w)
  {
    hide KnownId;
    forall a | a in w.known
      ensures KnownId(w, a)
    {
      SameKnownId(v, w, a);
    }
  }

  lemma SameKnownId(v: View, w: View, a: Id)
    requires KnownOk(v) && a in v.known && w.dev == v.dev && v.lastVirtual <= w.lastVirtual
    ensures KnownId(w, a)
  {
    assert KnownId(v, a);
  }

  lemma OtherStagesOk(su: Setup, v: View, id: Id, s: Stage, bytes: Bytes)
    requires Inv(su, v) && Fits(su, v, id, s, bytes)
    ensures StagesOk(su, WithStage(v, id, s, bytes)) && NoAlias(WithStage(v, id, s, bytes))
  {
    hide AllValid, DistinctKeys, StageOk, Shows, DevOk, FilesOk, KnownOk, UniqueOk;
    var w := WithStage(v, id, s, bytes);
    forall a | a in w.staged
      ensures StageOk(su, w, a)
    {
      if a != id {
        assert StageOk(su, v, a);
        SameStageOk(su, v, w, a);
      }
    }
    forall b, a | b in w.staged && a in w.known
      ensures Unaliased(w, b, a)
    {
      assert b in v.staged ==> Unaliased(v, b, a);
    }
  }

  lemma SameDevOk(su: Setup, v: View, w: View)
    requires DevOk(su, v) && w.dev == v.dev
    ensures DevOk(su, w)
  {
  }

  lemma SameStageOk(su: Setup, v: View, w: View, a: Id)
    requires a in v.staged && a in w.staged && v.staged[a] == w.staged[a] && v.dev == w.dev
    requires StageOk(su, v, a)
    ensures StageOk(su, w, a)
  {
  }

  /** Keys other than the stage's old and new one are bound as before. */
  lemma StageSetBinds(su: Setup, v: View, id: Id, s: Stage, bytes: Bytes, k: Key, a: Id)
    requires k != StageKey(su, s) && (id in v.staged ==> k != StageKey(su, v.staged[id]))
    ensures Binds(su, v, k, a) <==> Binds(su, WithStage(v, id, s, bytes), k, a)
  {
    hide Shows;
    var w := WithStage(v, id, s, bytes);
    forall b | b in w.staged && StageKey(su, w.staged[b]) == k
      ensures b in v.staged && StageKey(su, v.staged[b]) == k
    {
    }
    forall b | b in v.staged && StageKey(su, v.staged[b]) == k
      ensures b in w.staged && StageKey(su, w.staged[b]) == k
    {
    }
  }

  lemma StageSetContent(v: View, id: Id, s: Stage, bytes: Bytes)
    ensures SameContentExcept(v, WithStage(v, id, s, bytes), {id})
    ensures Content(WithStage(v, id, s, bytes), id) == Some(bytes)
  {
  }

  /** `ensure_staged_existing` on success. */
  function PulledStage(i: nat, h: Handle, o: Object): Stage {
    Stage(i, DirId(i, o.parent), o.name, |o.data|, Some(h), None, false)
  }

  /** Pulling an object into a stage is invisible. */
  lemma PulledOk(su: Setup, v: View, i: nat, h: Handle)
    requires Inv(su, v) && Real(i, h) in v.known && Real(i, h) !in v.staged
    requires i < |v.dev| && h in v.dev[i].objects && !v.dev[i].objects[h].isDir
    ensures var o := v.dev[i].objects[h];
            var w := WithStage(v, Real(i, h), PulledStage(i, h, o), o.data);
            Inv(su, w) && Unseen(su, v, w)
  {
    hide AllValid, DistinctKeys, StageOk, DevOk;
    var o := v.dev[i].objects[h];
    var s := PulledStage(i, h, o);
    PulledFits(su, v, i, h);
    StageSet(su, v, Real(i, h), s, o.data);
    StageSetContent(v, Real(i, h), s, o.data);
    forall k, a
      ensures Binds(su, v, k, a) <==> Binds(su, WithStage(v, Real(i, h), s, o.data), k, a)
    {
      if k == StageKey(su, s) {
        TakesOver(su, v, Real(i, h), s, o.data, a);
      } else {
        StageSetBinds(su, v, Real(i, h), s, o.data, k, a);
      }
    }
  }

  lemma PulledFits(su: Setup, v: View, i: nat, h: Handle)
    requires Inv(su, v) && Real(i, h) in v.known && Real(i, h) !in v.staged
    requires i < |v.dev| && h in v.dev[i].objects && !v.dev[i].objects[h].isDir
    ensures var o := v.dev[i].objects[h];
            && Fits(su, v, Real(i, h), PulledStage(i, h, o), o.data)
            && !StagedUnder(su, v, StageKey(su, PulledStage(i, h, o)))
  {
    hide AllValid, DistinctKeys, DevOk, NoAlias;
    var o, id := v.dev[i].objects[h], Real(i, h);
    var s := PulledStage(i, h, o);
    var w := WithStage(v, id, s, o.data);
    UnstagedKeyIsFree(su, v, id);
    assert KnownId(v, id);
    assert StageOk(su, w, id) by {
      forall x | Shows(su, v.dev, StageKey(su, s), x)
        ensures x == id
      {
        ShownOnce(su, v, StageKey(su, s), x, id);
      }
    }
  }

  /** A stage set over the object that was shown under its key keeps the binding. */
  lemma TakesOver(su: Setup, v: View, id: Id, s: Stage, bytes: Bytes, a: Id)
    requires DevOk(su, v) && id !in v.staged && Shows(su, v.dev, StageKey(su, s), id)
    requires !StagedUnder(su, v, StageKey(su, s))
    ensures Binds(su, v, StageKey(su, s), a) <==> Binds(su, WithStage(v, id, s, bytes), StageKey(su, s), a)
  {
    hide AllValid, DevOk;
    var w := WithStage(v, id, s, bytes);
    assert id in w.staged && StageKey(su, w.staged[id]) == StageKey(su, s);
    if Shows(su, v.dev, StageKey(su, s), a) {
      ShownOnce(su, v, StageKey(su, s), a, id);
    }
    forall b | b in w.staged && StageKey(su, w.staged[b]) == StageKey(su, s)
      ensures b == id
    {
    }
  }

  /** The brand-new branch of `stage_new`. */
  function Created(v: View, dir: Id, name: string): View {
    var id := Virtual(v.lastVirtual + 1);
    WithStage(v.(lastVirtual := v.lastVirtual + 1, known := v.known + {id}), id, Stage(0, dir, name, 0, None, None, true), [])
  }

  /** A name nothing binds is bound to a fresh id with no bytes; nothing else changes. */
  lemma CreatedOk(su: Setup, v: View, dir: Id, name: string)
    requires Inv(su, v) && DirectoryId(dir) && Unbound(su, v, KeyOf(su, dir, name))
    ensures var w, id := Created(v, dir, name), Virtual(v.lastVirtual + 1);
            && Inv(su, w) && id !in v.known && w.known == v.known + {id}
            && Binds(su, w, KeyOf(su, dir, name), id) && Content(w, id) == Some([])
            && SameNamesExcept(su, v, w, {KeyOf(su, dir, name)}) && SameContentExcept(v, w, {})
  {
    hide AllValid, DistinctKeys, DevOk, StageOk, Fits, NoAlias, KnownOk, FilesOk, UniqueOk, StagesOk, Shows;
    var id := Virtual(v.lastVirtual + 1);
    var s := Stage(0, dir, name, 0, None, None, true);
    var u := v.(lastVirtual := v.lastVirtual + 1, known := v.known + {id});
    CounterMoved(su, v);
    CreatedFits(su, v, dir, name);
    StageSet(su, u, id, s, []);
    forall k, a | k != KeyOf(su, dir, name)
      ensures Binds(su, v, k, a) <==> Binds(su, Created(v, dir, name), k, a)
    {
      CounterUnseen(su, v, k, a);
      StageSetBinds(su, u, id, s, [], k, a);
    }
    assert id in Created(v, dir, name).staged;
  }

  lemma CounterUnseen(su: Setup, v: View, k: Key, a: Id)
    ensures Binds(su, v, k, a) <==> Binds(su, v.(lastVirtual := v.lastVirtual + 1, known := v.known + {Virtual(v.lastVirtual + 1)}), k, a)
  {
  }

  lemma CreatedFits(su: Setup, v: View, dir: Id, name: string)
    requires Inv(su, v) && DirectoryId(dir) && Unbound(su, v, KeyOf(su, dir, name))
    ensures var id := Virtual(v.lastVirtual + 1);
            && id !in v.known && id !in v.staged
            && Fits(su, v.(lastVirtual := v.lastVirtual + 1, known := v.known + {id}), id, Stage(0, dir, name, 0, None, None, true), [])
  {
    hide AllValid, DistinctKeys, DevOk, NoAlias, StagesOk, UniqueOk;
    var id, key := Virtual(v.lastVirtual + 1), KeyOf(su, dir, name);
    assert id in v.known ==> KnownId(v, id);
    forall a | a in v.staged
      ensures StageKey(su, v.staged[a]) != key
    {
      assert StageKey(su, v.staged[a]) == key ==> Binds(su, v, key, a);
    }
    UnboundIsFree(su, v, key);
  }

  lemma CounterMoved(su: Setup, v: View)
    requires Inv(su, v)
    ensures Inv(su, v.(lastVirtual := v.lastVirtual + 1, known := v.known + {Virtual(v.lastVirtual + 1)}))
  {
    hide AllValid, DistinctKeys, StageOk, DevOk;
    var u := v.(lastVirtual := v.lastVirtual + 1, known := v.known + {Virtual(v.lastVirtual + 1)});
    SameDevOk(su, v, u);
    forall a | a in u.staged
      ensures StageOk(su, u, a)
    {
      assert StageOk(su, v, a);
      SameStageOk(su, v, u, a);
    }
    forall b, a | b in u.staged && a in u.known
      ensures Unaliased(u, b, a)
    {
      assert a in v.known ==> Unaliased(v, b, a);
    }
    forall a | a in u.known
      ensures KnownId(u, a)
    {
      assert a in v.known ==> KnownId(v, a);
    }
  }

  /** Writing and truncating: only the bytes of the one file change. */
  lemma EditedOk(su: Setup, v: View, id: Id, bytes: Bytes)
    requires Inv(su, v) && id in v.staged
    ensures var w := WithStage(v, id, v.staged[id].(size := |bytes|, dirty := true), bytes);
            && Inv(su, w) && SameNamesExcept(su, v, w, {}) && SameContentExcept(v, w, {id}) && Content(w, id) == Some(bytes)
  {
    hide AllValid, DistinctKeys, DevOk, StageOk, Fits, NoAlias, KnownOk, FilesOk, UniqueOk, StagesOk, Shows, Binds;
    var s := v.staged[id].(size := |bytes|, dirty := true);
    EditedFits(su, v, id, bytes);
    StageSet(su, v, id, s, bytes);
    SameKeysBind(su, v, WithStage(v, id, s, bytes));
  }

  lemma EditedFits(su: Setup, v: View, id: Id, bytes: Bytes)
    requires Inv(su, v) && id in v.staged
    ensures Fits(su, v, id, v.staged[id].(size := |bytes|, dirty := true), bytes)
  {
    hide AllValid, DistinctKeys, DevOk, FilesOk;
    var w := WithStage(v, id, v.staged[id].(size := |bytes|, dirty := true), bytes);
    assert StageOk(su, v, id);
    forall a | a in v.known
      ensures Unaliased(w, id, a)
    {
      assert Unaliased(v, id, a);
    }
  }

  /** Stages that keep their keys keep every binding. */
  lemma SameKeysBind(su: Setup, v: View, w: View)
    requires v.dev == w.dev && v.staged.Keys == w.staged.Keys
    requires forall a :: a in v.staged ==> StageKey(su, v.staged[a]) == StageKey(su, w.staged[a])
    ensures SameNamesExcept(su, v, w, {})
  {
    hide Shows;
  }

  /** Renaming a file the phone has never seen: the key moves, nothing else does. */
  lemma RenamedOk(su: Setup, v: View, id: Id, to: Id, name: string)
    requires Inv(su, v) && id in v.staged && OnDevice(v.staged[id]).None? && DirectoryId(to)
    requires var key := KeyOf(su, to, name); Unbound(su, v, key) || key == StageKey(su, v.staged[id])
    ensures var w := WithStage(v, id, v.staged[id].(parent := to, name := name), v.files[id]);
            var from, key := StageKey(su, v.staged[id]), KeyOf(su, to, name);
            && Inv(su, w) && SameContentExcept(v, w, {}) && SameNamesExcept(su, v, w, {from, key})
            && Binds(su, w, key, id) && (key != from ==> Unbound(su, w, from))
  {
    hide AllValid, DistinctKeys, DevOk, StageOk, Fits, NoAlias, KnownOk, UniqueOk, StagesOk, Shows;
    var s := v.staged[id].(parent := to, name := name);
    var from, key := StageKey(su, v.staged[id]), KeyOf(su, to, name);
    var w := WithStage(v, id, s, v.files[id]);
    RenamedFits(su, v, id, to, name);
    StageSet(su, v, id, s, v.files[id]);
    forall k, a | k != key && k != from
      ensures Binds(su, v, k, a) <==> Binds(su, w, k, a)
    {
      StageSetBinds(su, v, id, s, v.files[id], k, a);
    }
    assert id in w.staged && StageKey(su, w.staged[id]) == key;
    if key != from {
      forall a
        ensures !Binds(su, w, from, a)
      {
        assert a in w.staged && a != id ==> a in v.staged && w.staged[a] == v.staged[a];
      }
    }
  }

  lemma RenamedFits(su: Setup, v: View, id: Id, to: Id, name: string)
    requires Inv(su, v) && id in v.staged && OnDevice(v.staged[id]).None? && DirectoryId(to)
    requires var key := KeyOf(su, to, name); Unbound(su, v, key) || key == StageKey(su, v.staged[id])
    ensures Fits(su, v, id, v.staged[id].(parent := to, name := name), v.files[id])
    ensures forall x :: !Shows(su, v.dev, StageKey(su, v.staged[id]), x)
    ensures forall a :: a in v.staged && a != id ==> StageKey(su, v.staged[a]) != StageKey(su, v.staged[id])
  {
    hide AllValid, DistinctKeys, DevOk;
    var from, key := StageKey(su, v.staged[id]), KeyOf(su, to, name);
    var w := WithStage(v, id, v.staged[id].(parent := to, name := name), v.files[id]);
    assert StageOk(su, v, id);
    UnboundIsFree(su, v, key);
    assert forall x :: !Shows(su, v.dev, key, x);
    assert StageOk(su, w, id);
    forall a | a in v.staged && a != id
      ensures StageKey(su, v.staged[a]) != key
    {
      assert StageKey(su, v.staged[a]) == key ==> Binds(su, v, key, a);
    }
  }

  // ---------- a stage taken away ----------

  function WithoutStage(v: View, id: Id): View {
    v.(staged := v.staged - {id}, files := v.files - {id})
  }

  lemma UnstagedOk(su: Setup, v: View, id: Id)
    requires Inv(su, v)
    ensures Inv(su, WithoutStage(v, id))
  {
    hide AllValid, DistinctKeys, StageOk, DevOk, StagesOk, NoAlias, KnownOk;
    var w := WithoutStage(v, id);
    SameDevOk(su, v, w);
    FewerStagesOk(su, v, id);
    KnownCovers(v);
    StillKnown(v, w);
  }

  lemma KnownCovers(v: View)
    requires KnownOk(v)
    ensures v.staged.Keys <= v.known
  {
  }

  lemma FewerStagesOk(su: Setup, v: View, id: Id)
    requires StagesOk(su, v) && NoAlias(v)
    ensures StagesOk(su, WithoutStage(v, id)) && NoAlias(WithoutStage(v, id))
  {
    hide StageOk;
    var w := WithoutStage(v, id);
    forall a | a in w.staged
      ensures StageOk(su, w, a)
    {
      assert StageOk(su, v, a);
      SameStageOk(su, v, w, a);
    }
    forall b, a | b in w.staged && a in w.known
      ensures Unaliased(w, b, a)
    {
      assert Unaliased(v, b, a);
    }
  }

  lemma UnstagedBinds(su: Setup, v: View, id: Id, k: Key, a: Id)
    requires id in v.staged && k != StageKey(su, v.staged[id])
    ensures Binds(su, v, k, a) <==> Binds(su, WithoutStage(v, id), k, a)
  {
    hide Shows;
    var w := WithoutStage(v, id);
    forall b | b in v.staged && StageKey(su, v.staged[b]) == k
      ensures b in w.staged && StageKey(su, w.staged[b]) == k
    {
    }
    forall b | b in w.staged && StageKey(su, w.staged[b]) == k
      ensures b in v.staged && StageKey(su, v.staged[b]) == k
    {
    }
  }

  lemma UnstagedKeyLeft(su: Setup, v: View, id: Id)
    requires Inv(su, v) && id in v.staged
    ensures !StagedUnder(su, WithoutStage(v, id), StageKey(su, v.staged[id]))
  {
    hide AllValid, DistinctKeys, StageOk, DevOk, KnownOk, NoAlias;
    var w := WithoutStage(v, id);
    forall b | b in w.staged
      ensures StageKey(su, w.staged[b]) != StageKey(su, v.staged[id])
    {
      assert b in v.staged && b != id;
    }
  }

  // ---------- the device changed ----------

  function WithStore(v: View, i: nat, t: Store): View
    requires i < |v.dev|
  {
    v.(dev := v.dev[i := t])
  }

  lemma StoreDevOk(su: Setup, v: View, i: nat, t: Store)
    requires DevOk(su, v) && i < |v.dev| && Valid(t) && DistinctKeys(su, i, t)
    ensures DevOk(su, WithStore(v, i, t))
  {
  }

  lemma KnownAfter(v: View, i: nat, t: Store)
    requires KnownOk(v) && i < |v.dev| && v.dev[i].next <= t.next
    ensures KnownOk(WithStore(v, i, t))
  {
    forall a | a in v.known
      ensures KnownId(WithStore(v, i, t), a)
    {
      assert KnownId(v, a);
    }
  }

  lemma AliasAfter(v: View, i: nat, t: Store)
    requires NoAlias(v) && i < |v.dev|
    ensures NoAlias(WithStore(v, i, t))
  {
    forall b, a | b in v.staged && a in v.known
      ensures Unaliased(WithStore(v, i, t), b, a)
    {
      assert Unaliased(v, b, a);
    }
  }

  /** Deleting any one object keeps the invariant; only its own name and content can be missed. */
  lemma DropOk(su: Setup, v: View, i: nat, h: Handle)
    requires Inv(su, v) && i < |v.dev| && h in v.dev[i].objects && Valid(Drop(v.dev[i], h))
    ensures var w := WithStore(v, i, Drop(v.dev[i], h));
            var key := ObjKey(su, i, v.dev[i].objects[h]);
            && Inv(su, w) && SameNamesExcept(su, v, w, {key}) && SameContentExcept(v, w, {Real(i, h)})
            && (StagedUnder(su, v, key) ==> SameNamesExcept(su, v, w, {}))
            && (!StagedUnder(su, v, key) ==> Unbound(su, w, key))
            && (Real(i, h) !in v.staged ==> Content(w, Real(i, h)).None?)
  {
    hide AllValid, Valid, DevOk, KnownOk, NoAlias, StagesOk, FilesOk, UniqueOk, Binds, Shows, StagedUnder;
    DropKeepsInv(su, v, i, h);
    DropContent(v, i, h);
    var w := WithStore(v, i, Drop(v.dev[i], h));
    var key := ObjKey(su, i, v.dev[i].objects[h]);
    forall k, a | k != key || StagedUnder(su, v, key)
      ensures Binds(su, v, k, a) <==> Binds(su, w, k, a)
    {
      DropBinds(su, v, i, h, k, a);
    }
    if !StagedUnder(su, v, key) {
      DropUnbinds(su, v, i, h);
    }
  }

  lemma DropKeepsInv(su: Setup, v: View, i: nat, h: Handle)
    requires Inv(su, v) && i < |v.dev| && h in v.dev[i].objects && Valid(Drop(v.dev[i], h))
    ensures Inv(su, WithStore(v, i, Drop(v.dev[i], h)))
  {
    hide AllValid, Valid, DevOk, KnownOk, NoAlias, StageOk, DistinctKeys;
    var t := Drop(v.dev[i], h);
    var w := WithStore(v, i, t);
    DropDistinct(su, v, i, h);
    StoreDevOk(su, v, i, t);
    KnownAfter(v, i, t);
    AliasAfter(v, i, t);
    forall b | b in w.staged
      ensures StageOk(su, w, b)
    {
      assert StageOk(su, v, b);
      DropStageOk(su, v, i, h, b);
    }
  }

  lemma DropContent(v: View, i: nat, h: Handle)
    requires i < |v.dev| && h in v.dev[i].objects
    ensures var w := WithStore(v, i, Drop(v.dev[i], h));
            SameContentExcept(v, w, {Real(i, h)}) && (Real(i, h) !in v.staged ==> Content(w, Real(i, h)).None?)
  {
  }

  lemma DropUnbinds(su: Setup, v: View, i: nat, h: Handle)
    requires Inv(su, v) && i < |v.dev| && h in v.dev[i].objects && !StagedUnder(su, v, ObjKey(su, i, v.dev[i].objects[h]))
    ensures Unbound(su, WithStore(v, i, Drop(v.dev[i], h)), ObjKey(su, i, v.dev[i].objects[h]))
  {
    hide AllValid, Valid, DevOk, KnownOk, NoAlias, StagesOk, FilesOk, UniqueOk;
    var w := WithStore(v, i, Drop(v.dev[i], h));
    var key := ObjKey(su, i, v.dev[i].objects[h]);
    forall a
      ensures !Binds(su, w, key, a)
    {
      if Shows(su, w.dev, key, a) {
        ShownOnce(su, v, key, a, Real(i, h));
      }
    }
  }

  lemma DropDistinct(su: Setup, v: View, i: nat, h: Handle)
    requires DevOk(su, v) && i < |v.dev|
    ensures DistinctKeys(su, i, Drop(v.dev[i], h))
  {
    hide AllValid;
    assert DistinctKeys(su, i, v.dev[i]);
  }

  lemma DropStageOk(su: Setup, v: View, i: nat, h: Handle, b: Id)
    requires i < |v.dev| && b in v.staged && StageOk(su, v, b)
    ensures StageOk(su, WithStore(v, i, Drop(v.dev[i], h)), b)
  {
    var w := WithStore(v, i, Drop(v.dev[i], h));
    forall x | Shows(su, w.dev, StageKey(su, v.staged[b]), x)
      ensures Shows(su, v.dev, StageKey(su, v.staged[b]), x)
    {
    }
  }

  lemma DropBinds(su: Setup, v: View, i: nat, h: Handle, k: Key, a: Id)
    requires i < |v.dev| && h in v.dev[i].objects
    requires var key := ObjKey(su, i, v.dev[i].objects[h]); k != key || StagedUnder(su, v, key)
    ensures Binds(su, v, k, a) <==> Binds(su, WithStore(v, i, Drop(v.dev[i], h)), k, a)
  {
  }

  /** The first half of a flush: whatever becomes of deleting the previous copy, nothing is seen. */
  lemma OldCopyOk(su: Setup, v: View, id: Id)
    requires Inv(su, v) && id in v.staged && OnDevice(v.staged[id]).Some?
    ensures var i, h := v.staged[id].storageIndex, OnDevice(v.staged[id]).value;
            && i < |v.dev|
            && var w := WithStore(v, i, Apply(su.phone, v.dev[i], Delete(h)).0);
               Inv(su, w) && Unseen(su, v, w)
  {
    hide AllValid, Valid, DistinctKeys, FilesOk, KnownOk, UniqueOk, Shows, NoAlias;
    assert StageOk(su, v, id);
    var i, h := v.staged[id].storageIndex, OnDevice(v.staged[id]).value;
    var (t, r) := Apply(su.phone, v.dev[i], Delete(h));
    if r.Ok? {
      StoreValid(su, v, i);
      ApplyValid(su.phone, v.dev[i], Delete(h));
      DropOk(su, v, i, h);
      assert StagedUnder(su, v, ObjKey(su, i, v.dev[i].objects[h]));
      OnlyItsOwnAlias(v, id);
    } else {
      assert WithStore(v, i, t) == v;
    }
  }

  lemma OnlyItsOwnAlias(v: View, b: Id)
    requires NoAlias(v) && b in v.staged && OnDevice(v.staged[b]).Some?
    ensures var id := Real(v.staged[b].storageIndex, OnDevice(v.staged[b]).value); id in v.known ==> id == b
  {
    var id := Real(v.staged[b].storageIndex, OnDevice(v.staged[b]).value);
    assert id in v.known ==> Unaliased(v, b, id);
  }

  lemma StoreValid(su: Setup, v: View, i: nat)
    requires DevOk(su, v) && i < |v.dev|
    ensures Valid(v.dev[i]) && |v.dev| == |su.storages|
  {
  }

  // ---------- an object added ----------

  ghost predicate Free(su: Setup, v: View, key: Key) {
    !StagedUnder(su, v, key) && forall x :: !Shows(su, v.dev, key, x)
  }

  lemma UnboundIsFree(su: Setup, v: View, key: Key)
    ensures Unbound(su, v, key) <==> Free(su, v, key)
  {
    if Unbound(su, v, key) {
      forall a | a in v.staged
        ensures StageKey(su, v.staged[a]) != key
      {
        assert StageKey(su, v.staged[a]) == key ==> Binds(su, v, key, a);
      }
      forall x
        ensures !Shows(su, v.dev, key, x)
      {
        assert !Binds(su, v, key, x);
      }
    }
  }

  /** A new object under a free name. */
  lemma AddOk(su: Setup, v: View, i: nat, o: Object)
    requires Inv(su, v) && i < |v.dev| && IsDirectory(v.dev[i], o.parent) && (o.isDir ==> o.data == [])
    requires Free(su, v, ObjKey(su, i, o))
    ensures var s := v.dev[i];
            var w := WithStore(v, i, Add(s, o));
            && Inv(su, w) && SameNamesExcept(su, v, w, {ObjKey(su, i, o)}) && SameContentExcept(v, w, {})
            && !StagedUnder(su, w, ObjKey(su, i, o))
            && (forall x :: Shows(su, w.dev, ObjKey(su, i, o), x) <==> x == Real(i, s.next))
            && Real(i, s.next) !in v.known
  {
    hide AllValid, Valid;
    var s := v.dev[i];
    var t := Add(s, o);
    var w := WithStore(v, i, t);
    StoreValid(su, v, i);
    AddSound(s, o);
    AddDistinct(su, v, i, o);
    StoreDevOk(su, v, i, t);
    KnownAfter(v, i, t);
    AliasAfter(v, i, t);
    assert Real(i, s.next) in v.known ==> KnownId(v, Real(i, s.next));
    forall b | b in w.staged
      ensures StageOk(su, w, b)
    {
      assert StageOk(su, v, b);
      AddStageOk(su, v, i, o, b);
    }
    forall k, a | k != ObjKey(su, i, o)
      ensures Binds(su, v, k, a) <==> Binds(su, w, k, a)
    {
      AddBinds(su, v, i, o, k, a);
    }
    AddShows(su, v, i, o);
    AddContent(su, v, i, o);
  }

  lemma AddContent(su: Setup, v: View, i: nat, o: Object)
    requires KnownOk(v) && i < |v.dev|
    ensures SameContentExcept(v, WithStore(v, i, Add(v.dev[i], o)), {})
  {
    forall a | a in v.known
      ensures Content(v, a) == Content(WithStore(v, i, Add(v.dev[i], o)), a)
    {
      assert KnownId(v, a);
    }
  }

  lemma AddDistinct(su: Setup, v: View, i: nat, o: Object)
    requires DevOk(su, v) && i < |v.dev| && v.dev[i].next !in v.dev[i].objects
    requires forall x :: !Shows(su, v.dev, ObjKey(su, i, o), x)
    ensures DistinctKeys(su, i, Add(v.dev[i], o))
  {
    hide AllValid;
    assert DistinctKeys(su, i, v.dev[i]);
    forall x | x in v.dev[i].objects
      ensures ObjKey(su, i, v.dev[i].objects[x]) != ObjKey(su, i, o)
    {
      assert !Shows(su, v.dev, ObjKey(su, i, o), Real(i, x));
    }
  }

  lemma AddStageOk(su: Setup, v: View, i: nat, o: Object, b: Id)
    requires i < |v.dev| && b in v.staged && StageOk(su, v, b) && StageKey(su, v.staged[b]) != ObjKey(su, i, o)
    requires v.dev[i].next !in v.dev[i].objects && KnownId(v, b)
    ensures StageOk(su, WithStore(v, i, Add(v.dev[i], o)), b)
  {
    var w := WithStore(v, i, Add(v.dev[i], o));
    forall x | Shows(su, w.dev, StageKey(su, v.staged[b]), x)
      ensures Shows(su, v.dev, StageKey(su, v.staged[b]), x)
    {
    }
  }

  lemma AddBinds(su: Setup, v: View, i: nat, o: Object, k: Key, a: Id)
    requires i < |v.dev| && k != ObjKey(su, i, o) && v.dev[i].next !in v.dev[i].objects
    ensures Binds(su, v, k, a) <==> Binds(su, WithStore(v, i, Add(v.dev[i], o)), k, a)
  {
  }

  lemma AddShows(su: Setup, v: View, i: nat, o: Object)
    requires i < |v.dev| && forall x :: !Shows(su, v.dev, ObjKey(su, i, o), x)
    ensures forall x :: Shows(su, WithStore(v, i, Add(v.dev[i], o)).dev, ObjKey(su, i, o), x) <==> x == Real(i, v.dev[i].next)
  {
    forall x | Shows(su, WithStore(v, i, Add(v.dev[i], o)).dev, ObjKey(su, i, o), x)
      ensures x == Real(i, v.dev[i].next)
    {
      assert !Shows(su, v.dev, ObjKey(su, i, o), x);
    }
  }

  // ---------- a stage published ----------

  /** The stage after a successful upload under handle `h` on storage `i`. */
  function Flushed(s: Stage, i: nat, h: Handle): Stage {
    s.(storageIndex := i, originDev := None, flushedDev := Some(h), dirty := false)
  }

  function Published(v: View, id: Id, i: nat, d: Handle): View
    requires id in v.staged && id in v.files && i < |v.dev|
  {
    WithStage(WithStore(v, i, Add(v.dev[i], Object(d, v.staged[id].name, false, v.files[id]))), id,
              Flushed(v.staged[id], i, v.dev[i].next), v.files[id])
  }

  /** The second half of a flush, the previous copy being gone: clients see nothing, and the device
      holds exactly one object for that directory and name, with exactly the staged bytes. */
  lemma PublishedOk(su: Setup, v: View, id: Id, i: nat, d: Handle)
    requires Inv(su, v) && id in v.staged && DirOf(v.staged[id].parent) == Some((i, d)) && i < |v.dev|
    requires IsDirectory(v.dev[i], d)
    requires OnDevice(v.staged[id]).Some? ==> OnDevice(v.staged[id]).value !in v.dev[i].objects
    ensures id in v.files
    ensures var w := Published(v, id, i, d);
            && Inv(su, w) && Unseen(su, v, w)
            && (forall x :: Shows(su, w.dev, StageKey(su, v.staged[id]), x) <==> x == Real(i, v.dev[i].next))
            && w.dev[i].objects[v.dev[i].next].data == v.files[id]
  {
    hide AllValid, Valid, DistinctKeys, DevOk, NoAlias, UniqueOk, StagesOk, StageOk, KnownOk, Shows, Fits, Binds;
    var s := v.staged[id];
    var o := Object(d, s.name, false, v.files[id]);
    var key := StageKey(su, s);
    var u := WithoutStage(v, id);
    PublishedKey(su, v, id, i, d);
    UnstagedOk(su, v, id);
    UnstagedKeyLeft(su, v, id);
    AddOk(su, u, i, o);
    var a := WithStore(u, i, Add(v.dev[i], o));
    var s' := Flushed(s, i, v.dev[i].next);
    PublishedFits(su, v, id, i, d);
    StageSet(su, a, id, s', v.files[id]);
    var w := Published(v, id, i, d);
    PublishedAgain(v, id, i, d);
    PublishedNames(su, v, u, a, w, id, s', key);
    AddContent(su, v, i, o);
    StageSetContent(WithStore(v, i, Add(v.dev[i], o)), id, s', v.files[id]);
  }

  /** Publishing is staging afresh over the uploaded object. */
  lemma PublishedAgain(v: View, id: Id, i: nat, d: Handle)
    requires id in v.staged && id in v.files && i < |v.dev|
    ensures Published(v, id, i, d)
            == WithStage(WithStore(WithoutStage(v, id), i, Add(v.dev[i], Object(d, v.staged[id].name, false, v.files[id]))), id,
                         Flushed(v.staged[id], i, v.dev[i].next), v.files[id])
  {
    hide Add, Flushed;
  }

  lemma PublishedNames(su: Setup, v: View, u: View, a: View, w: View, id: Id, s': Stage, key: Key)
    requires Inv(su, v) && Inv(su, w) && id in v.staged && id in v.files && u == WithoutStage(v, id)
    requires key == StageKey(su, v.staged[id]) == StageKey(su, s') && w == WithStage(a, id, s', v.files[id])
    requires SameNamesExcept(su, u, a, {key}) && id !in a.staged
    ensures SameNamesExcept(su, v, w, {})
  {
    hide Inv, Binds;
    forall k, x
      ensures Binds(su, v, k, x) <==> Binds(su, w, k, x)
    {
      if k == key {
        OwnKey(su, v, id, x);
        OwnKey(su, w, id, x);
      } else {
        UnstagedBinds(su, v, id, k, x);
        assert Binds(su, u, k, x) <==> Binds(su, a, k, x);
        StageSetBinds(su, a, id, s', v.files[id], k, x);
      }
    }
  }

  /** The key of a stage names that stage only. */
  lemma OwnKey(su: Setup, v: View, id: Id, x: Id)
    requires Inv(su, v) && id in v.staged
    ensures Binds(su, v, StageKey(su, v.staged[id]), x) <==> x == id
  {
    hide AllValid, DistinctKeys, DevOk, StagesOk, KnownOk, NoAlias, Shows;
  }

  lemma ShownIsOurs(su: Setup, v: View, id: Id, x: Id)
    requires id in v.staged && StageOk(su, v, id)
    ensures Shows(su, v.dev, StageKey(su, v.staged[id]), x) ==>
        OnDevice(v.staged[id]) == Some(x.handle) && v.staged[id].storageIndex == x.storage
        && DirOf(v.staged[id].parent).value.0 == x.storage
  {
  }

  lemma PublishedKey(su: Setup, v: View, id: Id, i: nat, d: Handle)
    requires Inv(su, v) && id in v.staged && DirOf(v.staged[id].parent) == Some((i, d)) && i < |v.dev|
    requires OnDevice(v.staged[id]).Some? ==> OnDevice(v.staged[id]).value !in v.dev[i].objects
    ensures id in v.files && id in v.known
    ensures forall bytes :: ObjKey(su, i, Object(d, v.staged[id].name, false, bytes)) == StageKey(su, v.staged[id])
    ensures forall x :: !Shows(su, v.dev, StageKey(su, v.staged[id]), x)
  {
    hide AllValid, DistinctKeys, DevOk, NoAlias, UniqueOk;
    assert StageOk(su, v, id);
    forall x
      ensures !Shows(su, v.dev, StageKey(su, v.staged[id]), x)
    {
      ShownIsOurs(su, v, id, x);
    }
  }

  lemma PublishedFits(su: Setup, v: View, id: Id, i: nat, d: Handle)
    requires Inv(su, v) && id in v.staged && id in v.files && DirOf(v.staged[id].parent) == Some((i, d)) && i < |v.dev|
    requires OnDevice(v.staged[id]).Some? ==> OnDevice(v.staged[id]).value !in v.dev[i].objects
    requires forall x :: !Shows(su, v.dev, StageKey(su, v.staged[id]), x)
    ensures var a := WithStore(WithoutStage(v, id), i, Add(v.dev[i], Object(d, v.staged[id].name, false, v.files[id])));
            Fits(su, a, id, Flushed(v.staged[id], i, v.dev[i].next), v.files[id])
  {
    hide AllValid, DistinctKeys, DevOk, NoAlias;
    var o := Object(d, v.staged[id].name, false, v.files[id]);
    var a := WithStore(WithoutStage(v, id), i, Add(v.dev[i], o));
    var w := WithStage(a, id, Flushed(v.staged[id], i, v.dev[i].next), v.files[id]);
    assert StageOk(su, v, id) && KnownId(v, id);
    assert ObjKey(su, i, o) == StageKey(su, v.staged[id]);
    AddShows(su, v, i, o);
    assert StageOk(su, w, id);
    forall x | x in v.known
      ensures Unaliased(w, id, x)
    {
      assert KnownId(v, x);
    }
  }

  // ---------- ids handed out ----------

  /** Telling a client an id that a name is bound to. */
  lemma LearnedOk(su: Setup, v: View, key: Key, id: Id)
    requires Inv(su, v) && Binds(su, v, key, id)
    ensures Inv(su, v.(known := v.known + {id})) && Unseen(su, v, v.(known := v.known + {id}))
  {
    hide AllValid, DistinctKeys, DevOk, StageOk, Shows, Valid;
    if StagedUnder(su, v, key) {
      assert v.known + {id} == v.known;
    } else {
      forall b | b in v.staged
        ensures Unaliased(v, b, id)
      {
        UnstagedIsFree(su, v, key, id, b);
      }
      ShownIsKnown(su, v, key, id);
      LearnId(su, v, id);
    }
  }

  lemma ShownIsKnown(su: Setup, v: View, key: Key, id: Id)
    requires DevOk(su, v) && Shows(su, v.dev, key, id)
    ensures KnownId(v, id)
  {
  }

  lemma LearnId(su: Setup, v: View, id: Id)
    requires Inv(su, v) && KnownId(v, id) && forall b :: b in v.staged ==> Unaliased(v, b, id)
    ensures Inv(su, v.(known := v.known + {id})) && Unseen(su, v, v.(known := v.known + {id}))
  {
    hide AllValid, DistinctKeys, DevOk, StageOk, Shows;
    var w := v.(known := v.known + {id});
    SameDevOk(su, v, w);
    forall a | a in w.staged
      ensures StageOk(su, w, a)
    {
      assert StageOk(su, v, a);
      SameStageOk(su, v, w, a);
    }
    forall b, a | b in w.staged && a in w.known
      ensures Unaliased(w, b, a)
    {
      assert Unaliased(v, b, a);
    }
    forall a | a in w.known
      ensures KnownId(w, a)
    {
      assert a in v.known ==> KnownId(v, a);
    }
  }

  /** `mkdir` under a name nothing binds. */
  lemma MadeDirOk(su: Setup, v: View, i: nat, d: Handle, name: string)
    requires Inv(su, v) && i < |v.dev| && IsDirectory(v.dev[i], d) && Unbound(su, v, KeyOf(su, DirId(i, d), name))
    ensures var id, key := Real(i, v.dev[i].next), KeyOf(su, DirId(i, d), name);
            var u := WithStore(v, i, Add(v.dev[i], Object(d, name, true, [])));
            var w := u.(known := u.known + {id});
            && Inv(su, w) && id !in v.known && Binds(su, w, key, id)
            && SameNamesExcept(su, v, w, {key}) && SameContentExcept(v, w, {})
  {
    hide AllValid, DistinctKeys, DevOk, StageOk, Shows, Valid, NoAlias, KnownOk, FilesOk, UniqueOk, StagesOk;
    var o := Object(d, name, true, []);
    var id, key := Real(i, v.dev[i].next), KeyOf(su, DirId(i, d), name);
    UnboundIsFree(su, v, key);
    AddOk(su, v, i, o);
    var u := WithStore(v, i, Add(v.dev[i], o));
    assert Binds(su, u, key, id);
    LearnedOk(su, u, key, id);
  }

  // ---------- removal ----------

  /** Forgetting a stage whose object is gone: its name and its content are gone with it. */
  lemma ForgottenOk(su: Setup, v: View, id: Id)
    requires Inv(su, v) && id in v.staged
    requires OnDevice(v.staged[id]).Some? ==>
        v.staged[id].storageIndex < |v.dev| && OnDevice(v.staged[id]).value !in v.dev[v.staged[id].storageIndex].objects
    ensures var w, key := WithoutStage(v, id), StageKey(su, v.staged[id]);
            && Inv(su, w) && Unbound(su, w, key) && Content(w, id).None?
            && SameNamesExcept(su, v, w, {key}) && SameContentExcept(v, w, {id})
  {
    hide AllValid, DistinctKeys, DevOk, NoAlias, KnownOk, UniqueOk;
    var w, key := WithoutStage(v, id), StageKey(su, v.staged[id]);
    UnstagedOk(su, v, id);
    UnstagedKeyLeft(su, v, id);
    assert StageOk(su, v, id);
    forall x
      ensures !Binds(su, w, key, x)
    {
      ShownIsOurs(su, v, id, x);
    }
    forall k, a | k != key
      ensures Binds(su, v, k, a) <==> Binds(su, w, k, a)
    {
      UnstagedBinds(su, v, id, k, a);
    }
  }

  // ---------- renaming on the device ----------

  /** Object `h` of storage `i` gets a new name or directory; no stage stands before it. */
  lemma MovedOk(su: Setup, v: View, i: nat, h: Handle, o: Object, t: Store)
    requires Inv(su, v) && i < |v.dev| && h in v.dev[i].objects && Valid(t) && t.next == v.dev[i].next
    requires t.objects == v.dev[i].objects[h := o]
    requires o.isDir == v.dev[i].objects[h].isDir && o.data == v.dev[i].objects[h].data
    requires forall b :: b in v.staged ==> !(OnDevice(v.staged[b]) == Some(h) && v.staged[b].storageIndex == i)
    requires Real(i, h) !in v.staged
    requires !StagedUnder(su, v, ObjKey(su, i, o)) && !StagedUnder(su, v, ObjKey(su, i, v.dev[i].objects[h]))
    requires forall x :: Shows(su, v.dev, ObjKey(su, i, o), x) ==> x == Real(i, h)
    ensures var w := WithStore(v, i, t);
            var from, to := ObjKey(su, i, v.dev[i].objects[h]), ObjKey(su, i, o);
            && Inv(su, w) && SameNamesExcept(su, v, w, {from, to}) && SameContentExcept(v, w, {})
            && (forall x :: Shows(su, w.dev, to, x) <==> x == Real(i, h))
            && (from != to ==> forall x :: !Shows(su, w.dev, from, x))
  {
    hide AllValid, Valid;
    var w := WithStore(v, i, t);
    var from, to := ObjKey(su, i, v.dev[i].objects[h]), ObjKey(su, i, o);
    MovedDistinct(su, v, i, h, o, t);
    StoreDevOk(su, v, i, t);
    KnownAfter(v, i, t);
    AliasAfter(v, i, t);
    forall b | b in w.staged
      ensures StageOk(su, w, b)
    {
      assert StageOk(su, v, b);
      MovedStageOk(su, v, i, h, o, t, b);
    }
    forall k, a | k != from && k != to
      ensures Binds(su, v, k, a) <==> Binds(su, w, k, a)
    {
      MovedBinds(su, v, i, h, o, t, k, a);
    }
    MovedShows(su, v, i, h, o, t);
    MovedContent(v, i, h, o, t);
  }

  lemma MovedContent(v: View, i: nat, h: Handle, o: Object, t: Store)
    requires i < |v.dev| && h in v.dev[i].objects && t.objects == v.dev[i].objects[h := o]
    requires o.isDir == v.dev[i].objects[h].isDir && o.data == v.dev[i].objects[h].data
    ensures SameContentExcept(v, WithStore(v, i, t), {})
  {
  }

  lemma MovedDistinct(su: Setup, v: View, i: nat, h: Handle, o: Object, t: Store)
    requires DevOk(su, v) && i < |v.dev| && t.objects == v.dev[i].objects[h := o]
    requires forall x :: Shows(su, v.dev, ObjKey(su, i, o), x) ==> x == Real(i, h)
    ensures DistinctKeys(su, i, t)
  {
    hide AllValid;
    assert DistinctKeys(su, i, v.dev[i]);
    forall x | x in v.dev[i].objects && x != h
      ensures ObjKey(su, i, v.dev[i].objects[x]) != ObjKey(su, i, o)
    {
      assert Shows(su, v.dev, ObjKey(su, i, o), Real(i, x)) ==> Real(i, x) == Real(i, h);
    }
  }

  lemma MovedStageOk(su: Setup, v: View, i: nat, h: Handle, o: Object, t: Store, b: Id)
    requires i < |v.dev| && h in v.dev[i].objects && t.next == v.dev[i].next && t.objects == v.dev[i].objects[h := o]
    requires b in v.staged && StageOk(su, v, b) && b != Real(i, h) && StageKey(su, v.staged[b]) != ObjKey(su, i, o)
    requires !(OnDevice(v.staged[b]) == Some(h) && v.staged[b].storageIndex == i)
    ensures StageOk(su, WithStore(v, i, t), b)
  {
    var w := WithStore(v, i, t);
    forall x | Shows(su, w.dev, StageKey(su, v.staged[b]), x)
      ensures Shows(su, v.dev, StageKey(su, v.staged[b]), x)
    {
    }
  }

  lemma MovedBinds(su: Setup, v: View, i: nat, h: Handle, o: Object, t: Store, k: Key, a: Id)
    requires i < |v.dev| && h in v.dev[i].objects && t.objects == v.dev[i].objects[h := o]
    requires k != ObjKey(su, i, o) && k != ObjKey(su, i, v.dev[i].objects[h])
    ensures Binds(su, v, k, a) <==> Binds(su, WithStore(v, i, t), k, a)
  {
  }

  lemma MovedShows(su: Setup, v: View, i: nat, h: Handle, o: Object, t: Store)
    requires DevOk(su, v) && i < |v.dev| && h in v.dev[i].objects && t.objects == v.dev[i].objects[h := o]
    requires forall x :: Shows(su, v.dev, ObjKey(su, i, o), x) ==> x == Real(i, h)
    ensures var w := WithStore(v, i, t);
            var from, to := ObjKey(su, i, v.dev[i].objects[h]), ObjKey(su, i, o);
            && (forall x :: Shows(su, w.dev, to, x) <==> x == Real(i, h))
            && (from != to ==> forall x :: !Shows(su, w.dev, from, x))
  {
    hide AllValid, DevOk;
    var w := WithStore(v, i, t);
    var from, to := ObjKey(su, i, v.dev[i].objects[h]), ObjKey(su, i, o);
    forall x | Shows(su, w.dev, to, x)
      ensures x == Real(i, h)
    {
      assert x != Real(i, h) ==> Shows(su, v.dev, to, x);
    }
    forall x | Shows(su, w.dev, from, x) && from != to
      ensures false
    {
      assert x != Real(i, h) && Shows(su, v.dev, from, x) && Shows(su, v.dev, from, Real(i, h));
      ShownOnce(su, v, from, x, Real(i, h));
    }
  }

  /** Renaming an object nobody staged: its name moves, its content stays. */
  lemma RenamedObjectOk(su: Setup, v: View, i: nat, h: Handle, o: Object, t: Store)
    requires Inv(su, v) && i < |v.dev| && h in v.dev[i].objects && Valid(t) && t.next == v.dev[i].next
    requires t.objects == v.dev[i].objects[h := o]
    requires o.isDir == v.dev[i].objects[h].isDir && o.data == v.dev[i].objects[h].data
    requires !StagedUnder(su, v, ObjKey(su, i, v.dev[i].objects[h]))
    requires var from, to := ObjKey(su, i, v.dev[i].objects[h]), ObjKey(su, i, o); to == from || Unbound(su, v, to)
    ensures var w := WithStore(v, i, t);
            var from, to := ObjKey(su, i, v.dev[i].objects[h]), ObjKey(su, i, o);
            && Inv(su, w) && SameNamesExcept(su, v, w, {from, to}) && SameContentExcept(v, w, {})
            && Binds(su, w, to, Real(i, h)) && (from != to ==> Unbound(su, w, from))
  {
    hide AllValid, Valid, DistinctKeys, DevOk, StageOk, Shows, NoAlias, KnownOk, FilesOk, UniqueOk, StagesOk;
    var from, to := ObjKey(su, i, v.dev[i].objects[h]), ObjKey(su, i, o);
    ItsOwnKey(su, v, i, h);
    UnboundIsFree(su, v, to);
    forall b | b in v.staged
      ensures !(OnDevice(v.staged[b]) == Some(h) && v.staged[b].storageIndex == i) && b != Real(i, h)
    {
      UnstagedIsFree(su, v, from, Real(i, h), b);
    }
    forall x | Shows(su, v.dev, to, x)
      ensures x == Real(i, h)
    {
      ShownOnce(su, v, from, x, Real(i, h));
    }
    MovedOk(su, v, i, h, o, t);
    var w := WithStore(v, i, t);
    SameStagesUnder(su, v, w, from);
    SameStagesUnder(su, v, w, to);
  }

  lemma ItsOwnKey(su: Setup, v: View, i: nat, h: Handle)
    requires i < |v.dev| && h in v.dev[i].objects
    ensures Shows(su, v.dev, ObjKey(su, i, v.dev[i].objects[h]), Real(i, h))
  {
  }

  lemma SameStagesUnder(su: Setup, v: View, w: View, k: Key)
    requires v.staged == w.staged
    ensures StagedUnder(su, v, k) <==> StagedUnder(su, w, k)
  {
  }

  /** Renaming a published file together with its stage. */
  lemma RenamedStageOk(su: Setup, v: View, id: Id, h: Handle, o: Object, t: Store, to: Id, name: string)
    requires Inv(su, v) && id in v.staged && OnDevice(v.staged[id]) == Some(h) && DirectoryId(to)
    requires var i := v.staged[id].storageIndex;
             && i < |v.dev| && h in v.dev[i].objects && Valid(t) && t.next == v.dev[i].next
             && t.objects == v.dev[i].objects[h := o]
             && o.isDir == v.dev[i].objects[h].isDir && o.data == v.dev[i].objects[h].data
             && KeyOf(su, to, name) == ObjKey(su, i, o)
    requires var key := KeyOf(su, to, name); key == StageKey(su, v.staged[id]) || Unbound(su, v, key)
    ensures id in v.files
    ensures var i := v.staged[id].storageIndex;
            var w := WithStage(WithStore(v, i, t), id, v.staged[id].(parent := to, name := name), v.files[id]);
            var from, key := StageKey(su, v.staged[id]), KeyOf(su, to, name);
            && Inv(su, w) && SameNamesExcept(su, v, w, {from, key}) && SameContentExcept(v, w, {})
            && Binds(su, w, key, id) && (from != key ==> Unbound(su, w, from))
  {
    hide AllValid, Valid, DistinctKeys, DevOk, StageOk, Shows, NoAlias, KnownOk, UniqueOk, StagesOk, Fits, Binds,
      FilesOk, SameNamesExcept;
    var s, i := v.staged[id], v.staged[id].storageIndex;
    var from, key := StageKey(su, s), KeyOf(su, to, name);
    var u := WithoutStage(v, id);
    StagedObject(su, v, id, key);
    UnstagedOk(su, v, id);
    UnstagedKeyLeft(su, v, id);
    MovedOk(su, u, i, h, o, t);
    var a := WithStore(u, i, t);
    RenamedStageFits(su, v, id, h, o, t, to, name);
    var s' := s.(parent := to, name := name);
    StageSet(su, a, id, s', v.files[id]);
    var w := WithStage(WithStore(v, i, t), id, s', v.files[id]);
    assert w == WithStage(a, id, s', v.files[id]);
    OwnKey(su, w, id, id);
    MovedContent(v, i, h, o, t);
    StageSetContent(WithStore(v, i, t), id, s', v.files[id]);
    RenamedStageNames(su, v, u, a, id, s', from, key);
  }

  lemma RenamedStageNames(su: Setup, v: View, u: View, a: View, id: Id, s': Stage, from: Key, key: Key)
    requires id in v.staged && id in v.files && u == WithoutStage(v, id) && from == StageKey(su, v.staged[id]) && key == StageKey(su, s')
    requires SameNamesExcept(su, u, a, {from, key}) && a.staged == u.staged && a.files == u.files
    requires !StagedUnder(su, u, from) && (from != key ==> forall x :: !Shows(su, a.dev, from, x))
    ensures var w := WithStage(a, id, s', v.files[id]);
            SameNamesExcept(su, v, w, {from, key}) && (from != key ==> Unbound(su, w, from))
  {
    hide Shows, Binds;
    var w := WithStage(a, id, s', v.files[id]);
    forall k, x | k != key && k != from
      ensures Binds(su, v, k, x) <==> Binds(su, w, k, x)
    {
      UnstagedBinds(su, v, id, k, x);
      StageSetBinds(su, a, id, s', v.files[id], k, x);
    }
    if from != key {
      SameStagesUnder(su, u, a, from);
      UnboundIsFree(su, a, from);
      forall x
        ensures !Binds(su, w, from, x)
      {
        StageSetBinds(su, a, id, s', v.files[id], from, x);
      }
    }
  }

  lemma StagedObject(su: Setup, v: View, id: Id, key: Key)
    requires Inv(su, v) && id in v.staged && OnDevice(v.staged[id]).Some?
    requires v.staged[id].storageIndex < |v.dev| && OnDevice(v.staged[id]).value in v.dev[v.staged[id].storageIndex].objects
    requires key == StageKey(su, v.staged[id]) || Unbound(su, v, key)
    ensures var i, h := v.staged[id].storageIndex, OnDevice(v.staged[id]).value;
            var u := WithoutStage(v, id);
            && id in v.files && id in v.known
            && ObjKey(su, i, v.dev[i].objects[h]) == StageKey(su, v.staged[id])
            && (forall b :: b in u.staged ==> !(OnDevice(u.staged[b]) == Some(h) && u.staged[b].storageIndex == i))
            && Real(i, h) !in u.staged
            && !StagedUnder(su, u, key) && !StagedUnder(su, u, StageKey(su, v.staged[id]))
            && (forall x :: Shows(su, v.dev, key, x) ==> x == Real(i, h))
  {
    hide AllValid, Valid, DistinctKeys, DevOk, NoAlias;
    var i, h := v.staged[id].storageIndex, OnDevice(v.staged[id]).value;
    var u := WithoutStage(v, id);
    assert StageOk(su, v, id);
    forall b | b in u.staged
      ensures !(OnDevice(u.staged[b]) == Some(h) && u.staged[b].storageIndex == i) && b != Real(i, h)
    {
      assert StageOk(su, v, b);
    }
    UnstagedKeyLeft(su, v, id);
    if key != StageKey(su, v.staged[id]) {
      UnboundIsFree(su, v, key);
      forall b | b in u.staged
        ensures StageKey(su, u.staged[b]) != key
      {
        assert b in v.staged && v.staged[b] == u.staged[b];
      }
    }
  }

  lemma RenamedStageFits(su: Setup, v: View, id: Id, h: Handle, o: Object, t: Store, to: Id, name: string)
    requires Inv(su, v) && id in v.staged && OnDevice(v.staged[id]) == Some(h) && DirectoryId(to)
    requires var i := v.staged[id].storageIndex;
             && i < |v.dev| && h in v.dev[i].objects && t.next == v.dev[i].next && t.objects == v.dev[i].objects[h := o]
             && o.isDir == v.dev[i].objects[h].isDir
             && KeyOf(su, to, name) == ObjKey(su, i, o)
             && forall x :: Shows(su, WithStore(v, i, t).dev, KeyOf(su, to, name), x) <==> x == Real(i, h)
    requires !StagedUnder(su, WithoutStage(v, id), KeyOf(su, to, name))
    ensures id in v.files
    ensures var i := v.staged[id].storageIndex;
            Fits(su, WithStore(WithoutStage(v, id), i, t), id, v.staged[id].(parent := to, name := name), v.files[id])
  {
    hide AllValid, Valid, DistinctKeys, DevOk, NoAlias, UniqueOk;
    var i := v.staged[id].storageIndex;
    assert StageOk(su, v, id);
    var a := WithStore(WithoutStage(v, id), i, t);
    var w := WithStage(a, id, v.staged[id].(parent := to, name := name), v.files[id]);
    assert w.dev == WithStore(v, i, t).dev;
    assert StageOk(su, w, id);
    forall b | b in a.staged
      ensures StageKey(su, a.staged[b]) != KeyOf(su, to, name)
    {
      assert b in WithoutStage(v, id).staged;
    }
    forall x | x in v.known
      ensures Unaliased(w, id, x)
    {
      KnownUnaliased(v, id, x);
    }
  }

  lemma KnownUnaliased(v: View, b: Id, id: Id)
    requires NoAlias(v) && b in v.staged && id in v.known
    ensures Unaliased(v, b, id)
  {
  }

  // ---------- when a flush goes wrong ----------

  /** An upload accepted while the old copy survives leaves two objects under one name. */
  lemma DuplicateCopy(su: Setup, v: View, id: Id, i: nat, d: Handle, h: Handle)
    requires Inv(su, v) && id in v.staged && id in v.files && DirOf(v.staged[id].parent) == Some((i, d)) && i < |v.dev|
    requires OnDevice(v.staged[id]) == Some(h) && h in v.dev[i].objects
    ensures var w, key := Published(v, id, i, d), StageKey(su, v.staged[id]);
            && Shows(su, w.dev, key, Real(i, h)) && Shows(su, w.dev, key, Real(i, v.dev[i].next)) && h != v.dev[i].next
            && !Inv(su, w)
  {
    hide AllValid, Valid, DistinctKeys, DevOk, NoAlias, UniqueOk, KnownOk;
    var w, key := Published(v, id, i, d), StageKey(su, v.staged[id]);
    assert StageOk(su, v, id);
    assert ObjKey(su, i, w.dev[i].objects[v.dev[i].next]) == key;
    assert StageKey(su, w.staged[id]) == key && Shows(su, w.dev, key, Real(i, h));
    assert !StageOk(su, w, id);
  }

  /** A failed upload keeps the invariant exactly when it leaves no object behind: unless the phone
      broke it off midway and refuses to delete the part that arrived, or took it whole and refuses
      to report it. */
  lemma LeftoverCopy(su: Setup, v: View, id: Id, i: nat, d: Handle)
    requires Inv(su, v) && id in v.staged && id in v.files && DirOf(v.staged[id].parent) == Some((i, d)) && i < |v.dev|
    requires UploadReport(su.phone, v.dev[i], d, v.staged[id].name, v.staged[id].size, v.files[id]).1.Err?
    ensures var s := v.staged[id];
            var w := WithStore(v, i, UploadReport(su.phone, v.dev[i], d, s.name, s.size, v.files[id]).0);
            && (Inv(su, w) <==> !LeavesObject(su.phone, v.dev[i], d, s.name, s.size, v.files[id]))
            && (Inv(su, w) ==> Unseen(su, v, w))
  {
    hide Inv, Valid, Upload, LeavesObject;
    var s := v.staged[id];
    DevIsValid(su, v, i);
    UploadValid(su.phone, v.dev[i], d, s.name, s.size, v.files[id]);
    LeavesObjectIff(su.phone, v.dev[i], d, s.name, s.size, v.files[id]);
    var (t, taken) := Upload(su.phone, v.dev[i], d, s.name, s.size, v.files[id]);
    if taken.Ok? {
      assert t.objects[v.dev[i].next] == Object(d, s.name, false, v.files[id]);
    }
    LeftBehind(su, v, id, i, d, UploadReport(su.phone, v.dev[i], d, s.name, s.size, v.files[id]).0);
  }

  lemma DevIsValid(su: Setup, v: View, i: nat)
    requires Inv(su, v) && i < |v.dev|
    ensures Valid(v.dev[i])
  {
    StoreValid(su, v, i);
  }

  lemma LeftBehind(su: Setup, v: View, id: Id, i: nat, d: Handle, t: Store)
    requires Inv(su, v) && id in v.staged && DirOf(v.staged[id].parent) == Some((i, d)) && i < |v.dev|
    requires Valid(t) && v.dev[i].next <= t.next
    requires t.objects == v.dev[i].objects
             || (v.dev[i].next in t.objects && t.objects[v.dev[i].next].parent == d && t.objects[v.dev[i].next].name == v.staged[id].name)
    ensures Inv(su, WithStore(v, i, t)) <==> t.objects == v.dev[i].objects
    ensures t.objects == v.dev[i].objects ==> Unseen(su, v, WithStore(v, i, t))
  {
    hide AllValid, Valid, NoAlias, KnownOk;
    var w := WithStore(v, i, t);
    StoreValid(su, v, i);
    assert StageOk(su, v, id);
    if t.objects == v.dev[i].objects {
      assert DistinctKeys(su, i, v.dev[i]);
      assert DistinctKeys(su, i, t);
      StoreDevOk(su, v, i, t);
      KnownAfter(v, i, t);
      AliasAfter(v, i, t);
      forall b | b in w.staged
        ensures StageOk(su, w, b)
      {
        assert StageOk(su, v, b);
        GrownStageOk(su, v, i, t, b);
      }
      SameObjectsUnseen(su, v, i, t);
    } else {
      assert Shows(su, w.dev, StageKey(su, v.staged[id]), Real(i, v.dev[i].next));
      assert !StageOk(su, w, id);
    }
  }

  lemma SameObjectsUnseen(su: Setup, v: View, i: nat, t: Store)
    requires i < |v.dev| && t.objects == v.dev[i].objects
    ensures Unseen(su, v, WithStore(v, i, t))
  {
    var w := WithStore(v, i, t);
    forall k, a
      ensures Binds(su, v, k, a) <==> Binds(su, w, k, a)
    {
      SameStagesUnder(su, v, w, k);
    }
  }

  lemma GrownStageOk(su: Setup, v: View, i: nat, t: Store, b: Id)
    requires i < |v.dev| && b in v.staged && StageOk(su, v, b) && t.objects == v.dev[i].objects && v.dev[i].next <= t.next
    ensures StageOk(su, WithStore(v, i, t), b)
  {
    var w := WithStore(v, i, t);
    forall x
      ensures Shows(su, w.dev, StageKey(su, v.staged[b]), x) <==> Shows(su, v.dev, StageKey(su, v.staged[b]), x)
    {
    }
  }
}
