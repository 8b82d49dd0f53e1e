/** What the adapter lists in a directory, whatever order its stage map is walked in. */
module DirLists {
  import opened Wrappers
  import opened Names
  import opened Phones
  import opened PlainActor
  import opened Staging
  import opened StagingSteps
  import opened AdapterFacts
  import opened Paging

  function EntryChildren(i: nat, es: seq<Entry>): (cs: seq<Child>)
    ensures |cs| == |es| && forall k :: 0 <= k < |es| ==> cs[k] == Child(Real(i, es[k].handle), es[k].name, es[k].isDir, es[k].size)
  {
    seq(|es|, k requires 0 <= k < |es| => Child(Real(i, es[k].handle), es[k].name, es[k].isDir, es[k].size))
  }

  /** The children a directory has apart from stages. */
  function DeviceChildren(su: Setup, dev: Dev, dir: Id): Option<seq<Child>>
    requires |dev| == |su.storages|
  {
    match dir
    case DeviceRoot => Some(seq(|su.storages|, k requires 0 <= k < |su.storages| => Child(StorageRoot(k), su.storages[k].description, true, 0)))
    case Virtual(_) => None
    case _ =>
      match ListHandle(su, dev, DirOf(dir).value.0, DirOf(dir).value.1)
      case Err(_) => None
      case Ok(es) => Some(EntryChildren(DirOf(dir).value.0, es))
  }

  predicate Unflushed(staged: map<Id, Stage>, dir: Id, id: Id) {
    id in staged && staged[id].parent == dir && staged[id].flushedDev.None?
  }

  predicate AllStaged(staged: map<Id, Stage>, ids: seq<Id>) {
    forall id :: id in ids ==> id in staged
  }

  function StagedChildren(staged: map<Id, Stage>, ids: seq<Id>): (cs: seq<Child>)
    requires AllStaged(staged, ids)
    ensures |cs| == |ids| && forall k :: 0 <= k < |ids| ==> cs[k] == Child(ids[k], staged[ids[k]].name, false, staged[ids[k]].size)
  {
    seq(|ids|, k requires 0 <= k < |ids| => assert ids[k] in ids; Child(ids[k], staged[ids[k]].name, false, staged[ids[k]].size))
  }

  /** The stages to be shown, once each, in some order. */
  ghost predicate Walks(staged: map<Id, Stage>, dir: Id, ids: seq<Id>) {
    && (forall id :: id in ids <==> Unflushed(staged, dir, id))
    && (forall i, j :: 0 <= i < j < |ids| ==> ids[i] != ids[j])
  }

  ghost function SomeWalk(staged: map<Id, Stage>, dir: Id): (ids: seq<Id>)
    ensures Walks(staged, dir, ids)
  {
    var all := set id | id in staged && Unflushed(staged, dir, id);
    Enumerated(all)
  }

  ghost function Enumerated(s: set<Id>): (ids: seq<Id>)
    ensures forall id :: id in ids <==> id in s
    ensures forall i, j :: 0 <= i < j < |ids| ==> ids[i] != ids[j]
  {
    if s == {} then [] else var id :| id in s; [id] + Enumerated(s - {id})
  }

  /** An entry of a directory stands for a storage, for an object of the phone whose parent is the
      directory, or for a stage of the directory that was not flushed: under its id, with its name,
      kind and size. */
  ghost predicate StandsFor(su: Setup, v: View, dir: Id, c: Child) {
    if dir.DeviceRoot? then exists k: nat :: k < |su.storages| && c == Child(StorageRoot(k), su.storages[k].description, true, 0)
    else DirOf(dir).Some? && (IsObject(v.dev, DirOf(dir).value, c) || IsStage(v.staged, dir, c))
  }

  ghost predicate IsObject(dev: Dev, dir: (nat, Handle), c: Child) {
    && c.id.Real? && c.id.storage == dir.0 < |dev| && c.id.handle in dev[dir.0].objects
    && var o := dev[dir.0].objects[c.id.handle];
       o.parent == dir.1 && c == Child(c.id, o.name, o.isDir, |o.data|)
  }

  ghost predicate IsStage(staged: map<Id, Stage>, dir: Id, c: Child) {
    && c.id in staged && staged[c.id].parent == dir && staged[c.id].flushedDev.None?
    && c == Child(c.id, staged[c.id].name, false, staged[c.id].size)
  }

  lemma ChildrenStand(su: Setup, v: View, dir: Id, ids: seq<Id>, c: Child)
    requires |v.dev| == |su.storages| && DeviceChildren(su, v.dev, dir).Some? && !dir.Virtual?
    requires Walks(v.staged, dir, ids) && AllStaged(v.staged, ids) && (dir.DeviceRoot? ==> ids == [])
    requires c in DeviceChildren(su, v.dev, dir).value + StagedChildren(v.staged, ids)
    ensures StandsFor(su, v, dir, c)
  {
    hide Entries, Kids;
    var cs, ss := DeviceChildren(su, v.dev, dir).value, StagedChildren(v.staged, ids);
    if c in cs {
      var k: nat :| k < |cs| && cs[k] == c;
      if !dir.DeviceRoot? {
        var (i, h) := DirOf(dir).value;
        var es := ListHandle(su, v.dev, i, h).value;
        assert cs == EntryChildren(i, es);
        ListedIsKid(su.phone, v.dev[i], h, es, k);
      }
    } else {
      var k: nat :| k < |ss| && ss[k] == c;
      assert ids[k] in ids;
    }
  }

  lemma NoStagesAtRoot(su: Setup, v: View, dir: Id, ids: seq<Id>)
    requires Inv(su, v) && Walks(v.staged, dir, ids)
    ensures dir.DeviceRoot? ==> ids == []
  {
    hide DevOk, FilesOk, UniqueOk, KnownOk, NoAlias;
    forall id | id in v.staged
      ensures !v.staged[id].parent.DeviceRoot?
    {
      assert StageOk(su, v, id);
    }
    assert ids != [] ==> ids[0] in ids;
  }

  lemma ListedIsKid(ph: Phone, s: Store, d: Handle, es: seq<Entry>, k: nat)
    requires ListObjects(ph, s, d) == Ok(es) && k < |es|
    ensures es[k].handle in s.objects && s.objects[es[k].handle].parent == d && es[k] == Describe(es[k].handle, s.objects[es[k].handle])
  {
    hide Entries;
    EntriesAreKids(ph, Kids(s, d), es[k]);
  }

  /** The lower-case names of a directory, in listing order. */
  ghost function DirNames(su: Setup, v: View, dir: Id): seq<string>
    requires |v.dev| == |su.storages| && DeviceChildren(su, v.dev, dir).Some?
  {
    ListingKeys(su.phone.folding, DeviceChildren(su, v.dev, dir).value + StagedChildren(v.staged, SomeWalk(v.staged, dir)))
  }

  function StagedChild(staged: map<Id, Stage>, id: Id): Child
    requires id in staged
  {
    Child(id, staged[id].name, false, staged[id].size)
  }

  lemma ChildrenWithout(staged: map<Id, Stage>, b: seq<Id>, j: nat)
    requires AllStaged(staged, b) && j < |b|
    ensures b[j] in staged && AllStaged(staged, b[..j] + b[j + 1..])
    ensures multiset(StagedChildren(staged, b)) == multiset(StagedChildren(staged, b[..j] + b[j + 1..])) + multiset{StagedChild(staged, b[j])}
  {
    var rest := b[..j] + b[j + 1..];
    assert b[j] in b;
    forall id | id in rest
      ensures id in staged
    {
      assert id in b[..j] || id in b[j + 1..];
    }
    var cb := StagedChildren(staged, b);
    assert StagedChildren(staged, rest) == cb[..j] + cb[j + 1..];
    Without(cb, j);
  }

  ghost predicate NoRepeats(ids: seq<Id>) {
    forall i, j :: 0 <= i < j < |ids| ==> ids[i] != ids[j]
  }

  ghost predicate SameMembers(a: seq<Id>, b: seq<Id>) {
    forall id :: id in a <==> id in b
  }

  lemma {:induction false} SameWalk(staged: map<Id, Stage>, a: seq<Id>, b: seq<Id>)
    requires SameMembers(a, b) && NoRepeats(a) && NoRepeats(b)
    requires AllStaged(staged, a) && AllStaged(staged, b)
    ensures multiset(StagedChildren(staged, a)) == multiset(StagedChildren(staged, b))
    decreases |a|
  {
    hide StagedChildren, SameMembers, NoRepeats, AllStaged;
    if a == [] {
      NoMembers(b);
    } else {
      var a', b', c := OneFewer(staged, a, b);
      SameWalk(staged, a', b');
    }
  }

  /** Both walks without the first stage of `a`. */
  lemma OneFewer(staged: map<Id, Stage>, a: seq<Id>, b: seq<Id>) returns (a': seq<Id>, b': seq<Id>, c: Child)
    requires SameMembers(a, b) && NoRepeats(a) && NoRepeats(b) && a != []
    requires AllStaged(staged, a) && AllStaged(staged, b)
    ensures |a'| < |a| && SameMembers(a', b') && NoRepeats(a') && NoRepeats(b') && AllStaged(staged, a') && AllStaged(staged, b')
    ensures multiset(StagedChildren(staged, a)) == multiset(StagedChildren(staged, a')) + multiset{c}
    ensures multiset(StagedChildren(staged, b)) == multiset(StagedChildren(staged, b')) + multiset{c}
  {
    hide StagedChildren, SameMembers, NoRepeats, AllStaged;
    var j := WhereFirst(a, b);
    a', b' := a[..0] + a[1..], b[..j] + b[j + 1..];
    OthersSame(a, b, j);
    assert a' == a[1..];
    ChildrenWithout(staged, a, 0);
    ChildrenWithout(staged, b, j);
    c := StagedChild(staged, a[0]);
  }

  lemma NoMembers(b: seq<Id>)
    requires SameMembers([], b)
    ensures b == []
  {
    if b != [] {
      SomeId(b);
    }
  }

  lemma WhereFirst(a: seq<Id>, b: seq<Id>) returns (j: nat)
    requires SameMembers(a, b) && a != []
    ensures j < |b| && b[j] == a[0]
  {
    assert a[0] in a;
    j :| 0 <= j < |b| && b[j] == a[0];
  }

  lemma SomeId(b: seq<Id>)
    requires b != []
    ensures exists id :: id in b
  {
    assert b[0] in b;
  }

  lemma OthersSame(a: seq<Id>, b: seq<Id>, j: nat)
    requires a != [] && j < |b| && b[j] == a[0] && SameMembers(a, b) && NoRepeats(a) && NoRepeats(b)
    ensures SameMembers(a[1..], b[..j] + b[j + 1..]) && NoRepeats(a[1..]) && NoRepeats(b[..j] + b[j + 1..])
  {
    var tail, rest := a[1..], b[..j] + b[j + 1..];
    assert a[..0] + a[1..] == tail;
    WithoutId(a, 0, tail);
    WithoutId(b, j, rest);
  }

  lemma WithoutId(b: seq<Id>, j: nat, rest: seq<Id>)
    requires j < |b| && NoRepeats(b) && rest == b[..j] + b[j + 1..]
    ensures NoRepeats(rest)
    ensures forall id :: id in rest <==> id in b && id != b[j]
  {
    forall id
      ensures id in rest <==> id in b && id != b[j]
    {
      if id in rest {
        var k :| 0 <= k < |rest| && rest[k] == id;
        assert b[if k < j then k else k + 1] == id;
      }
      if id in b && id != b[j] {
        var k :| 0 <= k < |b| && b[k] == id;
        assert rest[if k < j then k else k - 1] == id;
      }
    }
  }

  /** Whatever order the stages come in, the directory's names are the same. */
  lemma WalkDoesNotMatter(su: Setup, v: View, dir: Id, ids: seq<Id>)
    requires |v.dev| == |su.storages| && DeviceChildren(su, v.dev, dir).Some? && Walks(v.staged, dir, ids)
    ensures AllStaged(v.staged, ids)
    ensures ListingKeys(su.phone.folding, DeviceChildren(su, v.dev, dir).value + StagedChildren(v.staged, ids)) == DirNames(su, v, dir)
  {
    hide DeviceChildren, ListingKeys;
    var some := SomeWalk(v.staged, dir);
    SameWalk(v.staged, ids, some);
    var d := DeviceChildren(su, v.dev, dir).value;
    var a, b := d + StagedChildren(v.staged, ids), d + StagedChildren(v.staged, some);
    assert multiset(a) == multiset(b);
    KeysOfSame(su.phone.folding, a, b);
    ListingIsOrderFree(su.phone.folding, a, b);
  }

  /** A name is listed, up to case and composition, exactly when the phone shows it there or an
      unflushed stage has it. */
  lemma ListedIff(su: Setup, v: View, dir: Id, name: string)
    requires Inv(su, v) && dir in v.known && DirOf(dir).Some? && |v.dev| == |su.storages| && DeviceChildren(su, v.dev, dir).Some?
    ensures var f := su.phone.folding;
            Represented(f, DirNames(su, v, dir), f.lower(name))
            <==> || (exists x :: Shows(su, v.dev, KeyOf(su, dir, name), x))
                 || (exists id :: Unflushed(v.staged, dir, id) && StageKey(su, v.staged[id]) == KeyOf(su, dir, name))
  {
    hide Inv, ListingKeys, Shows, DeviceChildren, StagedChildren;
    var f, ids := su.phone.folding, SomeWalk(v.staged, dir);
    var d, s := DeviceChildren(su, v.dev, dir).value, StagedChildren(v.staged, ids);
    RepresentedIff(f, d + s, name);
    ShownChildren(su, v, dir, name);
    UnflushedChildren(su, v.staged, dir, ids, name);
    EitherPart(f, d, s, name);
  }

  lemma UnflushedChildren(su: Setup, staged: map<Id, Stage>, dir: Id, ids: seq<Id>, name: string)
    requires Walks(staged, dir, ids) && AllStaged(staged, ids)
    ensures (exists c :: c in StagedChildren(staged, ids) && Fold(su.phone.folding, c.name) == Fold(su.phone.folding, name))
            <==> exists id :: Unflushed(staged, dir, id) && StageKey(su, staged[id]) == KeyOf(su, dir, name)
  {
    var f, s := su.phone.folding, StagedChildren(staged, ids);
    if id :| Unflushed(staged, dir, id) && StageKey(su, staged[id]) == KeyOf(su, dir, name) {
      var k :| 0 <= k < |ids| && ids[k] == id;
      assert s[k] in s;
    }
    if c :| c in s && Fold(f, c.name) == Fold(f, name) {
      ChildIsUnflushed(su, staged, dir, ids, c);
    }
  }

  lemma ChildIsUnflushed(su: Setup, staged: map<Id, Stage>, dir: Id, ids: seq<Id>, c: Child)
    requires Walks(staged, dir, ids) && AllStaged(staged, ids) && c in StagedChildren(staged, ids)
    ensures exists id :: Unflushed(staged, dir, id) && staged[id].name == c.name
    ensures forall id :: Unflushed(staged, dir, id) && staged[id].name == c.name ==> StageKey(su, staged[id]) == KeyOf(su, dir, c.name)
  {
    var s := StagedChildren(staged, ids);
    var k :| 0 <= k < |s| && s[k] == c;
    assert ids[k] in ids && Unflushed(staged, dir, ids[k]);
  }

  lemma EitherPart(f: Folding, a: seq<Child>, b: seq<Child>, name: string)
    ensures (exists c :: c in a + b && Fold(f, c.name) == Fold(f, name))
            <==> || (exists c :: c in a && Fold(f, c.name) == Fold(f, name))
                 || (exists c :: c in b && Fold(f, c.name) == Fold(f, name))
  {
    assert forall c :: c in a + b <==> c in a || c in b;
  }

  lemma RepresentedIff(f: Folding, cs: seq<Child>, name: string)
    ensures Represented(f, ListingKeys(f, cs), f.lower(name)) <==> exists c :: c in cs && Fold(f, c.name) == Fold(f, name)
  {
    hide Sort, Dedup;
    ListingIsExact(f, cs);
    var keys, shown := ListingKeys(f, cs), Dedup(f, Sort(f, cs));
    if c :| c in cs && Fold(f, c.name) == Fold(f, name) {
      assert Represented(f, keys, f.lower(c.name));
    }
    if Represented(f, keys, f.lower(name)) {
      var i :| 0 <= i < |keys| && f.nfc(keys[i]) == f.nfc(f.lower(name));
      assert shown[i] in shown && keys[i] == f.lower(shown[i].name);
    }
  }

  lemma ShownChildren(su: Setup, v: View, dir: Id, name: string)
    requires Inv(su, v) && dir in v.known && DirOf(dir).Some? && |v.dev| == |su.storages| && DeviceChildren(su, v.dev, dir).Some?
    ensures (exists c :: c in DeviceChildren(su, v.dev, dir).value && Fold(su.phone.folding, c.name) == Fold(su.phone.folding, name))
            <==> exists x :: Shows(su, v.dev, KeyOf(su, dir, name), x)
  {
    hide Inv, Shows, Entries;
    DirIsKnown(su, v, dir);
    var (i, h) := DirOf(dir).value;
    var es := ListHandle(su, v.dev, i, h).value;
    var cs := DeviceChildren(su, v.dev, dir).value;
    assert cs == EntryChildren(i, es);
    if c :| c in cs && Fold(su.phone.folding, c.name) == Fold(su.phone.folding, name) {
      var k :| 0 <= k < |cs| && cs[k] == c;
      EntriesAreKids(su.phone, Kids(v.dev[i], h), es[k]);
      ShownIsKid(su, v, dir, name, Real(i, es[k].handle));
    }
    if x :| Shows(su, v.dev, KeyOf(su, dir, name), x) {
      ShownIsKid(su, v, dir, name, x);
      EntriesAreKids(su.phone, Kids(v.dev[i], h), Describe(x.handle, v.dev[i].objects[x.handle]));
      var k :| 0 <= k < |es| && es[k] == Describe(x.handle, v.dev[i].objects[x.handle]);
      assert cs[k] in cs;
    }
  }

  lemma HandlesBelowNext(su: Setup, v: View, i: nat)
    requires Inv(su, v) && i < |v.dev|
    ensures forall h :: h in v.dev[i].objects ==> h < v.dev[i].next
  {
    StoreValid(su, v, i);
  }

  lemma ListedAttr(su: Setup, dev: Dev, i: nat, d: Handle, es: seq<Entry>, k: nat, now: Time)
    requires i < |dev| == |su.storages| && ListHandle(su, dev, i, d) == Ok(es) && k < |es|
    requires forall h :: h in dev[i].objects ==> h < dev[i].next
    ensures AttrOk(dev, AttrCache(es[k].size, es[k].isDir, now), Real(i, es[k].handle))
  {
    EntriesAreKids(su.phone, Kids(dev[i], d), es[k]);
  }
}
