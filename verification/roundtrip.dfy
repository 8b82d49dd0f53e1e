/** Pushing a local tree into a fresh directory and pulling it back is the identity, up to the
    entries that are not pushed: the partner theorem of `push_tree` and `pull_tree` in ops.rs. */
module RoundTrip {
  import opened Wrappers
  import opened Names
  import opened Paths
  import opened Phones
  import opened PlainActor
  import opened MkdirTheorem
  import opened Transfer

  // ---------- local trees ----------

  function TreeOf(node: Node): Tree
    requires !node.Odd?
    decreases node, 1
  {
    match node
    case File(data) => Leaf(data)
    case Folder(items) => Branch(Clean(items))
  }

  /** The tree without links, special files and unreadable names. */
  function Clean(items: seq<Item>): map<string, Tree>
    decreases items
  {
    if items == [] then map[]
    else if items[0].node.Odd? then Clean(items[1..])
    else Clean(items[1..])[items[0].name := TreeOf(items[0].node)]
  }

  function ItemStats(node: Node): Stats
    decreases node, 1
  {
    match node
    case File(data) => OneFile(data)
    case Folder(items) => ONE_DIR.Plus(Tally(items))
    case Odd => SKIPPED
  }

  function Tally(items: seq<Item>): Stats
    decreases items
  {
    if items == [] then Stats(0, 0, 0, 0) else ItemStats(items[0].node).Plus(Tally(items[1..]))
  }

  /** What the receiving side counts: the same, nothing skipped. */
  function Sent(s: Stats): Stats {
    s.(skipped := 0)
  }

  /** Names that keep their identity on both sides: good components, safe, and distinct per
      directory up to case and composition. */
  ghost predicate Portable(cs: Chars, f: Folding, items: seq<Item>)
    decreases items
  {
    && (forall i :: 0 <= i < |items| && !items[i].node.Odd? ==> PortableItem(cs, f, items[i]))
    && (forall i, j :: 0 <= i < j < |items| && !items[i].node.Odd? && !items[j].node.Odd? ==>
          Fold(f, items[i].name) != Fold(f, items[j].name))
  }

  ghost predicate PortableItem(cs: Chars, f: Folding, item: Item)
    decreases item, 1
  {
    GoodComponent(cs, item.name) && Safe(item.name) && (item.node.Folder? ==> Portable(cs, f, item.node.items))
  }

  /** No directory lies deeper than the limit, counting from `depth`. */
  ghost predicate Fits(items: seq<Item>, depth: nat)
    decreases items, 1
  {
    depth <= MAX_TREE_DEPTH && AllFit(items, depth)
  }

  ghost predicate AllFit(items: seq<Item>, depth: nat)
    decreases items, 0
  {
    forall i :: 0 <= i < |items| && items[i].node.Folder? ==> Fits(items[i].node.items, depth + 1)
  }

  /** A phone that reports every object it has. */
  ghost predicate Reporting(ph: Phone) {
    forall s: Store, h: Handle :: ph.informs(s, h).None?
  }

  /** A phone that refuses no directory and no file. */
  ghost predicate Accepting(ph: Phone) {
    && Reporting(ph)
    && (forall s: Store, d: Handle, name: string :: ph.refuse(s, Create(d, name)).None?)
    && (forall s: Store, d: Handle, name: string, size: nat, data: Bytes :: ph.upload(s, d, name, size, data) == Accepted)
  }

  /** A phone that delivers files whole. */
  ghost predicate Delivering(ph: Phone) {
    Reporting(ph) && forall data: Bytes :: |data| <= Sum(ph.chunking(data)) && ph.breaks(data).None?
  }

  // ---------- a remote directory that holds a local one ----------

  ghost predicate DistinctKids(f: Folding, s: Store, c: Handle) {
    forall x, y :: x in Kids(s, c) && y in Kids(s, c) && x != y ==> Fold(f, s.objects[x].name) != Fold(f, s.objects[y].name)
  }

  ghost predicate Holds(f: Folding, s: Store, c: Handle, items: seq<Item>)
    decreases items
  {
    && DistinctKids(f, s, c)
    && (forall x :: x in Kids(s, c) ==> exists i :: 0 <= i < |items| && !items[i].node.Odd? && items[i].name == s.objects[x].name)
    && (forall i :: 0 <= i < |items| && !items[i].node.Odd? ==> Has(f, s, c, items[i]))
  }

  ghost predicate Has(f: Folding, s: Store, c: Handle, item: Item)
    decreases item, 1
  {
    exists x :: x in Kids(s, c) && s.objects[x].name == item.name && Matches(f, s, x, item.node)
  }

  ghost predicate Matches(f: Folding, s: Store, x: Handle, node: Node)
    requires x in s.objects
    decreases node, 1
  {
    match node
    case File(data) => !s.objects[x].isDir && s.objects[x].data == data
    case Folder(items) => s.objects[x].isDir && Holds(f, s, x, items)
    case Odd => false
  }

  /** `t` is `s` with objects added, and of the old directories only `c` shows anything new. */
  ghost predicate Extends(s: Store, t: Store, c: Handle) {
    && Valid(t) && s.next <= t.next
    && (forall h :: h in s.objects ==> h in t.objects && t.objects[h] == s.objects[h])
    && (forall d :: d != c && (d == ROOT || d in s.objects) ==> Kids(t, d) == Kids(s, d))
  }

  lemma ExtendsTwice(s: Store, t: Store, u: Store, c: Handle)
    requires Extends(s, t, c) && Extends(t, u, c)
    ensures Extends(s, u, c)
  {
  }

  lemma ExtendsInside(s: Store, t: Store, u: Store, c: Handle, x: Handle)
    requires Extends(s, t, c) && Extends(t, u, x) && x !in s.objects && x != ROOT
    ensures Extends(s, u, c)
    ensures x != c && (c == ROOT || c in s.objects) ==> Kids(u, c) == Kids(t, c)
  {
  }

  lemma AddExtends(s: Store, o: Object)
    requires Valid(s) && IsDirectory(s, o.parent) && (o.isDir ==> o.data == [])
    ensures Extends(s, Add(s, o), o.parent)
    ensures s.next !in s.objects && s.next != ROOT && Kids(Add(s, o), s.next) == map[]
    ensures Kids(Add(s, o), o.parent) == Kids(s, o.parent)[s.next := o]
  {
    hide Valid, Forest, Kids;
    AddSound(s, o);
    SoundNext(s);
  }

  lemma SoundNext(s: Store)
    requires Valid(s)
    ensures s.next != ROOT
  {
  }

  /** What a directory below `c` holds is not touched by additions in `c`. */
  lemma {:induction false} HoldsKept(f: Folding, s: Store, t: Store, c: Handle, x: Handle, items: seq<Item>, rank: map<Handle, nat>)
    requires Extends(s, t, c) && Ranks(s.objects, rank) && x in s.objects && x != ROOT && (c in rank ==> rank[x] < rank[c])
    requires Holds(f, s, x, items)
    ensures Holds(f, t, x, items)
    decreases items
  {
    hide Valid;
    assert Kids(t, x) == Kids(s, x);
    forall i | 0 <= i < |items| && !items[i].node.Odd?
      ensures Has(f, t, x, items[i])
    {
      HasKept(f, s, t, c, x, items[i], rank);
    }
    assert DistinctKids(f, t, x);
  }

  lemma {:induction false} HasKept(f: Folding, s: Store, t: Store, c: Handle, x: Handle, item: Item, rank: map<Handle, nat>)
    requires Extends(s, t, c) && Ranks(s.objects, rank) && (x == c || (x in s.objects && x != ROOT && (c in rank ==> rank[x] < rank[c])))
    requires (forall y :: y in Kids(s, x) ==> y in Kids(t, x)) && Has(f, s, x, item)
    ensures Has(f, t, x, item)
    decreases item, 1
  {
    hide Valid;
    var y :| y in Kids(s, x) && s.objects[y].name == item.name && Matches(f, s, y, item.node);
    assert Ranked(s.objects, rank, y);
    if item.node.Folder? {
      RootHasNoObject(s, rank, y);
      HoldsKept(f, s, t, c, y, item.node.items, rank);
    }
    assert Matches(f, t, y, item.node);
  }

  lemma RootHasNoObject(s: Store, rank: map<Handle, nat>, y: Handle)
    requires Ranks(s.objects, rank) && y in s.objects
    ensures y != ROOT
  {
  }

  // ---------- finding the directory by its path ----------

  /** The path `p` leads through directories to `c`. */
  ghost predicate At(su: Setup, s: Store, p: DevPath, c: Handle) {
    && WellFormed(su.chars, p) && !p.IsRoot() && !EndsInSpace(su.chars, Last(p))
    && Walk(su.phone, s, ROOT, p.segments, true) == Ok(c) && IsDirectory(s, c)
  }

  lemma {:induction false} WalkSnoc(ph: Phone, s: Store, cur: Handle, segs: seq<string>, c: Handle, n: string, dirsOnly: bool)
    requires Walk(ph, s, cur, segs, true) == Ok(c)
    ensures Walk(ph, s, cur, segs, dirsOnly) == Ok(c)
    ensures Walk(ph, s, cur, segs + [n], dirsOnly) == Walk(ph, s, c, [n], dirsOnly)
    ensures MkdirWalk(ph, s, cur, segs + [n]) == MkdirWalk(ph, s, c, [n])
    decreases |segs|
  {
    hide ListObjects;
    if segs == [] {
      assert [] + [n] == [n];
    } else {
      var e := ChildByName(ph.folding, ListObjects(ph, s, cur).value, segs[0]).value;
      WalkSnoc(ph, s, e.handle, segs[1..], c, n, dirsOnly);
      assert (segs + [n])[1..] == segs[1..] + [n];
      assert (segs + [n])[0] == segs[0];
    }
  }

  lemma ListedChild(ph: Phone, s: Store, cur: Handle, seg: string)
    requires ListObjects(ph, s, cur).Ok? && ChildByName(ph.folding, ListObjects(ph, s, cur).value, seg).Some?
    ensures var e := ChildByName(ph.folding, ListObjects(ph, s, cur).value, seg).value;
            e.handle in Kids(s, cur) && e == Describe(e.handle, s.objects[e.handle]) && Fold(ph.folding, e.name) == Fold(ph.folding, seg)
  {
    var es := ListObjects(ph, s, cur).value;
    ChildIsListed(ph.folding, es, seg);
    EntriesAreKids(ph, Kids(s, cur), ChildByName(ph.folding, es, seg).value);
  }

  /** A walk goes down, so additions in the directory it reaches do not disturb it. */
  lemma {:induction false} WalkKept(ph: Phone, s: Store, t: Store, cur: Handle, segs: seq<string>, c: Handle, rank: map<Handle, nat>)
    requires Ranks(s.objects, rank) && Extends(s, t, c) && IsDirectory(s, cur)
    requires Walk(ph, s, cur, segs, true) == Ok(c)
    ensures Walk(ph, t, cur, segs, true) == Ok(c)
    ensures segs != [] ==> c in s.objects && c != ROOT && (cur == ROOT || rank[c] < rank[cur])
    decreases |segs|
  {
    hide Valid, Kids, Entries;
    if segs != [] {
      ListedChild(ph, s, cur, segs[0]);
      var e := ChildByName(ph.folding, ListObjects(ph, s, cur).value, segs[0]).value;
      KidBelow(s, cur, e.handle, rank);
      WalkKept(ph, s, t, e.handle, segs[1..], c, rank);
      assert Kids(t, cur) == Kids(s, cur);
      assert ListObjects(ph, t, cur) == ListObjects(ph, s, cur);
    }
  }

  lemma KidBelow(s: Store, d: Handle, x: Handle, rank: map<Handle, nat>)
    requires Ranks(s.objects, rank) && x in Kids(s, d)
    ensures x in s.objects && x != ROOT && s.objects[x].parent == d && (d != ROOT ==> d in s.objects && rank[x] < rank[d])
  {
    assert Ranked(s.objects, rank, x);
  }

  lemma AtKept(su: Setup, s: Store, t: Store, p: DevPath, c: Handle)
    requires Valid(s) && At(su, s, p, c) && Extends(s, t, c)
    ensures At(su, t, p, c)
  {
    hide WellFormed, Kids, Walk;
    var rank := SomeRank(s.objects);
    WalkKept(su.phone, s, t, ROOT, p.segments, c, rank);
  }

  /** The child `x` under the name `n`, found by listing and by path. */
  lemma ChildAt(su: Setup, s: Store, p: DevPath, c: Handle, n: string, x: Handle)
    requires At(su, s, p, c) && GoodComponent(su.chars, n)
    requires x in Kids(s, c) && s.objects[x].name == n
    requires forall y :: y in Kids(s, c) && y != x ==> Fold(su.phone.folding, s.objects[y].name) != Fold(su.phone.folding, n)
    ensures ChildByName(su.phone.folding, ListObjects(su.phone, s, c).value, n) == Some(Describe(x, s.objects[x]))
    ensures Walk(su.phone, s, ROOT, p.segments + [n], false) == Ok(x)
    ensures s.objects[x].isDir ==> At(su, s, Child(p, n), x)
    ensures ParseSpec(su.chars, JoinDevice(DisplaySpec(p), n)) == Ok(Child(p, n))
    ensures JoinDevice(DisplaySpec(p), n) == DisplaySpec(Child(p, n))
  {
    hide WellFormed, GoodPart, ParseSpec, JoinDevice, DisplaySpec, MkdirWalk;
    var ph := su.phone;
    ParseJoin(su.chars, p, n);
    ChildDisplay(su.chars, p, n);
    ChildWellFormed(su.chars, p, n);
    var es := ListObjects(ph, s, c).value;
    ChildIsListed(ph.folding, es, n);
    EntriesAreKids(ph, Kids(s, c), Describe(x, s.objects[x]));
    ListedChild(ph, s, c, n);
    WalkSnoc(ph, s, ROOT, p.segments, c, n, false);
    WalkSnoc(ph, s, ROOT, p.segments, c, n, true);
  }

  /** No child answers to the name `n`. */
  lemma ChildAbsent(su: Setup, s: Store, p: DevPath, c: Handle, n: string)
    requires At(su, s, p, c) && GoodComponent(su.chars, n)
    requires forall x :: x in Kids(s, c) ==> Fold(su.phone.folding, s.objects[x].name) != Fold(su.phone.folding, n)
    ensures ChildByName(su.phone.folding, ListObjects(su.phone, s, c).value, n).None?
    ensures ParseSpec(su.chars, JoinDevice(DisplaySpec(p), n)) == Ok(Child(p, n)) && !Child(p, n).IsRoot()
    ensures MkdirWalk(su.phone, s, ROOT, p.segments + [n]) == CreateAll(su.phone, s, c, [n])
  {
    hide WellFormed, GoodPart, ParseSpec, JoinDevice, DisplaySpec;
    var ph := su.phone;
    ParseJoin(su.chars, p, n);
    ChildWellFormed(su.chars, p, n);
    if ChildByName(ph.folding, ListObjects(ph, s, c).value, n).Some? {
      ListedChild(ph, s, c, n);
    }
    WalkSnoc(ph, s, ROOT, p.segments, c, n, true);
  }

  // ---------- pushing ----------

  /** Where a push or a pull works: the directory `c` of storage `idx`, addressed as `p`. */
  ghost predicate Place(su: Setup, dev: Dev, idx: nat, p: DevPath, c: Handle) {
    && |dev| == |su.storages| && idx < |dev| && AllValid(dev)
    && FindStorageIndex(su, p.storageRef) == Ok(idx) && At(su, dev[idx], p, c)
  }

  /** `mkdir_all` of a name the directory does not show makes exactly that directory. */
  lemma MadeFolder(su: Setup, dev: Dev, idx: nat, p: DevPath, c: Handle, n: string)
    requires Place(su, dev, idx, p, c) && GoodComponent(su.chars, n)
    requires forall x :: x in Kids(dev[idx], c) ==> Fold(su.phone.folding, dev[idx].objects[x].name) != Fold(su.phone.folding, n)
    ensures JoinDevice(DisplaySpec(p), n) == DisplaySpec(Child(p, n))
    ensures var (after, made) := MkdirAll(su, dev, JoinDevice(DisplaySpec(p), n));
            && (made.Ok? <==> su.phone.refuse(dev[idx], Create(c, n)).None?)
            && (made.Ok? ==> MadeAt(su, dev, idx, p, c, n, after))
  {
    hide WellFormed, GoodPart, ParseSpec, JoinDevice, DisplaySpec, Valid, Kids, Walk, MkdirWalk, FindStorageIndex;
    var s, o := dev[idx], Object(c, n, true, []);
    ChildAbsent(su, s, p, c, n);
    ChildDisplay(su.chars, p, n);
    AddExtends(s, o);
    var t := Add(s, o);
    assert CreateAll(su.phone, s, c, [n]).1.Ok? <==> su.phone.refuse(s, Create(c, n)).None? by {
      assert [n][1..] == [];
    }
    if su.phone.refuse(s, Create(c, n)).None? {
      assert CreateAll(su.phone, s, c, [n]) == (t, Ok(s.next)) by {
        assert [n][1..] == [];
      }
      AtKept(su, s, t, p, c);
      OtherKids(su.phone.folding, s, t, c, s.next, o);
      ChildAt(su, t, p, c, n, s.next);
    }
  }

  /** `after` is `dev` with the new, empty directory `n` in `c`. */
  ghost predicate MadeAt(su: Setup, dev: Dev, idx: nat, p: DevPath, c: Handle, n: string, after: Dev)
    requires idx < |dev|
  {
    var s, o := dev[idx], Object(c, n, true, []);
    && after == dev[idx := Add(s, o)]
    && Place(su, after, idx, Child(p, n), s.next) && Place(su, after, idx, p, c) && Extends(s, after[idx], c)
    && Kids(after[idx], s.next) == map[] && Kids(after[idx], c) == Kids(s, c)[s.next := o]
    && s.next !in s.objects && s.next != ROOT
  }

  lemma OtherKids(f: Folding, s: Store, t: Store, c: Handle, x: Handle, o: Object)
    requires Kids(t, c) == Kids(s, c)[x := o]
    requires forall y :: y in Kids(s, c) ==> Fold(f, s.objects[y].name) != Fold(f, o.name)
    ensures forall y :: y in Kids(t, c) && y != x ==> Fold(f, t.objects[y].name) != Fold(f, o.name)
  {
    forall y | y in Kids(t, c) && y != x
      ensures y in Kids(s, c) && t.objects[y] == s.objects[y]
    {
      assert Kids(t, c)[y] == t.objects[y];
    }
  }

  lemma NewKid(f: Folding, s: Store, t: Store, c: Handle, x: Handle, o: Object)
    requires Kids(t, c) == Kids(s, c)[x := o] && DistinctKids(f, s, c) && x !in s.objects
    requires forall y :: y in Kids(s, c) ==> Fold(f, s.objects[y].name) != Fold(f, o.name)
    ensures DistinctKids(f, t, c)
  {
    forall y | y in Kids(t, c)
      ensures t.objects[y] == if y == x then o else s.objects[y]
    {
      assert Kids(t, c)[y] == t.objects[y];
    }
  }

  lemma StoredFile(su: Setup, dev: Dev, idx: nat, p: DevPath, c: Handle, n: string, data: Bytes)
    requires Place(su, dev, idx, p, c) && GoodComponent(su.chars, n)
    ensures var s, o := dev[idx], Object(c, n, false, data);
            var dev' := dev[idx := Add(s, o)];
            var (after, stored) := StoreAt(su, dev, DisplaySpec(p), n, |data|, data);
            && (Accepting(su.phone) ==> stored.Ok?)
            && (stored.Ok? ==>
                  && after == dev' && Place(su, dev', idx, p, c) && Extends(s, dev'[idx], c)
                  && Kids(dev'[idx], c) == Kids(s, c)[s.next := o] && s.next !in s.objects && s.next != ROOT)
  {
    hide WellFormed, GoodPart, ParseSpec, DisplaySpec, Valid, Kids, FindStorageIndex, Walk, Upload, Resolve;
    var s, o := dev[idx], Object(c, n, false, data);
    AddExtends(s, o);
    AtKept(su, s, Add(s, o), p, c);
    UploadValid(su.phone, s, c, n, |data|, data);
    if Accepting(su.phone) {
      UploadAccepted(su.phone, s, c, n, data);
    }
    PlaceResolves(su, dev, idx, p, c);
    if Resolve(su, dev, DisplaySpec(p)).Ok? {
      assert StoreAt(su, dev, DisplaySpec(p), n, |data|, data) == UploadInto(su, dev, idx, c, n, |data|, data);
      var (t, r) := Upload(su.phone, s, c, n, |data|, data);
      assert r.Ok? ==> t == Add(s, o) && ObjectInfo(t, r.value).Ok?;
    }
  }

  /** A place is found by its path, if the phone reports it. */
  lemma PlaceResolves(su: Setup, dev: Dev, idx: nat, p: DevPath, c: Handle)
    requires Place(su, dev, idx, p, c)
    ensures var r := Resolve(su, dev, DisplaySpec(p));
            && (r.Ok? ==> r.value.storageIndex == idx && r.value.handle == c && r.value.entry.isDir)
            && (Reporting(su.phone) ==> r.Ok?)
  {
    hide WellFormed, GoodPart, ParseSpec, DisplaySpec, Sound, Kids, FindStorageIndex, Walk;
    ParseDisplay(su.chars, p);
    if p.segments != [] {
      assert p.segments == p.segments[..|p.segments| - 1] + [p.segments[|p.segments| - 1]];
    }
    WalkSnoc(su.phone, dev[idx], ROOT, p.segments, c, "", false);
    WhereIsRoot(su.phone, dev[idx], p.segments, c);
  }

  lemma UploadAccepted(ph: Phone, s: Store, d: Handle, n: string, data: Bytes)
    requires IsDirectory(s, d) && Accepting(ph)
    ensures Upload(ph, s, d, n, |data|, data).1.Ok?
  {
    assert ph.upload(s, d, n, |data|, data) == Accepted;
  }

  lemma WhereIsRoot(ph: Phone, s: Store, segs: seq<string>, c: Handle)
    requires Valid(s) && Walk(ph, s, ROOT, segs, true) == Ok(c)
    ensures if segs == [] then c == ROOT else c in s.objects && c != ROOT
  {
    WalkKept(ph, s, s, ROOT, segs, c, SomeRank(s.objects));
  }

  /** One more item arrives in the directory. */
  lemma HoldsMore(f: Folding, s: Store, t: Store, c: Handle, done: seq<Item>, item: Item, x: Handle)
    requires Valid(s) && Holds(f, s, c, done) && Extends(s, t, c) && !item.node.Odd? && x !in s.objects
    requires x in t.objects && t.objects[x].name == item.name && Kids(t, c) == Kids(s, c)[x := t.objects[x]] && Matches(f, t, x, item.node)
    requires forall y :: y in Kids(s, c) ==> Fold(f, s.objects[y].name) != Fold(f, item.name)
    ensures Holds(f, t, c, done + [item])
  {
    hide Matches, Has, Sound, Forest;
    var all, rank := done + [item], SomeRank(s.objects);
    NewKid(f, s, t, c, x, t.objects[x]);
    forall i | 0 <= i < |all| && !all[i].node.Odd?
      ensures Has(f, t, c, all[i])
    {
      if i < |done| {
        assert Has(f, s, c, done[i]);
        HasKept(f, s, t, c, c, done[i], rank);
      } else {
        HasIs(f, t, c, item, x);
      }
    }
    forall y | y in Kids(t, c)
      ensures exists i :: 0 <= i < |all| && !all[i].node.Odd? && all[i].name == t.objects[y].name
    {
      if y == x {
        assert all[|done|].name == t.objects[x].name;
      } else {
        KidOf(s, c, y);
        var i :| 0 <= i < |done| && !done[i].node.Odd? && done[i].name == s.objects[y].name;
        assert all[i] == done[i];
      }
    }
  }

  lemma HasIs(f: Folding, t: Store, c: Handle, item: Item, x: Handle)
    requires x in Kids(t, c) && t.objects[x].name == item.name && Matches(f, t, x, item.node)
    ensures Has(f, t, c, item)
  {
  }

  lemma KidOf(s: Store, c: Handle, y: Handle)
    requires y in Kids(s, c)
    ensures y in s.objects && Kids(s, c)[y] == s.objects[y]
  {
  }

  lemma HoldsOdd(f: Folding, s: Store, c: Handle, done: seq<Item>, item: Item)
    requires Holds(f, s, c, done) && item.node.Odd?
    ensures Holds(f, s, c, done + [item])
  {
    hide Has;
    var all := done + [item];
    forall y | y in Kids(s, c)
      ensures exists i :: 0 <= i < |all| && !all[i].node.Odd? && all[i].name == s.objects[y].name
    {
      KidOf(s, c, y);
      var i :| 0 <= i < |done| && !done[i].node.Odd? && done[i].name == s.objects[y].name;
      assert all[i] == done[i];
    }
    forall i | 0 <= i < |all| && !all[i].node.Odd?
      ensures Has(f, s, c, all[i])
    {
      assert all[i] == done[i];
    }
  }

  /** The names already there are not the next item's. */
  lemma NextIsNew(cs: Chars, f: Folding, s: Store, c: Handle, done: seq<Item>, items: seq<Item>)
    requires Holds(f, s, c, done) && Portable(cs, f, done + items) && items != [] && !items[0].node.Odd?
    ensures forall x :: x in Kids(s, c) ==> Fold(f, s.objects[x].name) != Fold(f, items[0].name)
    ensures PortableItem(cs, f, items[0])
  {
    var all := done + items;
    assert all[|done|] == items[0];
    forall x | x in Kids(s, c)
      ensures Fold(f, s.objects[x].name) != Fold(f, items[0].name)
    {
      var i :| 0 <= i < |done| && !done[i].node.Odd? && done[i].name == s.objects[x].name;
      assert all[i] == done[i];
    }
  }

  /** Everything in `all` stands in the directory, and the push changed nothing else. */
  ghost predicate Arrived(su: Setup, before: Dev, idx: nat, p: DevPath, c: Handle, all: seq<Item>, after: Dev) {
    && idx < |before| == |after| && after == before[idx := after[idx]] && Extends(before[idx], after[idx], c)
    && Place(su, after, idx, p, c) && Holds(su.phone.folding, after[idx], c, all)
  }

  lemma ArrivedTwice(su: Setup, dev: Dev, dev1: Dev, dev2: Dev, idx: nat, p: DevPath, c: Handle, done: seq<Item>, all: seq<Item>)
    requires Arrived(su, dev, idx, p, c, done, dev1) && Arrived(su, dev1, idx, p, c, all, dev2)
    ensures Arrived(su, dev, idx, p, c, all, dev2)
  {
    hide Extends, Place, Holds;
    ExtendsTwice(dev[idx], dev1[idx], dev2[idx], c);
  }

  lemma AlreadyThere(su: Setup, dev: Dev, idx: nat, p: DevPath, c: Handle, done: seq<Item>)
    requires Place(su, dev, idx, p, c) && Holds(su.phone.folding, dev[idx], c, done)
    ensures Arrived(su, dev, idx, p, c, done, dev)
  {
    hide At, Holds;
  }

  /** What one step of a push needs. */
  ghost predicate Ready(su: Setup, dev: Dev, idx: nat, p: DevPath, c: Handle, done: seq<Item>, items: seq<Item>) {
    && Place(su, dev, idx, p, c) && Holds(su.phone.folding, dev[idx], c, done)
    && Portable(su.chars, su.phone.folding, done + items)
  }

  lemma NextReady(su: Setup, dev: Dev, dev1: Dev, idx: nat, p: DevPath, c: Handle, done: seq<Item>, items: seq<Item>)
    requires items != [] && Ready(su, dev, idx, p, c, done, items)
    requires Arrived(su, dev, idx, p, c, done + [items[0]], dev1)
    ensures Ready(su, dev1, idx, p, c, done + [items[0]], items[1..])
    ensures (done + [items[0]]) + items[1..] == done + items
  {
    hide Place, Holds, Portable, Extends;
    assert (done + [items[0]]) + items[1..] == done + items;
  }

  lemma FitOneByOne(items: seq<Item>, depth: nat)
    requires items != []
    ensures AllFit(items, depth) <==> (items[0].node.Folder? ==> Fits(items[0].node.items, depth + 1)) && AllFit(items[1..], depth)
  {
    hide Fits;
    var rest := items[1..];
    assert forall i :: 0 <= i < |rest| ==> rest[i] == items[i + 1];
    if AllFit(rest, depth) && (items[0].node.Folder? ==> Fits(items[0].node.items, depth + 1)) {
      forall i | 0 <= i < |items| && items[i].node.Folder?
        ensures Fits(items[i].node.items, depth + 1)
      {
        assert i > 0 ==> items[i] == rest[i - 1];
      }
    }
  }

  /** Pushing a directory's items one after the other: when it succeeds they have all arrived and
      are counted, and none was too deep; a phone that accepts everything fails it only for depth. */
  lemma {:induction false} PushedItems(su: Setup, dev: Dev, idx: nat, p: DevPath, c: Handle, done: seq<Item>,
      items: seq<Item>, depth: nat, stats: Stats)
    requires |dev| == |su.storages| && Ready(su, dev, idx, p, c, done, items)
    ensures var (dev', r) := PushItems(su, dev, items, DisplaySpec(p), depth, stats);
            && (r.Ok? ==> r == Ok(stats.Plus(Tally(items))) && Arrived(su, dev, idx, p, c, done + items, dev') && AllFit(items, depth))
            && (Accepting(su.phone) && AllFit(items, depth) ==> r.Ok?)
    decreases items, 0
  {
    hide Ready, Arrived, PushItem, DisplaySpec, ItemStats, AllFit, Fits, Accepting;
    if items == [] {
      assert done + items == done;
      ReadyArrived(su, dev, idx, p, c, done, items);
      NothingFits(depth);
    } else {
      FitOneByOne(items, depth);
      PushedItem(su, dev, idx, p, c, done, items, depth, stats);
      var (dev1, r) := PushItem(su, dev, items[0], DisplaySpec(p), depth, stats);
      if r.Ok? {
        NextReady(su, dev, dev1, idx, p, c, done, items);
        PushedItems(su, dev1, idx, p, c, done + [items[0]], items[1..], depth, r.value);
        var (dev2, r2) := PushItems(su, dev1, items[1..], DisplaySpec(p), depth, r.value);
        if r2.Ok? {
          ArrivedTwice(su, dev, dev1, dev2, idx, p, c, done + [items[0]], done + items);
        }
      }
    }
  }

  lemma NothingFits(depth: nat)
    ensures AllFit([], depth)
  {
  }

  lemma ReadyArrived(su: Setup, dev: Dev, idx: nat, p: DevPath, c: Handle, done: seq<Item>, items: seq<Item>)
    requires Ready(su, dev, idx, p, c, done, items)
    ensures Arrived(su, dev, idx, p, c, done, dev)
  {
    hide Place, Holds, Portable;
    AlreadyThere(su, dev, idx, p, c, done);
  }

  lemma {:induction false} PushedItem(su: Setup, dev: Dev, idx: nat, p: DevPath, c: Handle, done: seq<Item>,
      items: seq<Item>, depth: nat, stats: Stats)
    requires |dev| == |su.storages| && Ready(su, dev, idx, p, c, done, items) && items != []
    ensures var (dev', r) := PushItem(su, dev, items[0], DisplaySpec(p), depth, stats);
            && (r.Ok? ==> r == Ok(stats.Plus(ItemStats(items[0].node))) && Arrived(su, dev, idx, p, c, done + [items[0]], dev'))
            && (r.Ok? && items[0].node.Folder? ==> Fits(items[0].node.items, depth + 1))
            && (Accepting(su.phone) && (items[0].node.Folder? ==> Fits(items[0].node.items, depth + 1)) ==> r.Ok?)
    decreases items[0], 2
  {
    hide Ready, Arrived, MkdirAll, StoreAt, DisplaySpec, JoinDevice, Tally, PushItems, AllFit, Accepting;
    match items[0].node {
      case Odd =>
        OddArrived(su, dev, idx, p, c, done, items);
      case File(data) =>
        PushedFile(su, dev, idx, p, c, done, items, data);
        assert PushItem(su, dev, items[0], DisplaySpec(p), depth, stats).0 == StoreAt(su, dev, DisplaySpec(p), items[0].name, |data|, data).0;
      case Folder(sub) =>
        var n := items[0].name;
        var dev1 := PushedFolder(su, dev, idx, p, c, done, items);
        if MkdirAll(su, dev, JoinDevice(DisplaySpec(p), n)).1.Ok? && depth + 1 <= MAX_TREE_DEPTH {
          var x := dev[idx].next;
          assert [] + sub == sub;
          PushedItems(su, dev1, idx, Child(p, n), x, [], sub, depth + 1, stats.Plus(ONE_DIR));
          var (dev2, r2) := PushItems(su, dev1, sub, DisplaySpec(Child(p, n)), depth + 1, stats.Plus(ONE_DIR));
          assert PushItem(su, dev, items[0], DisplaySpec(p), depth, stats) == (dev2, r2);
          if r2.Ok? {
            PushedInside(su, dev, dev1, dev2, idx, p, c, done, items);
          }
        } else if MkdirAll(su, dev, JoinDevice(DisplaySpec(p), n)).1.Ok? {
          assert PushContents(su, dev1, sub, DisplaySpec(Child(p, n)), depth + 1, stats.Plus(ONE_DIR)).1.Err?;
        }
    }
  }

  lemma OddArrived(su: Setup, dev: Dev, idx: nat, p: DevPath, c: Handle, done: seq<Item>, items: seq<Item>)
    requires Ready(su, dev, idx, p, c, done, items) && items != [] && items[0].node.Odd?
    ensures Arrived(su, dev, idx, p, c, done + [items[0]], dev)
  {
    hide At, AllValid, Holds, Portable;
    HoldsOdd(su.phone.folding, dev[idx], c, done, items[0]);
    AlreadyThere(su, dev, idx, p, c, done + [items[0]]);
  }

  lemma EmptyHolds(f: Folding, s: Store, x: Handle)
    requires Kids(s, x) == map[]
    ensures Holds(f, s, x, [])
  {
  }

  lemma PushedFile(su: Setup, dev: Dev, idx: nat, p: DevPath, c: Handle, done: seq<Item>, items: seq<Item>, data: Bytes)
    requires Ready(su, dev, idx, p, c, done, items) && items != [] && items[0].node == File(data)
    ensures |dev| == |su.storages|
    ensures var (dev', r) := StoreAt(su, dev, DisplaySpec(p), items[0].name, |data|, data);
            (r.Ok? ==> Arrived(su, dev, idx, p, c, done + [items[0]], dev')) && (Accepting(su.phone) ==> r.Ok?)
  {
    hide Holds, Portable, StoreAt, DisplaySpec, At, Accepting, Extends;
    var item, s := items[0], dev[idx];
    NextIsNew(su.chars, su.phone.folding, s, c, done, items);
    StoredFile(su, dev, idx, p, c, item.name, data);
    if StoreAt(su, dev, DisplaySpec(p), item.name, |data|, data).1.Ok? {
      HoldsMore(su.phone.folding, s, Add(s, Object(c, item.name, false, data)), c, done, item, s.next);
    }
  }

  /** The first half of pushing a folder: it is there, and empty. */
  lemma PushedFolder(su: Setup, dev: Dev, idx: nat, p: DevPath, c: Handle, done: seq<Item>, items: seq<Item>) returns (dev1: Dev)
    requires Ready(su, dev, idx, p, c, done, items) && items != [] && items[0].node.Folder?
    ensures |dev| == |su.storages| && idx < |dev| && dev1 == dev[idx := Add(dev[idx], Object(c, items[0].name, true, []))]
    ensures JoinDevice(DisplaySpec(p), items[0].name) == DisplaySpec(Child(p, items[0].name))
    ensures var made := MkdirAll(su, dev, JoinDevice(DisplaySpec(p), items[0].name));
            && (made.1.Ok? ==> made.0 == dev1 && Ready(su, dev1, idx, Child(p, items[0].name), dev[idx].next, [], items[0].node.items))
            && (Accepting(su.phone) ==> made.1.Ok?)
  {
    hide GoodPart, DisplaySpec, JoinDevice, At, AllValid, MkdirAll, Has;
    var n, sub := items[0].name, items[0].node.items;
    dev1 := dev[idx := Add(dev[idx], Object(c, n, true, []))];
    NextIsNew(su.chars, su.phone.folding, dev[idx], c, done, items);
    MadeFolder(su, dev, idx, p, c, n);
    if MkdirAll(su, dev, JoinDevice(DisplaySpec(p), n)).1.Ok? {
      EmptyHolds(su.phone.folding, dev1[idx], dev[idx].next);
      assert [] + sub == sub;
    }
  }

  /** The second half: what arrived in the folder arrived in the directory. */
  lemma PushedInside(su: Setup, dev: Dev, dev1: Dev, dev2: Dev, idx: nat, p: DevPath, c: Handle, done: seq<Item>, items: seq<Item>)
    requires Ready(su, dev, idx, p, c, done, items) && items != [] && items[0].node.Folder?
    requires idx < |dev| && dev1 == dev[idx := Add(dev[idx], Object(c, items[0].name, true, []))]
    requires Arrived(su, dev1, idx, Child(p, items[0].name), dev[idx].next, items[0].node.items, dev2)
    ensures Arrived(su, dev, idx, p, c, done + [items[0]], dev2)
  {
    hide GoodPart, DisplaySpec, JoinDevice, Holds, Walk, WellFormed, MkdirAll, FindStorageIndex, Portable;
    var item, s, x, o := items[0], dev[idx], dev[idx].next, Object(c, items[0].name, true, []);
    NextIsNew(su.chars, su.phone.folding, s, c, done, items);
    AddExtends(s, o);
    ExtendsInside(s, dev1[idx], dev2[idx], c, x);
    AtKept(su, s, dev2[idx], p, c);
    assert dev1[idx].objects[x] == o;
    HoldsMore(su.phone.folding, s, dev2[idx], c, done, item, x);
  }

  // ---------- pulling ----------

  /** The item a name stands for. */
  function Pick(items: seq<Item>, n: string): Option<Node> {
    if items == [] then None
    else if !items[0].node.Odd? && items[0].name == n then Some(items[0].node)
    else Pick(items[1..], n)
  }

  function NamesOf(es: seq<Entry>): seq<string> {
    if es == [] then [] else [es[0].name] + NamesOf(es[1..])
  }

  function TallyNames(items: seq<Item>, ns: seq<string>): Stats {
    if ns == [] then Stats(0, 0, 0, 0)
    else
      var rest := TallyNames(items, ns[1..]);
      match Pick(items, ns[0])
      case Some(node) => Sent(ItemStats(node)).Plus(rest)
      case None => rest
  }

  function Grow(items: seq<Item>, ns: seq<string>, local: map<string, Tree>): map<string, Tree> {
    if ns == [] then local
    else
      match Pick(items, ns[0])
      case Some(node) => if node.Odd? then Grow(items, ns[1..], local) else Grow(items, ns[1..], local[ns[0] := TreeOf(node)])
      case None => Grow(items, ns[1..], local)
  }

  lemma {:induction false} PickIs(cs: Chars, f: Folding, items: seq<Item>, i: nat)
    requires Portable(cs, f, items) && i < |items| && !items[i].node.Odd?
    ensures Pick(items, items[i].name) == Some(items[i].node)
  {
    hide PortableItem;
    if i > 0 {
      assert !items[0].node.Odd? ==> Fold(f, items[0].name) != Fold(f, items[i].name);
      PortableRest(cs, f, items);
      PickIs(cs, f, items[1..], i - 1);
    }
  }

  lemma PortableRest(cs: Chars, f: Folding, items: seq<Item>)
    requires Portable(cs, f, items) && items != []
    ensures Portable(cs, f, items[1..])
  {
    hide PortableItem;
    var rest := items[1..];
    forall i | 0 <= i < |rest| && !rest[i].node.Odd?
      ensures PortableItem(cs, f, rest[i])
    {
      assert rest[i] == items[i + 1];
    }
    forall i, j | 0 <= i < j < |rest| && !rest[i].node.Odd? && !rest[j].node.Odd?
      ensures Fold(f, rest[i].name) != Fold(f, rest[j].name)
    {
      assert rest[i] == items[i + 1] && rest[j] == items[j + 1];
    }
  }

  lemma {:induction false} PickHas(items: seq<Item>, n: string)
    ensures Pick(items, n).Some? ==>
        exists i :: 0 <= i < |items| && !items[i].node.Odd? && items[i].name == n && items[i].node == Pick(items, n).value
    ensures Pick(items, n).None? ==> forall i :: 0 <= i < |items| && !items[i].node.Odd? ==> items[i].name != n
  {
    if items != [] && !(!items[0].node.Odd? && items[0].name == n) {
      PickHas(items[1..], n);
      if Pick(items, n).Some? {
        var i :| 0 <= i < |items[1..]| && !items[1..][i].node.Odd? && items[1..][i].name == n && items[1..][i].node == Pick(items, n).value;
        assert items[i + 1] == items[1..][i];
      } else {
        forall i | 0 <= i < |items| && !items[i].node.Odd?
          ensures items[i].name != n
        {
          assert i > 0 ==> items[i] == items[1..][i - 1];
        }
      }
    }
  }

  /** The names of a listing, whatever its order: once each, and exactly the names pushed. */
  ghost predicate Covers(items: seq<Item>, ns: seq<string>) {
    && (forall i, j :: 0 <= i < j < |ns| ==> ns[i] != ns[j])
    && (forall n :: n in ns <==> Pick(items, n).Some?)
  }

  /** Counting does not depend on the order of the listing. */
  lemma {:induction false} TallyInAnyOrder(cs: Chars, f: Folding, items: seq<Item>, ns: seq<string>)
    requires Portable(cs, f, items) && Covers(items, ns)
    ensures TallyNames(items, ns) == Sent(Tally(items))
    decreases items
  {
    hide Portable, ItemStats;
    if items == [] {
      if ns != [] {
        SomeName(ns);
      }
    } else {
      var rest := items[1..];
      PortableRest(cs, f, items);
      if items[0].node.Odd? {
        SameTally(items, rest, ns);
        TallyInAnyOrder(cs, f, rest, ns);
        OddIsSkipped();
      } else {
        var n := items[0].name;
        assert Pick(items, n).Some? && n in ns;
        var j :| 0 <= j < |ns| && ns[j] == n;
        var others := ns[..j] + ns[j + 1..];
        FirstNotInRest(cs, f, items);
        TallyWithout(items, ns, j);
        OthersCover(items, ns, j);
        SameTally(items, rest, others);
        TallyInAnyOrder(cs, f, rest, others);
      }
    }
  }

  lemma SomeName(ns: seq<string>)
    requires ns != []
    ensures exists n :: n in ns
  {
    assert ns[0] in ns;
  }

  lemma OddIsSkipped()
    ensures ItemStats(Odd) == SKIPPED
  {
  }

  lemma FirstNotInRest(cs: Chars, f: Folding, items: seq<Item>)
    requires Portable(cs, f, items) && items != [] && !items[0].node.Odd?
    ensures Pick(items[1..], items[0].name).None?
  {
    hide PortableItem;
    PickHas(items[1..], items[0].name);
    forall i | 0 <= i < |items[1..]| && !items[1..][i].node.Odd?
      ensures items[1..][i].name != items[0].name
    {
      assert items[1..][i] == items[i + 1];
    }
  }

  lemma {:induction false} SameTally(items: seq<Item>, rest: seq<Item>, ns: seq<string>)
    requires forall n :: n in ns ==> Pick(items, n) == Pick(rest, n)
    ensures TallyNames(items, ns) == TallyNames(rest, ns)
  {
    hide Pick;
    if ns != [] {
      SameTally(items, rest, ns[1..]);
    }
  }

  lemma {:induction false} TallyWithout(items: seq<Item>, ns: seq<string>, j: nat)
    requires j < |ns| && Pick(items, ns[j]).Some?
    ensures TallyNames(items, ns) == Sent(ItemStats(Pick(items, ns[j]).value)).Plus(TallyNames(items, ns[..j] + ns[j + 1..]))
  {
    hide Pick, ItemStats;
    var others := ns[..j] + ns[j + 1..];
    if j == 0 {
      assert others == ns[1..];
    } else {
      TallyWithout(items, ns[1..], j - 1);
      assert ns[1..][..j - 1] + ns[1..][j..] == others[1..];
      assert others[0] == ns[0];
    }
  }

  lemma OthersCover(items: seq<Item>, ns: seq<string>, j: nat)
    requires items != [] && !items[0].node.Odd? && j < |ns| && ns[j] == items[0].name && Covers(items, ns)
    requires Pick(items[1..], items[0].name).None?
    ensures Covers(items[1..], ns[..j] + ns[j + 1..])
    ensures forall n :: n in ns[..j] + ns[j + 1..] ==> Pick(items, n) == Pick(items[1..], n)
  {
    var others := ns[..j] + ns[j + 1..];
    forall n
      ensures n in others <==> n in ns && n != ns[j]
    {
      if n in ns && n != ns[j] {
        var i :| 0 <= i < |ns| && ns[i] == n;
        assert others[if i < j then i else i - 1] == n;
      }
      if n in others {
        var i :| 0 <= i < |others| && others[i] == n;
        assert ns[if i < j then i else i + 1] == n;
      }
    }
  }

  /** The pulled directory holds the clean tree, whatever the order of the listing. */
  lemma {:induction false} GrownGet(items: seq<Item>, ns: seq<string>, local: map<string, Tree>)
    requires forall i, j :: 0 <= i < j < |ns| ==> ns[i] != ns[j]
    requires forall n :: n in ns ==> Pick(items, n).Some? && !Pick(items, n).value.Odd?
    ensures Grow(items, ns, local).Keys == local.Keys + (set n | n in ns)
    ensures forall n :: n in ns ==> Grow(items, ns, local)[n] == TreeOf(Pick(items, n).value)
    ensures forall n :: n in local && n !in ns ==> Grow(items, ns, local)[n] == local[n]
  {
    hide Pick, TreeOf;
    if ns != [] {
      GrownGet(items, ns[1..], local[ns[0] := TreeOf(Pick(items, ns[0]).value)]);
      assert ns == [ns[0]] + ns[1..];
    }
  }

  lemma {:induction false} CleanGet(cs: Chars, f: Folding, items: seq<Item>, n: string)
    requires Portable(cs, f, items)
    ensures n in Clean(items) <==> Pick(items, n).Some?
    ensures Pick(items, n).Some? ==> !Pick(items, n).value.Odd? && Clean(items)[n] == TreeOf(Pick(items, n).value)
    decreases items
  {
    hide Portable, TreeOf;
    if items != [] {
      PortableRest(cs, f, items);
      CleanGet(cs, f, items[1..], n);
    }
  }

  lemma GrownIsClean(cs: Chars, f: Folding, items: seq<Item>, ns: seq<string>)
    requires Portable(cs, f, items) && Covers(items, ns)
    ensures Grow(items, ns, map[]) == Clean(items)
  {
    hide Portable, Pick, TreeOf, Clean, Grow;
    forall n
      ensures n in Clean(items) <==> Pick(items, n).Some?
      ensures Pick(items, n).Some? ==> !Pick(items, n).value.Odd? && Clean(items)[n] == TreeOf(Pick(items, n).value)
    {
      CleanGet(cs, f, items, n);
    }
    GrownGet(items, ns, map[]);
  }

  lemma ListedAt(su: Setup, dev: Dev, idx: nat, p: DevPath, c: Handle)
    requires Place(su, dev, idx, p, c)
    ensures List(su, dev, DisplaySpec(p)) == Ok(Entries(su.phone, Kids(dev[idx], c)))
  {
    hide WellFormed, GoodPart, ParseSpec, DisplaySpec, Valid, Kids, Walk, FindStorageIndex, Entries;
    ParseDisplay(su.chars, p);
  }

  /** One entry of the listing of a directory that holds `items`. */
  ghost predicate Listed(su: Setup, s: Store, c: Handle, e: Entry) {
    e.handle in Kids(s, c) && e == Describe(e.handle, s.objects[e.handle])
  }

  lemma WhichItem(su: Setup, s: Store, c: Handle, items: seq<Item>, e: Entry) returns (i: nat)
    requires Portable(su.chars, su.phone.folding, items) && Holds(su.phone.folding, s, c, items) && Listed(su, s, c, e)
    ensures i < |items| && !items[i].node.Odd? && items[i].name == e.name && PortableItem(su.chars, su.phone.folding, items[i])
    ensures e.handle in s.objects && Matches(su.phone.folding, s, e.handle, items[i].node) && Pick(items, e.name) == Some(items[i].node)
  {
    hide Matches, PortableItem;
    i :| 0 <= i < |items| && !items[i].node.Odd? && items[i].name == s.objects[e.handle].name;
    assert Has(su.phone.folding, s, c, items[i]);
    var x :| x in Kids(s, c) && s.objects[x].name == items[i].name && Matches(su.phone.folding, s, x, items[i].node);
    assert x == e.handle;
    PickIs(su.chars, su.phone.folding, items, i);
  }

  /** The names of a listing cover the items pushed. */
  lemma NamesCover(su: Setup, s: Store, c: Handle, items: seq<Item>)
    requires Portable(su.chars, su.phone.folding, items) && Holds(su.phone.folding, s, c, items)
    ensures Covers(items, NamesOf(Entries(su.phone, Kids(s, c))))
    ensures forall e :: e in Entries(su.phone, Kids(s, c)) ==> Listed(su, s, c, e)
  {
    hide Has, Pick, Entries;
    var es := Entries(su.phone, Kids(s, c));
    forall e | e in es
      ensures Listed(su, s, c, e)
    {
      EntriesAreKids(su.phone, Kids(s, c), e);
    }
    NamesAt(es);
    EntriesDiffer(su.phone, s, c);
    forall n
      ensures n in NamesOf(es) <==> Pick(items, n).Some?
    {
      NameIsPicked(su, s, c, items, n);
    }
  }

  lemma {:induction false} NamesAt(es: seq<Entry>)
    ensures |NamesOf(es)| == |es| && forall i :: 0 <= i < |es| ==> NamesOf(es)[i] == es[i].name
  {
    if es != [] {
      NamesAt(es[1..]);
    }
  }

  lemma EntriesDiffer(ph: Phone, s: Store, c: Handle)
    requires DistinctKids(ph.folding, s, c)
    ensures var es := Entries(ph, Kids(s, c)); forall i, j :: 0 <= i < j < |es| ==> es[i].name != es[j].name
  {
    var o := ph.order(Kids(s, c));
    assert IsOrder(o, Kids(s, c));
    var es := Entries(ph, Kids(s, c));
    forall i, j | 0 <= i < j < |es|
      ensures es[i].name != es[j].name
    {
      assert o[i] in o && o[j] in o && o[i] != o[j];
    }
  }

  lemma NameIsPicked(su: Setup, s: Store, c: Handle, items: seq<Item>, n: string)
    requires Portable(su.chars, su.phone.folding, items) && Holds(su.phone.folding, s, c, items)
    ensures n in NamesOf(Entries(su.phone, Kids(s, c))) <==> Pick(items, n).Some?
  {
    hide Pick, Matches, Has, Portable, Holds, Entries, PortableItem;
    var es := Entries(su.phone, Kids(s, c));
    NamesAt(es);
    if n in NamesOf(es) {
      var i :| 0 <= i < |es| && NamesOf(es)[i] == n;
      EntriesAreKids(su.phone, Kids(s, c), es[i]);
      var _ := WhichItem(su, s, c, items, es[i]);
    }
    if Pick(items, n).Some? {
      var x := PickedIsThere(su.phone.folding, s, c, items, n);
      EntriesAreKids(su.phone, Kids(s, c), Describe(x, s.objects[x]));
      var j :| 0 <= j < |es| && es[j] == Describe(x, s.objects[x]);
      assert NamesOf(es)[j] == n;
    }
  }

  lemma PickedIsThere(f: Folding, s: Store, c: Handle, items: seq<Item>, n: string) returns (x: Handle)
    requires Holds(f, s, c, items) && Pick(items, n).Some?
    ensures x in Kids(s, c) && s.objects[x].name == n
  {
    hide Pick, Matches;
    PickHas(items, n);
    var i :| 0 <= i < |items| && !items[i].node.Odd? && items[i].name == n && items[i].node == Pick(items, n).value;
    assert Has(f, s, c, items[i]);
    x :| x in Kids(s, c) && s.objects[x].name == items[i].name && Matches(f, s, x, items[i].node);
  }

  // ---------- pulling, continued ----------

  /** Pulling one entry: the item it stands for, as a tree and as a count. */
  lemma {:induction false} PulledEntry(su: Setup, dev: Dev, idx: nat, p: DevPath, c: Handle, items: seq<Item>,
      e: Entry, local: map<string, Tree>, depth: nat)
    requires |dev| == |su.storages| && depth <= MAX_TREE_DEPTH && Stands(su, dev, idx, p, c, items, depth)
    requires idx < |dev| && Listed(su, dev[idx], c, e) && e.name !in local
    ensures Pick(items, e.name).Some? && !Pick(items, e.name).value.Odd?
    ensures var node := Pick(items, e.name).value;
            PullEntry(su, dev, DisplaySpec(p), e, local, depth) == (Ok(Sent(ItemStats(node))), local[e.name := TreeOf(node)])
    decreases items, 0
  {
    hide Stands, Listed, DisplaySpec, JoinDevice, Pull, FetchAt, Pick, Tally, Clean;
    var i := EntryFacts(su, dev, idx, p, c, items, e, depth);
    match items[i].node {
      case File(data) =>
      case Folder(sub) =>
        PulledFolder(su, dev, idx, Child(p, e.name), e.handle, sub, depth + 1);
    }
  }

  /** A directory that holds `items`, ready to be pulled. */
  ghost predicate Stands(su: Setup, dev: Dev, idx: nat, p: DevPath, c: Handle, items: seq<Item>, depth: nat) {
    && Place(su, dev, idx, p, c) && Delivering(su.phone) && Holds(su.phone.folding, dev[idx], c, items)
    && Portable(su.chars, su.phone.folding, items) && Fits(items, depth)
  }

  lemma EntryFacts(su: Setup, dev: Dev, idx: nat, p: DevPath, c: Handle, items: seq<Item>, e: Entry, depth: nat) returns (i: nat)
    requires idx < |dev| == |su.storages| && Stands(su, dev, idx, p, c, items, depth) && Listed(su, dev[idx], c, e)
    ensures i < |items| && !items[i].node.Odd? && Pick(items, e.name) == Some(items[i].node) && Safe(e.name)
    ensures JoinDevice(DisplaySpec(p), e.name) == DisplaySpec(Child(p, e.name))
    ensures items[i].node.File? ==> !e.isDir && FetchAt(su, dev, JoinDevice(DisplaySpec(p), e.name)) == Ok(items[i].node.data)
    ensures items[i].node.Folder? ==>
        e.isDir && depth + 1 <= MAX_TREE_DEPTH && Stands(su, dev, idx, Child(p, e.name), e.handle, items[i].node.items, depth + 1)
  {
    hide WellFormed, GoodPart, DisplaySpec, JoinDevice, ParseSpec, FetchAt, Walk, Fits, Valid;
    var s := dev[idx];
    i := WhichItem(su, s, c, items, e);
    ChildAt(su, s, p, c, e.name, e.handle);
    if items[i].node.Folder? {
      FitsAt(items, depth, i);
    } else {
      FetchedAt(su, dev, idx, p, e.name, e.handle);
    }
  }

  lemma FitsAt(items: seq<Item>, depth: nat, i: nat)
    requires i < |items| && items[i].node.Folder? && Fits(items, depth)
    ensures Fits(items[i].node.items, depth + 1) && depth + 1 <= MAX_TREE_DEPTH
  {
  }

  lemma FetchedAt(su: Setup, dev: Dev, idx: nat, p: DevPath, n: string, x: Handle)
    requires idx < |dev| == |su.storages| && FindStorageIndex(su, p.storageRef) == Ok(idx) && Delivering(su.phone) && !p.IsRoot()
    requires ParseSpec(su.chars, JoinDevice(DisplaySpec(p), n)) == Ok(Child(p, n))
    requires Walk(su.phone, dev[idx], ROOT, p.segments + [n], false) == Ok(x)
    requires x in dev[idx].objects && !dev[idx].objects[x].isDir
    ensures FetchAt(su, dev, JoinDevice(DisplaySpec(p), n)) == Ok(dev[idx].objects[x].data)
  {
    hide ParseSpec, Walk, JoinDevice, DisplaySpec, FindStorageIndex;
    var data := dev[idx].objects[x].data;
    assert |data| <= Sum(su.phone.chunking(data)) && su.phone.breaks(data).None?;
  }

  /** Pulling the directory itself. */
  lemma {:induction false} PulledFolder(su: Setup, dev: Dev, idx: nat, p: DevPath, c: Handle, items: seq<Item>, depth: nat)
    requires |dev| == |su.storages| && Stands(su, dev, idx, p, c, items, depth)
    ensures Pull(su, dev, DisplaySpec(p), map[], depth) == (Ok(ONE_DIR.Plus(Sent(Tally(items)))), Clean(items))
    decreases items, 2
  {
    hide At, Holds, Portable, Delivering, DisplaySpec, List, Tally, Clean, PullEntries, Entries, NamesOf, Grow,
      TallyNames, Pick;
    var es := Entries(su.phone, Kids(dev[idx], c));
    ListedAt(su, dev, idx, p, c);
    NamesCover(su, dev[idx], c, items);
    var ns := NamesOf(es);
    TallyInAnyOrder(su.chars, su.phone.folding, items, ns);
    GrownIsClean(su.chars, su.phone.folding, items, ns);
    PulledRest(su, dev, idx, p, c, items, es, ONE_DIR, map[], depth);
  }

  /** The rest of a listing, in whatever order the phone gives it. */
  lemma {:induction false} PulledRest(su: Setup, dev: Dev, idx: nat, p: DevPath, c: Handle, items: seq<Item>, es: seq<Entry>,
                                      stats: Stats, local: map<string, Tree>, depth: nat)
    requires |dev| == |su.storages| && depth <= MAX_TREE_DEPTH && Stands(su, dev, idx, p, c, items, depth)
    requires idx < |dev| && (forall e :: e in es ==> Listed(su, dev[idx], c, e))
    requires forall i, j :: 0 <= i < j < |NamesOf(es)| ==> NamesOf(es)[i] != NamesOf(es)[j]
    requires forall n :: n in NamesOf(es) ==> n !in local
    ensures PullEntries(su, dev, DisplaySpec(p), es, stats, local, depth)
            == (Ok(stats.Plus(TallyNames(items, NamesOf(es)))), Grow(items, NamesOf(es), local))
    decreases items, 1, |es|
  {
    hide Stands, Listed, DisplaySpec, PullEntry, Pick, ItemStats, TreeOf;
    if es != [] {
      PulledEntry(su, dev, idx, p, c, items, es[0], local, depth);
      var node := Pick(items, es[0].name).value;
      var after := local[es[0].name := TreeOf(node)];
      var ns, rest := NamesOf(es), NamesOf(es[1..]);
      assert ns == [es[0].name] + rest && forall i :: 0 <= i < |rest| ==> rest[i] == ns[i + 1];
      forall i, j | 0 <= i < j < |rest|
        ensures rest[i] != rest[j]
      {
        assert ns[i + 1] != ns[j + 1];
      }
      forall n | n in rest
        ensures n in ns && n != es[0].name
      {
        var k :| 0 <= k < |rest| && rest[k] == n;
        assert ns[0] != ns[k + 1];
      }
      PulledRest(su, dev, idx, p, c, items, es[1..], stats.Plus(Sent(ItemStats(node))), after, depth);
    }
  }

  // ---------- the round trip ----------

  /** A path a tree can be pushed to: a part of it is missing, or all that stands there is an
      empty directory. */
  ghost predicate Fresh(su: Setup, s: Store, p: DevPath) {
    match Walk(su.phone, s, ROOT, p.segments, true)
    case Err(e) => e == NotFound
    case Ok(x) => Kids(s, x) == map[]
  }

  /** A device, and a path on its storage `idx`. */
  ghost predicate Addressed(su: Setup, dev: Dev, idx: nat, p: DevPath) {
    && |dev| == |su.storages| && idx < |dev| && AllValid(dev)
    && FindStorageIndex(su, p.storageRef) == Ok(idx) && WellFormed(su.chars, p) && !p.IsRoot()
  }

  /** Push a tree to a new name under any path, existing or not, and pull it back into an empty
      directory. When the push succeeds it has counted every item, and from a phone that delivers
      files whole the pull succeeds with the same tree minus what is not pushed, and the same counts
      of files, directories and bytes. On a phone that accepts everything the push fails only for
      depth. */
  lemma PushThenPull(su: Setup, dev: Dev, idx: nat, p: DevPath, name: string, items: seq<Item>)
    requires Addressed(su, dev, idx, p)
    requires GoodComponent(su.chars, name) && Portable(su.chars, su.phone.folding, items)
    requires Fresh(su, dev[idx], Child(p, name))
    ensures |Push(su, dev, name, items, DisplaySpec(p)).0| == |dev|
    ensures var (dev', pushed) := Push(su, dev, name, items, DisplaySpec(p));
            var (pulled, tree) := Pull(su, dev', JoinDevice(DisplaySpec(p), name), map[], 0);
            && (pushed.Ok? ==> pushed.value == ONE_DIR.Plus(Tally(items)) && Fits(items, 0))
            && (pushed.Ok? && Delivering(su.phone) ==> tree == Clean(items) && pulled == Ok(Sent(pushed.value)))
            && (Accepting(su.phone) ==> (pushed.Ok? <==> Fits(items, 0)))
  {
    hide DisplaySpec, JoinDevice, Place, Accepting, Delivering, Holds, Portable, AllFit, Push, Pull, Arrived, Tally, Fresh,
      WellFormed, GoodPart, FindStorageIndex;
    var x := Pushed(su, dev, idx, p, name, items);
    var (dev2, r) := Push(su, dev, name, items, DisplaySpec(p));
    if r.Ok? && Delivering(su.phone) {
      PulledFolder(su, dev2, idx, Child(p, name), x, items, 0);
    }
  }

  /** Making the path of a fresh target leaves an empty directory there. */
  lemma MadeTarget(su: Setup, dev: Dev, idx: nat, p: DevPath, name: string) returns (x: Handle)
    requires Addressed(su, dev, idx, p) && GoodComponent(su.chars, name) && Fresh(su, dev[idx], Child(p, name))
    ensures JoinDevice(DisplaySpec(p), name) == DisplaySpec(Child(p, name))
    ensures var (after, made) := MkdirAll(su, dev, JoinDevice(DisplaySpec(p), name));
            && |after| == |dev|
            && (made.Ok? ==> Place(su, after, idx, Child(p, name), x) && Kids(after[idx], x) == map[])
            && (Accepting(su.phone) ==> made.Ok?)
  {
    hide WellFormed, GoodPart, ParseSpec, JoinDevice, DisplaySpec, Sound, Kids, Walk, MkdirWalk, FindStorageIndex;
    var q, s := Child(p, name), dev[idx];
    ParseJoin(su.chars, p, name);
    ChildDisplay(su.chars, p, name);
    ChildWellFormed(su.chars, p, name);
    var rank := SomeRank(s.objects);
    var _, _ := MkdirWalks(su.phone, s, ROOT, q.segments, rank);
    var (t, r) := MkdirWalk(su.phone, s, ROOT, q.segments);
    x := if r.Ok? then r.value else ROOT;
    if Walk(su.phone, s, ROOT, q.segments, true).Ok? {
      ExistingPathMakesNothing(su.phone, s, ROOT, q.segments);
    } else {
      MkdirEndsEmpty(su.phone, s, ROOT, q.segments, rank);
      AcceptsFolders(su.phone);
    }
  }

  /** The push of a whole tree. */
  lemma Pushed(su: Setup, dev: Dev, idx: nat, p: DevPath, name: string, items: seq<Item>) returns (x: Handle)
    requires Addressed(su, dev, idx, p)
    requires GoodComponent(su.chars, name) && Portable(su.chars, su.phone.folding, items)
    requires Fresh(su, dev[idx], Child(p, name))
    ensures JoinDevice(DisplaySpec(p), name) == DisplaySpec(Child(p, name))
    ensures var (dev', pushed) := Push(su, dev, name, items, DisplaySpec(p));
            && idx < |dev'| == |dev| == |su.storages|
            && (pushed.Ok? ==>
                  && pushed.value == ONE_DIR.Plus(Tally(items)) && Fits(items, 0)
                  && Place(su, dev', idx, Child(p, name), x) && Holds(su.phone.folding, dev'[idx], x, items))
            && (Accepting(su.phone) ==> (pushed.Ok? <==> Fits(items, 0)))
  {
    hide GoodPart, WellFormed, DisplaySpec, JoinDevice, MkdirAll, At, AllValid, Accepting, Holds, Extends, Portable,
      AllFit, PushItems, Fresh, Kids;
    x := MadeTarget(su, dev, idx, p, name);
    var (dev1, made) := MkdirAll(su, dev, JoinDevice(DisplaySpec(p), name));
    if made.Ok? {
      EmptyHolds(su.phone.folding, dev1[idx], x);
      assert [] + items == items;
      PushedItems(su, dev1, idx, Child(p, name), x, [], items, 0, ONE_DIR);
      assert Push(su, dev, name, items, DisplaySpec(p)) == PushItems(su, dev1, items, DisplaySpec(Child(p, name)), 0, ONE_DIR);
    }
  }

  lemma AcceptsFolders(ph: Phone)
    ensures Accepting(ph) ==> forall s: Store, d: Handle, n: string :: ph.refuse(s, Create(d, n)).None?
  {
  }
}
