/** What `mkdir_all` (actor.rs:1124-1180) establishes. */
module MkdirTheorem {
  import opened Wrappers
  import opened Names
  import opened Phones
  import opened PlainActor

  /** `d` lies strictly above `c` in the ranking of the forest. */
  ghost predicate Above(rank: map<Handle, nat>, d: Handle, c: Handle) {
    c != ROOT && (d == ROOT || (d in rank && c in rank && rank[c] < rank[d]))
  }

  /** `t` is `s` with fresh directories added, nothing shown above or beside `cur` changed. */
  ghost predicate Grown(s: Store, t: Store, rank: map<Handle, nat>, cur: Handle) {
    && Valid(t) && s.next <= t.next
    && (forall h :: h in s.objects ==> h in t.objects && t.objects[h] == s.objects[h])
    && (forall h :: h in t.objects && h !in s.objects ==> s.next <= h && t.objects[h].isDir)
    && (forall d :: Above(rank, d, cur) && (d == ROOT || d in s.objects) ==> Kids(t, d) == Kids(s, d))
  }

  lemma UniqueMatch(ph: Phone, kids: map<Handle, Object>, h: Handle, o: Object, seg: string)
    requires h !in kids && Fold(ph.folding, o.name) == Fold(ph.folding, seg)
    requires ChildByName(ph.folding, Entries(ph, kids), seg).None?
    ensures ChildByName(ph.folding, Entries(ph, kids[h := o]), seg) == Some(Describe(h, o))
  {
    var es, es' := Entries(ph, kids), Entries(ph, kids[h := o]);
    ChildIsListed(ph.folding, es, seg);
    ChildIsListed(ph.folding, es', seg);
    EntriesAreKids(ph, kids[h := o], Describe(h, o));
    forall e | e in es' && Fold(ph.folding, e.name) == Fold(ph.folding, seg)
      ensures e == Describe(h, o)
    {
      EntriesAreKids(ph, kids[h := o], e);
      EntriesAreKids(ph, kids, e);
    }
  }

  /** Creating a chain of directories adds that many objects, each below the last; when a creation
      is refused, what was made is exactly what a shorter path would have made. */
  lemma {:induction false} CreateAllGrows(ph: Phone, s: Store, cur: Handle, segs: seq<string>, rank: map<Handle, nat>)
    returns (k: nat)
    requires Valid(s) && Ranks(s.objects, rank) && IsDirectory(s, cur)
    ensures var (t, r) := CreateAll(ph, s, cur, segs);
            && Grown(s, t, rank, cur)
            && (forall d :: d != cur && (d == ROOT || d in s.objects) ==> Kids(t, d) == Kids(s, d))
            && k <= |segs| && t.next == s.next + k && |t.objects| == |s.objects| + k
            && (r.Ok? ==> k == |segs| && IsDirectory(t, r.value))
            && (r.Err? ==> k < |segs| && CreateAll(ph, s, cur, segs[..k]).0 == t && CreateAll(ph, s, cur, segs[..k]).1.Ok?)
    decreases |segs|
  {
    hide Valid, Ranks, Walk, Entries, Grown, Kids;
    GrownSelf(s, rank, cur);
    k := 0;
    if segs != [] {
      var (s1, r1) := Apply(ph, s, Create(cur, segs[0]));
      if r1.Ok? {
        CreateOne(ph, s, cur, segs[0], rank);
        var rank1 := (map h | h in rank :: rank[h] + 1)[s.next := 0];
        var k1 := CreateAllGrows(ph, s1, r1.value, segs[1..], rank1);
        k := k1 + 1;
        GrownTwice(s, s1, CreateAll(ph, s, cur, segs).0, rank, rank1, cur);
        assert segs[..k][1..] == segs[1..][..k1];
      }
    }
  }

  lemma GrownSelf(s: Store, rank: map<Handle, nat>, cur: Handle)
    requires Valid(s)
    ensures Grown(s, s, rank, cur)
  {
  }

  lemma GrownTwice(s: Store, s1: Store, t: Store, rank: map<Handle, nat>, rank1: map<Handle, nat>, cur: Handle)
    requires Valid(s) && Ranks(s.objects, rank)
    requires exists o: Object :: o.isDir && o.parent == cur && s1 == Add(s, o)
    requires s.next !in s.objects && s.next != ROOT
    requires forall d :: d != cur ==> Kids(s1, d) == Kids(s, d)
    requires forall d :: d != s.next && (d == ROOT || d in s1.objects) ==> Kids(t, d) == Kids(s1, d)
    requires Grown(s1, t, rank1, s.next)
    ensures Grown(s, t, rank, cur)
  {
    assert forall d :: Above(rank, d, cur) ==> d != cur;
  }

  lemma CreateOne(ph: Phone, s: Store, cur: Handle, seg: string, rank: map<Handle, nat>)
    requires Valid(s) && Ranks(s.objects, rank) && IsDirectory(s, cur)
    requires Apply(ph, s, Create(cur, seg)).1.Ok?
    ensures var (s1, r1) := Apply(ph, s, Create(cur, seg));
            var o := Object(cur, seg, true, []);
            && Valid(s1) && Ranks(s1.objects, (map h | h in rank :: rank[h] + 1)[s.next := 0])
            && s1 == Add(s, o) && r1.value == s.next && IsDirectory(s1, s.next)
            && s.next != ROOT && s.next !in s.objects && |s1.objects| == |s.objects| + 1
            && Kids(s1, s.next) == map[] && Kids(s1, cur) == Kids(s, cur)[s.next := o]
            && (forall d :: d != cur ==> Kids(s1, d) == Kids(s, d))
  {
    var o := Object(cur, seg, true, []);
    AddSound(s, o);
    AddRanks(s, o, rank);
    assert Add(s, o).objects.Keys == s.objects.Keys + {s.next};
  }

  /** Below a directory that shows no such name, the created path walks. */
  lemma {:induction false} CreateAllWalks(ph: Phone, s: Store, cur: Handle, segs: seq<string>, rank: map<Handle, nat>)
    requires Valid(s) && Ranks(s.objects, rank) && IsDirectory(s, cur)
    requires segs != [] ==> ChildByName(ph.folding, Entries(ph, Kids(s, cur)), segs[0]).None?
    ensures var (t, r) := CreateAll(ph, s, cur, segs);
            r.Ok? ==> Walk(ph, t, cur, segs, true) == Ok(r.value)
    decreases |segs|
  {
    hide Valid, Ranks, Entries, Walk, Kids, Grown;
    NoSegments(ph, s, cur);
    if segs != [] {
      var (s1, r1) := Apply(ph, s, Create(cur, segs[0]));
      if r1.Ok? {
        var o := Object(cur, segs[0], true, []);
        CreateOne(ph, s, cur, segs[0], rank);
        EntriesCount(ph, map[]);
        var rank1 := (map h | h in rank :: rank[h] + 1)[s.next := 0];
        CreateAllWalks(ph, s1, s.next, segs[1..], rank1);
        NewIsNoKid(s, cur);
        UniqueMatch(ph, Kids(s, cur), s.next, o, segs[0]);
        CreatedShows(ph, s, s1, cur, segs, rank1);
        Unfold(ph, CreateAll(ph, s, cur, segs).0, cur, segs);
      }
    }
  }

  lemma NewIsNoKid(s: Store, d: Handle)
    requires s.next !in s.objects
    ensures s.next !in Kids(s, d)
  {
  }

  /** The rest of the chain leaves its first directory's parent as it was. */
  lemma CreatedShows(ph: Phone, s: Store, s1: Store, cur: Handle, segs: seq<string>, rank1: map<Handle, nat>)
    requires Valid(s1) && Ranks(s1.objects, rank1) && IsDirectory(s1, s.next) && cur != s.next && segs != []
    requires cur == ROOT || (cur in s1.objects && s1.objects[cur].isDir)
    requires Apply(ph, s, Create(cur, segs[0])) == (s1, Ok(s.next))
    ensures var t := CreateAll(ph, s, cur, segs).0; Kids(t, cur) == Kids(s1, cur) && IsDirectory(t, cur)
  {
    hide Valid, Ranks, Kids;
    var _ := CreateAllGrows(ph, s1, s.next, segs[1..], rank1);
  }

  lemma AddRanks(s: Store, o: Object, rank: map<Handle, nat>)
    requires Valid(s) && Ranks(s.objects, rank) && IsDirectory(s, o.parent)
    ensures Ranks(Add(s, o).objects, (map h | h in rank :: rank[h] + 1)[s.next := 0])
  {
    var shifted := (map h | h in rank :: rank[h] + 1)[s.next := 0];
    var objects := Add(s, o).objects;
    forall h | h in objects
      ensures Ranked(objects, shifted, h)
    {
      assert h in s.objects ==> Ranked(s.objects, rank, h);
    }
  }

  /** One segment of the two walks, case by case. */
  lemma Unfold(ph: Phone, s: Store, cur: Handle, segs: seq<string>)
    requires IsDirectory(s, cur) && segs != []
    ensures match ChildByName(ph.folding, Entries(ph, Kids(s, cur)), segs[0])
            case None => MkdirWalk(ph, s, cur, segs) == CreateAll(ph, s, cur, segs) && Walk(ph, s, cur, segs, true) == Err(NotFound)
            case Some(e) =>
              if e.isDir then
                && MkdirWalk(ph, s, cur, segs) == MkdirWalk(ph, s, e.handle, segs[1..])
                && Walk(ph, s, cur, segs, true) == Walk(ph, s, e.handle, segs[1..], true)
              else MkdirWalk(ph, s, cur, segs) == (s, Err(WrongKind)) && Walk(ph, s, cur, segs, true) == Err(WrongKind)
  {
  }

  lemma NoSegments(ph: Phone, s: Store, cur: Handle)
    ensures MkdirWalk(ph, s, cur, []) == (s, Ok(cur)) && Walk(ph, s, cur, [], true) == Ok(cur)
  {
  }

  ghost predicate Established(ph: Phone, s: Store, cur: Handle, segs: seq<string>, t: Store, r: Result<Handle>, found: nat, made: nat) {
    && found + made <= |segs| && t.next == s.next + made && |t.objects| == |s.objects| + made
    && Walk(ph, s, cur, segs[..found], true).Ok?
    && Missing(ph, s, cur, segs, found, made)
    && Finished(ph, t, cur, segs, r, found + made)
    && (r.Err? ==> CutShort(ph, s, cur, segs, t, found + made))
  }

  ghost predicate Missing(ph: Phone, s: Store, cur: Handle, segs: seq<string>, found: nat, made: nat) {
    made > 0 ==> found < |segs| && Walk(ph, s, cur, segs[..found + 1], true) == Err(NotFound)
  }

  ghost predicate Finished(ph: Phone, t: Store, cur: Handle, segs: seq<string>, r: Result<Handle>, n: nat) {
    r.Ok? ==> n == |segs| && IsDirectory(t, r.value) && Walk(ph, t, cur, segs, true) == Ok(r.value)
  }

  ghost predicate CutShort(ph: Phone, s: Store, cur: Handle, segs: seq<string>, t: Store, n: nat) {
    n <= |segs| && MkdirWalk(ph, s, cur, segs[..n]).0 == t && MkdirWalk(ph, s, cur, segs[..n]).1.Ok?
  }

  /** The main property, from any starting directory: `found` segments exist, `made` were missing
      and have been created. */
  lemma {:induction false} MkdirWalks(ph: Phone, s: Store, cur: Handle, segs: seq<string>, rank: map<Handle, nat>)
    returns (found: nat, made: nat)
    requires Valid(s) && Ranks(s.objects, rank) && IsDirectory(s, cur)
    ensures var (t, r) := MkdirWalk(ph, s, cur, segs);
            Grown(s, t, rank, cur) && Established(ph, s, cur, segs, t, r, found, made)
    decreases |segs|
  {
    hide Valid, Ranks, Entries, MkdirWalk, Walk, Kids, Established;
    found, made := 0, 0;
    NoSegments(ph, s, cur);
    if segs == [] {
      NothingToDo(ph, s, cur, segs);
    } else {
      Unfold(ph, s, cur, segs);
      var child := ChildByName(ph.folding, Entries(ph, Kids(s, cur)), segs[0]);
      if child.None? {
        made := MissingFromHere(ph, s, cur, segs, rank);
      } else if !child.value.isDir {
        NothingToDo(ph, s, cur, segs);
      } else {
        var c := child.value.handle;
        ChildBelow(ph, s, cur, segs[0], rank);
        found, made := MkdirWalks(ph, s, c, segs[1..], rank);
        OneDeeper(ph, s, cur, segs, rank, found, made);
        found := found + 1;
      }
    }
  }

  lemma NothingToDo(ph: Phone, s: Store, cur: Handle, segs: seq<string>)
    requires segs == [] || MkdirWalk(ph, s, cur, segs) == (s, Err(WrongKind))
    requires IsDirectory(s, cur)
    ensures var (t, r) := MkdirWalk(ph, s, cur, segs); Established(ph, s, cur, segs, t, r, 0, 0)
  {
    assert segs[..0] == [];
  }

  lemma MissingFromHere(ph: Phone, s: Store, cur: Handle, segs: seq<string>, rank: map<Handle, nat>) returns (made: nat)
    requires Valid(s) && Ranks(s.objects, rank) && IsDirectory(s, cur) && segs != []
    requires ChildByName(ph.folding, Entries(ph, Kids(s, cur)), segs[0]).None?
    ensures var (t, r) := MkdirWalk(ph, s, cur, segs);
            Grown(s, t, rank, cur) && Established(ph, s, cur, segs, t, r, 0, made)
  {
    hide Valid, Ranks, Entries, MkdirWalk, Walk, Kids, Grown;
    Unfold(ph, s, cur, segs);
    CreateAllWalks(ph, s, cur, segs, rank);
    made := CreateAllGrows(ph, s, cur, segs, rank);
    NoSegments(ph, s, cur);
    assert segs[..0] == [] && segs[..1][0] == segs[0];
    Unfold(ph, s, cur, segs[..1]);
    if made > 0 {
      assert segs[..made][0] == segs[0];
      Unfold(ph, s, cur, segs[..made]);
    }
  }

  lemma ChildBelow(ph: Phone, s: Store, cur: Handle, seg: string, rank: map<Handle, nat>)
    requires Ranks(s.objects, rank) && ChildByName(ph.folding, Entries(ph, Kids(s, cur)), seg).Some?
    ensures var e := ChildByName(ph.folding, Entries(ph, Kids(s, cur)), seg).value;
            && e.handle in Kids(s, cur) && e == Describe(e.handle, s.objects[e.handle])
            && (e.handle != ROOT ==> Above(rank, cur, e.handle))
            && (forall d :: Above(rank, d, cur) && e.handle != ROOT ==> Above(rank, d, e.handle))
            && (e.handle in s.objects)
  {
    ChildIsListed(ph.folding, Entries(ph, Kids(s, cur)), seg);
    var e := ChildByName(ph.folding, Entries(ph, Kids(s, cur)), seg).value;
    EntriesAreKids(ph, Kids(s, cur), e);
    assert Ranked(s.objects, rank, e.handle);
  }

  lemma TailOfTake(segs: seq<string>, n: nat)
    requires 0 < n <= |segs|
    ensures segs[..n][0] == segs[0] && segs[..n][1..] == segs[1..][..n - 1]
  {
  }

  lemma OneDeeper(ph: Phone, s: Store, cur: Handle, segs: seq<string>, rank: map<Handle, nat>, found: nat, made: nat)
    requires Valid(s) && Ranks(s.objects, rank) && IsDirectory(s, cur) && segs != []
    requires var child := ChildByName(ph.folding, Entries(ph, Kids(s, cur)), segs[0]);
             && child.Some? && child.value.isDir
             && var (t, r) := MkdirWalk(ph, s, child.value.handle, segs[1..]);
                Grown(s, t, rank, child.value.handle) && Established(ph, s, child.value.handle, segs[1..], t, r, found, made)
    ensures var (t, r) := MkdirWalk(ph, s, cur, segs);
            Grown(s, t, rank, cur) && Established(ph, s, cur, segs, t, r, found + 1, made)
  {
    hide Ranks, Entries, MkdirWalk, Walk, Reaches, Forest, Describe, Valid, Kids, Above, ChildByName, Grown, Missing,
      Finished, CutShort;
    var c := ChildByName(ph.folding, Entries(ph, Kids(s, cur)), segs[0]).value.handle;
    var (t, r) := MkdirWalk(ph, s, c, segs[1..]);
    GrownAbove(ph, s, cur, segs, rank, t);
    Unfold(ph, s, cur, segs);
    DeeperPrefix(ph, s, cur, segs, found);
    DeeperMissing(ph, s, cur, segs, found, made);
    DeeperFinished(ph, s, t, cur, segs, r, found + made);
    if r.Err? {
      DeeperCut(ph, s, cur, segs, t, found + made);
    }
  }

  lemma DeeperMissing(ph: Phone, s: Store, cur: Handle, segs: seq<string>, found: nat, made: nat)
    requires IsDirectory(s, cur) && segs != []
    requires var child := ChildByName(ph.folding, Entries(ph, Kids(s, cur)), segs[0]);
             child.Some? && child.value.isDir && Missing(ph, s, child.value.handle, segs[1..], found, made)
    ensures Missing(ph, s, cur, segs, found + 1, made)
  {
    hide Entries, MkdirWalk, Walk;
    if made > 0 {
      DeeperPrefix(ph, s, cur, segs, found + 1);
    }
  }

  lemma DeeperFinished(ph: Phone, s: Store, t: Store, cur: Handle, segs: seq<string>, r: Result<Handle>, n: nat)
    requires IsDirectory(t, cur) && segs != [] && Kids(t, cur) == Kids(s, cur)
    requires var child := ChildByName(ph.folding, Entries(ph, Kids(s, cur)), segs[0]);
             child.Some? && child.value.isDir && Finished(ph, t, child.value.handle, segs[1..], r, n)
    ensures Finished(ph, t, cur, segs, r, n + 1)
  {
    hide Entries, MkdirWalk, Walk, Kids;
    Unfold(ph, t, cur, segs);
  }

  lemma DeeperCut(ph: Phone, s: Store, cur: Handle, segs: seq<string>, t: Store, n: nat)
    requires IsDirectory(s, cur) && segs != []
    requires var child := ChildByName(ph.folding, Entries(ph, Kids(s, cur)), segs[0]);
             child.Some? && child.value.isDir && CutShort(ph, s, child.value.handle, segs[1..], t, n)
    ensures CutShort(ph, s, cur, segs, t, n + 1)
  {
    hide Entries, MkdirWalk, Walk;
    DeeperPrefix(ph, s, cur, segs, n);
  }

  /** Growth below a child is growth below its directory, which shows what it showed. */
  lemma GrownAbove(ph: Phone, s: Store, cur: Handle, segs: seq<string>, rank: map<Handle, nat>, t: Store)
    requires Valid(s) && Ranks(s.objects, rank) && IsDirectory(s, cur) && segs != []
    requires var child := ChildByName(ph.folding, Entries(ph, Kids(s, cur)), segs[0]);
             child.Some? && child.value.isDir && Grown(s, t, rank, child.value.handle)
    ensures Grown(s, t, rank, cur) && Kids(t, cur) == Kids(s, cur) && IsDirectory(t, cur)
  {
    hide Ranks, Entries, Reaches, Forest, Describe;
    var c := ChildByName(ph.folding, Entries(ph, Kids(s, cur)), segs[0]).value.handle;
    ChildBelow(ph, s, cur, segs[0], rank);
    assert Above(rank, cur, c) && (cur == ROOT || cur in s.objects);
  }

  lemma DeeperPrefix(ph: Phone, s: Store, cur: Handle, segs: seq<string>, n: nat)
    requires IsDirectory(s, cur) && n < |segs|
    requires var child := ChildByName(ph.folding, Entries(ph, Kids(s, cur)), segs[0]); child.Some? && child.value.isDir
    ensures var c := ChildByName(ph.folding, Entries(ph, Kids(s, cur)), segs[0]).value.handle;
            && MkdirWalk(ph, s, cur, segs[..n + 1]) == MkdirWalk(ph, s, c, segs[1..][..n])
            && Walk(ph, s, cur, segs[..n + 1], true) == Walk(ph, s, c, segs[1..][..n], true)
  {
    hide Entries, MkdirWalk, Walk;
    TailOfTake(segs, n + 1);
    Unfold(ph, s, cur, segs[..n + 1]);
  }

  lemma {:induction false} ExistingPathMakesNothing(ph: Phone, s: Store, cur: Handle, segs: seq<string>)
    requires Walk(ph, s, cur, segs, true).Ok?
    ensures MkdirWalk(ph, s, cur, segs) == (s, Walk(ph, s, cur, segs, true))
    decreases |segs|
  {
    if segs != [] {
      var child := ChildByName(ph.folding, ListObjects(ph, s, cur).value, segs[0]);
      ExistingPathMakesNothing(ph, s, child.value.handle, segs[1..]);
    }
  }

  lemma {:induction false} PrefixesWalk(ph: Phone, s: Store, cur: Handle, segs: seq<string>, k: nat)
    requires k <= |segs| && Walk(ph, s, cur, segs, true).Ok?
    ensures Walk(ph, s, cur, segs[..k], true).Ok?
    decreases |segs|
  {
    if k > 0 {
      var child := ChildByName(ph.folding, ListObjects(ph, s, cur).value, segs[0]);
      PrefixesWalk(ph, s, child.value.handle, segs[1..], k - 1);
      assert segs[..k][1..] == segs[1..][..k - 1];
    }
  }

  // ---------- the new leaf ----------

  /** The last directory of a created chain is empty. */
  lemma {:induction false} CreateAllEndsEmpty(ph: Phone, s: Store, cur: Handle, segs: seq<string>, rank: map<Handle, nat>)
    requires Valid(s) && Ranks(s.objects, rank) && IsDirectory(s, cur) && segs != []
    ensures var (t, r) := CreateAll(ph, s, cur, segs);
            && (r.Ok? ==> Kids(t, r.value) == map[])
            && ((forall u: Store, d: Handle, n: string :: ph.refuse(u, Create(d, n)).None?) ==> r.Ok?)
    decreases |segs|
  {
    hide Valid, Ranks, Kids;
    if Apply(ph, s, Create(cur, segs[0])).1.Ok? {
      CreateOne(ph, s, cur, segs[0], rank);
      if segs[1..] != [] {
        CreateAllEndsEmpty(ph, Apply(ph, s, Create(cur, segs[0])).0, s.next, segs[1..], (map h | h in rank :: rank[h] + 1)[s.next := 0]);
      }
    }
  }

  /** So is the leaf of any path part of which was missing. */
  lemma {:induction false} MkdirEndsEmpty(ph: Phone, s: Store, cur: Handle, segs: seq<string>, rank: map<Handle, nat>)
    requires Valid(s) && Ranks(s.objects, rank) && IsDirectory(s, cur) && Walk(ph, s, cur, segs, true) == Err(NotFound)
    ensures var (t, r) := MkdirWalk(ph, s, cur, segs);
            && (r.Ok? ==> Kids(t, r.value) == map[])
            && ((forall u: Store, d: Handle, n: string :: ph.refuse(u, Create(d, n)).None?) ==> r.Ok?)
    decreases |segs|
  {
    hide Valid, Ranks, Kids, Entries, Walk, MkdirWalk;
    NoSegments(ph, s, cur);
    assert segs != [];
    Unfold(ph, s, cur, segs);
    var child := ChildByName(ph.folding, Entries(ph, Kids(s, cur)), segs[0]);
    if child.None? {
      CreateAllEndsEmpty(ph, s, cur, segs, rank);
    } else {
      ChildBelow(ph, s, cur, segs[0], rank);
      MkdirEndsEmpty(ph, s, child.value.handle, segs[1..], rank);
    }
  }

  /** `mkdir_all` on a path string. On success every prefix walks through directories, the leaf
      lists, nothing that existed changed, and asking again changes nothing and names the same
      leaf; the objects added are exactly the missing suffix. On a refusal midway the device is
      left as if a shorter path had been asked for. */
  lemma MkdirAllTheorem(su: Setup, dev: Dev, raw: string, p: Paths.DevPath, idx: nat) returns (found: nat, made: nat)
    requires |dev| == |su.storages| && AllValid(dev)
    requires Paths.ParseSpec(su.chars, raw) == Ok(p) && !p.IsRoot() && FindStorageIndex(su, p.storageRef) == Ok(idx)
    ensures var (dev', r) := MkdirAll(su, dev, raw);
            && (forall i :: 0 <= i < |dev| && i != idx ==> dev'[i] == dev[i])
            && (forall h :: h in dev[idx].objects ==> h in dev'[idx].objects && dev'[idx].objects[h] == dev[idx].objects[h])
            && |dev'[idx].objects| == |dev[idx].objects| + made && found + made <= |p.segments|
            && Walk(su.phone, dev[idx], ROOT, p.segments[..found], true).Ok?
            && (made > 0 ==> Walk(su.phone, dev[idx], ROOT, p.segments[..found + 1], true) == Err(NotFound))
            && (r.Ok? ==>
                  && found + made == |p.segments|
                  && (forall k :: 0 <= k <= |p.segments| ==> Walk(su.phone, dev'[idx], ROOT, p.segments[..k], true).Ok?)
                  && List(su, dev', raw).Ok?
                  && Walk(su.phone, dev'[idx], ROOT, p.segments, true) == Ok(r.value.handle)
                  && MkdirAll(su, dev', raw) == (dev', r))
            && (r.Err? ==> dev'[idx] == MkdirWalk(su.phone, dev[idx], ROOT, p.segments[..found + made]).0
                           && Walk(su.phone, dev'[idx], ROOT, p.segments[..found + made], true).Ok?)
  {
    hide Walk, MkdirWalk, Entries, Kids, Ranks, Sound, FindStorageIndex, Paths.ParseSpec;
    var ph, s := su.phone, dev[idx];
    var rank := SomeRank(s.objects);
    found, made := MkdirWalks(ph, s, ROOT, p.segments, rank);
    var (t, r) := MkdirWalk(ph, s, ROOT, p.segments);
    if r.Ok? {
      ExistingPathMakesNothing(ph, t, ROOT, p.segments);
      forall k | 0 <= k <= |p.segments|
        ensures Walk(ph, t, ROOT, p.segments[..k], true).Ok?
      {
        PrefixesWalk(ph, t, ROOT, p.segments, k);
      }
      var dev' := dev[idx := t];
      assert dev'[idx := t] == dev';
    } else {
      var _, _ := MkdirWalks(ph, s, ROOT, p.segments[..found + made], rank);
    }
  }
}
