/** What `delete_tree` (actor.rs:1216-1240) removes: exactly the target's subtree. */
module TreeRemoval {
  import opened Wrappers
  import opened Phones
  import opened PlainActor

  ghost function Below(objects: map<Handle, Object>, entries: seq<Entry>): set<Handle> {
    if entries == [] then {} else Subtree(objects, entries[0].handle) + Below(objects, entries[1..])
  }

  /** Distinct children of `d`. */
  ghost predicate Siblings(objects: map<Handle, Object>, d: Handle, entries: seq<Entry>) {
    && (forall e :: e in entries ==> e.handle in objects && objects[e.handle].parent == d && objects[e.handle].isDir == e.isDir)
    && (forall i, j :: 0 <= i < j < |entries| ==> entries[i].handle != entries[j].handle)
  }

  // ---------- subtrees of a forest ----------

  lemma {:induction false} ReachesRank(objects: map<Handle, Object>, rank: map<Handle, nat>, x: Handle, h: Handle, n: nat)
    requires Ranks(objects, rank) && x in rank && h in rank && Reaches(objects, x, h, n)
    ensures rank[x] <= rank[h]
    decreases n
  {
    if n > 0 {
      var p := objects[x].parent;
      assert Ranked(objects, rank, x);
      if p != ROOT {
        ReachesRank(objects, rank, p, h, n - 1);
      }
    }
  }

  /** Two targets on one upward chain: one lies under the other. */
  lemma {:induction false} OneChain(objects: map<Handle, Object>, x: Handle, a: Handle, b: Handle, n: nat, m: nat)
    requires Reaches(objects, x, a, n) && Reaches(objects, x, b, m) && n <= m
    ensures Under(objects, a, b)
    decreases n
  {
    if n > 0 {
      OneChain(objects, objects[x].parent, a, b, n - 1, m - 1);
    }
  }

  lemma SiblingNotUnder(objects: map<Handle, Object>, rank: map<Handle, nat>, d: Handle, a: Handle, b: Handle)
    requires Ranks(objects, rank) && d in rank && a != b
    requires a in objects && objects[a].parent == d && b in objects && objects[b].parent == d
    ensures !Under(objects, a, b)
  {
    if Under(objects, a, b) {
      StepDown(objects, a, b);
      var n: nat :| Reaches(objects, d, b, n);
      assert Ranked(objects, rank, b);
      ReachesRank(objects, rank, d, b, n);
      assert false;
    }
  }

  lemma SiblingsDisjoint(objects: map<Handle, Object>, rank: map<Handle, nat>, d: Handle, a: Handle, b: Handle)
    requires Ranks(objects, rank) && d in rank && a != b
    requires a in objects && objects[a].parent == d && b in objects && objects[b].parent == d
    ensures Subtree(objects, a) !! Subtree(objects, b)
  {
    forall x | x in Subtree(objects, a) && x in Subtree(objects, b)
      ensures false
    {
      var n: nat :| Reaches(objects, x, a, n);
      var m: nat :| Reaches(objects, x, b, m);
      if n <= m {
        OneChain(objects, x, a, b, n, m);
        SiblingNotUnder(objects, rank, d, a, b);
      } else {
        OneChain(objects, x, b, a, m, n);
        SiblingNotUnder(objects, rank, d, b, a);
      }
    }
  }

  lemma {:induction false} ReachesInPart(objects: map<Handle, Object>, part: map<Handle, Object>, x: Handle, h: Handle, n: nat)
    requires forall y :: y in part ==> y in objects && objects[y] == part[y]
    requires Reaches(part, x, h, n)
    ensures Reaches(objects, x, h, n)
    decreases n
  {
    if n > 0 {
      ReachesInPart(objects, part, part[x].parent, h, n - 1);
    }
  }

  lemma {:induction false} ReachesKept(objects: map<Handle, Object>, gone: set<Handle>, x: Handle, h: Handle, n: nat)
    requires Subtree(objects, h) !! gone && h in objects
    requires Reaches(objects, x, h, n)
    ensures Reaches(objects - gone, x, h, n)
    decreases n
  {
    if n > 0 {
      assert x in Subtree(objects, h);
      ReachesKept(objects, gone, objects[x].parent, h, n - 1);
    }
  }

  /** Removing objects outside a subtree does not change it. */
  lemma SubtreeKept(objects: map<Handle, Object>, gone: set<Handle>, h: Handle)
    requires h in objects && Subtree(objects, h) !! gone
    ensures Subtree(objects - gone, h) == Subtree(objects, h)
  {
    var part := objects - gone;
    forall x | x in part && Under(part, x, h)
      ensures Under(objects, x, h)
    {
      var n: nat :| Reaches(part, x, h, n);
      ReachesInPart(objects, part, x, h, n);
    }
    forall x | x in Subtree(objects, h)
      ensures x in Subtree(part, h)
    {
      var n: nat :| Reaches(objects, x, h, n);
      ReachesKept(objects, gone, x, h, n);
    }
  }

  lemma {:induction false} BelowMember(objects: map<Handle, Object>, entries: seq<Entry>, x: Handle)
    ensures x in Below(objects, entries) <==> exists e :: e in entries && x in Subtree(objects, e.handle)
  {
    if entries != [] {
      BelowMember(objects, entries[1..], x);
      assert entries == [entries[0]] + entries[1..];
    }
  }

  lemma {:induction false} BelowKept(objects: map<Handle, Object>, gone: set<Handle>, entries: seq<Entry>)
    requires forall e :: e in entries ==> e.handle in objects && Subtree(objects, e.handle) !! gone
    ensures Below(objects - gone, entries) == Below(objects, entries)
  {
    if entries != [] {
      assert entries[0] in entries;
      SubtreeKept(objects, gone, entries[0].handle);
      BelowKept(objects, gone, entries[1..]);
    }
  }

  lemma {:induction false} ThroughChild(objects: map<Handle, Object>, x: Handle, d: Handle, n: nat) returns (c: Handle)
    requires Reaches(objects, x, d, n) && x != d
    ensures c in objects && objects[c].parent == d && x in objects && Under(objects, x, c)
    decreases n
  {
    if objects[x].parent == d {
      c := x;
      UnderSelf(objects, x);
    } else {
      c := ThroughChild(objects, objects[x].parent, d, n - 1);
      StepUp(objects, x, c);
    }
  }

  /** A subtree is its top and what lies below each child the listing shows. */
  lemma SubtreeSplits(ph: Phone, s: Store, d: Handle)
    requires d in s.objects
    ensures Subtree(s.objects, d) == {d} + Below(s.objects, Entries(ph, Kids(s, d)))
  {
    var es := Entries(ph, Kids(s, d));
    UnderSelf(s.objects, d);
    forall x | x in s.objects
      ensures x in Subtree(s.objects, d) <==> x in {d} + Below(s.objects, es)
    {
      BelowMember(s.objects, es, x);
      if x in Subtree(s.objects, d) && x != d {
        var n: nat :| Reaches(s.objects, x, d, n);
        var c := ThroughChild(s.objects, x, d, n);
        EntriesAreKids(ph, Kids(s, d), Describe(c, s.objects[c]));
      }
      forall e | e in es && x in Subtree(s.objects, e.handle)
        ensures Under(s.objects, x, d)
      {
        EntriesAreKids(ph, Kids(s, d), e);
        ExtendUp(s.objects, x, e.handle);
      }
    }
    forall x | x in Below(s.objects, es)
      ensures x in s.objects
    {
      BelowMember(s.objects, es, x);
    }
  }

  lemma ExtendUp(objects: map<Handle, Object>, x: Handle, c: Handle)
    requires Under(objects, x, c) && c in objects
    ensures Under(objects, x, objects[c].parent)
  {
    var n: nat :| Reaches(objects, x, c, n);
    ReachesOneMore(objects, x, c, n);
  }

  lemma {:induction false} ReachesOneMore(objects: map<Handle, Object>, x: Handle, c: Handle, n: nat)
    requires Reaches(objects, x, c, n) && c in objects
    ensures Reaches(objects, x, objects[c].parent, n + 1)
    decreases n
  {
    if n > 0 {
      ReachesOneMore(objects, objects[x].parent, c, n - 1);
    }
  }

  lemma ListedSiblings(ph: Phone, s: Store, d: Handle)
    ensures Siblings(s.objects, d, Entries(ph, Kids(s, d)))
  {
    var o := ph.order(Kids(s, d));
    assert IsOrder(o, Kids(s, d));
    forall e | e in Entries(ph, Kids(s, d))
      ensures e.handle in s.objects && s.objects[e.handle].parent == d && s.objects[e.handle].isDir == e.isDir
    {
      EntriesAreKids(ph, Kids(s, d), e);
    }
  }

  // ---------- the walk ----------

  /** What a walk over the subtree of `d` leaves, finished or not. */
  ghost predicate Removed(s: Store, t: Store, within: set<Handle>, r: Result<nat>) {
    && Valid(t) && t.next == s.next
    && (r.Ok? ==> t.objects == s.objects - within && r.value == |within|)
    && (forall h :: h in t.objects ==> h in s.objects && s.objects[h] == t.objects[h])
    && (forall h :: h in s.objects && h !in within ==> h in t.objects)
  }

  /** Recursive removal deletes exactly the subtree of its target and counts its objects; stopped
      by a refusal, it has deleted nothing outside that subtree, and not the target itself. */
  lemma {:induction false} DeleteTreeExact(ph: Phone, s: Store, rank: map<Handle, nat>, d: Handle)
    requires Valid(s) && Ranks(s.objects, rank) && IsDirectory(s, d) && d in s.objects
    ensures var (t, r) := DeleteTree(ph, s, rank, d);
            && Removed(s, t, Subtree(s.objects, d), r)
            && (r.Err? ==> d in t.objects)
    decreases rank[d], 1, 0
  {
    hide Valid, Entries, Kids, Subtree, Removed, DeleteEntries, Apply;
    var es := Entries(ph, Kids(s, d));
    BelowRank(ph, s, rank, d);
    ListedSiblings(ph, s, d);
    DeleteEntriesExact(ph, s, rank, d, es);
    DisjointFromTop(s.objects, rank, d, es);
    var (s1, r) := DeleteEntries(ph, s, rank, rank[d], es);
    TopLast(ph, s, s1, d, r);
  }

  /** The target goes after all below it. */
  lemma TopLast(ph: Phone, s: Store, s1: Store, d: Handle, r: Result<nat>)
    requires Valid(s) && d in s.objects && d !in Below(s.objects, Entries(ph, Kids(s, d)))
    requires Removed(s, s1, Below(s.objects, Entries(ph, Kids(s, d))), r)
    ensures r.Err? ==> Removed(s, s1, Subtree(s.objects, d), r) && d in s1.objects
    ensures var (t, gone) := Apply(ph, s1, Delete(d));
            r.Ok? ==>
              && Removed(s, t, Subtree(s.objects, d), if gone.Err? then Err(gone.error) else Ok(r.value + 1))
              && (gone.Err? ==> d in t.objects)
  {
    hide Entries, Subtree, Valid, Kids;
    SubtreeSplits(ph, s, d);
    if r.Ok? {
      Emptied(ph, s, s1, d);
      ApplyValid(ph, s1, Delete(d));
      assert s.objects - Subtree(s.objects, d) == s1.objects - {d};
    }
  }

  /** A directory whose children's subtrees are gone is empty. */
  lemma Emptied(ph: Phone, s: Store, s1: Store, d: Handle)
    requires s1.objects == s.objects - Below(s.objects, Entries(ph, Kids(s, d)))
    ensures Kids(s1, d) == map[]
  {
    hide Entries, Subtree;
    var es := Entries(ph, Kids(s, d));
    forall c | c in s.objects && s.objects[c].parent == d
      ensures c in Below(s.objects, es)
    {
      EntriesAreKids(ph, Kids(s, d), Describe(c, s.objects[c]));
      InOwnSubtree(s.objects, c);
      BelowMember(s.objects, es, c);
    }
  }

  lemma InOwnSubtree(objects: map<Handle, Object>, c: Handle)
    requires c in objects
    ensures c in Subtree(objects, c)
  {
    UnderSelf(objects, c);
  }

  lemma DisjointFromTop(objects: map<Handle, Object>, rank: map<Handle, nat>, d: Handle, es: seq<Entry>)
    requires Ranks(objects, rank) && d in objects && Siblings(objects, d, es)
    ensures d !in Below(objects, es)
  {
    BelowMember(objects, es, d);
    forall e | e in es && d in Subtree(objects, e.handle)
      ensures false
    {
      var n: nat :| Reaches(objects, d, e.handle, n);
      assert Ranked(objects, rank, e.handle);
      ReachesRank(objects, rank, d, e.handle, n);
    }
  }

  lemma {:induction false} DeleteEntriesExact(ph: Phone, s: Store, rank: map<Handle, nat>, d: Handle, es: seq<Entry>)
    requires Valid(s) && Ranks(s.objects, rank) && d in s.objects && Siblings(s.objects, d, es)
    requires forall e :: e in es ==> e.handle in rank && rank[e.handle] < rank[d]
    ensures var (t, r) := DeleteEntries(ph, s, rank, rank[d], es);
            Removed(s, t, Below(s.objects, es), r)
    decreases rank[d], 0, |es|
  {
    hide DeleteEntry, Subtree, Valid, Ranks, Siblings;
    if es != [] {
      var e, rest := es[0], es[1..];
      var (s1, r) := DeleteEntry(ph, s, rank, e);
      FirstEntry(s, d, es);
      DeleteEntryExact(ph, s, rank, e);
      if r.Ok? {
        AfterFirst(s, rank, d, es, s1);
        DeleteEntriesExact(ph, s1, rank, d, rest);
        assert s1.objects - Below(s.objects, rest) == s.objects - Below(s.objects, es);
      }
    }
  }

  lemma FirstEntry(s: Store, d: Handle, es: seq<Entry>)
    requires Siblings(s.objects, d, es) && es != []
    ensures es[0].handle in s.objects && s.objects[es[0].handle].isDir == es[0].isDir && es[0] in es
  {
    assert es[0] in es;
  }

  /** Once the first child's subtree is gone the other children's are still whole. */
  lemma AfterFirst(s: Store, rank: map<Handle, nat>, d: Handle, es: seq<Entry>, s1: Store)
    requires Ranks(s.objects, rank) && d in s.objects && Siblings(s.objects, d, es) && es != []
    requires s1.objects == s.objects - Subtree(s.objects, es[0].handle)
    ensures Siblings(s1.objects, d, es[1..]) && d in s1.objects
    ensures Below(s1.objects, es[1..]) == Below(s.objects, es[1..])
    ensures Subtree(s.objects, es[0].handle) !! Below(s.objects, es[1..])
    ensures forall e :: e in es[1..] ==> e in es
  {
    var gone := Subtree(s.objects, es[0].handle);
    var rest := es[1..];
    assert es[0] in es;
    forall x | x in rest
      ensures x.handle in s.objects && Subtree(s.objects, x.handle) !! gone && x in es && x.handle in s1.objects
    {
      SiblingsDisjoint(s.objects, rank, d, x.handle, es[0].handle);
      UnderSelf(s.objects, x.handle);
    }
    BelowKept(s.objects, gone, rest);
    DisjointBelow(s.objects, gone, rest);
    DisjointFromTop(s.objects, rank, d, es);
  }

  lemma DisjointBelow(objects: map<Handle, Object>, gone: set<Handle>, es: seq<Entry>)
    requires forall e :: e in es ==> Subtree(objects, e.handle) !! gone
    ensures Below(objects, es) !! gone
  {
    forall x | x in Below(objects, es)
      ensures x !in gone
    {
      BelowMember(objects, es, x);
    }
  }

  lemma {:induction false} DeleteEntryExact(ph: Phone, s: Store, rank: map<Handle, nat>, e: Entry)
    requires Valid(s) && Ranks(s.objects, rank) && e.handle in s.objects && s.objects[e.handle].isDir == e.isDir
    ensures var (t, r) := DeleteEntry(ph, s, rank, e);
            && Removed(s, t, Subtree(s.objects, e.handle), r)
            && (r.Err? ==> e.handle in t.objects)
    decreases rank[e.handle], 2, 0
  {
    if e.isDir {
      DeleteTreeExact(ph, s, rank, e.handle);
    } else {
      SubtreeSplits(ph, s, e.handle);
      EntriesCount(ph, Kids(s, e.handle));
      FilesHaveNoKids(s, e.handle);
      ApplyValid(ph, s, Delete(e.handle));
    }
  }

  /** A phone that refuses no deletion below `d` lets the removal finish. */
  ghost predicate Deletable(ph: Phone, within: set<Handle>) {
    forall s: Store, x :: x in within ==> ph.refuse(s, Delete(x)).None?
  }

  lemma {:induction false} DeleteTreeSucceeds(ph: Phone, s: Store, rank: map<Handle, nat>, d: Handle)
    requires Valid(s) && Ranks(s.objects, rank) && IsDirectory(s, d) && d in s.objects
    requires Deletable(ph, Subtree(s.objects, d))
    ensures DeleteTree(ph, s, rank, d).1.Ok?
    decreases rank[d], 1, 0
  {
    var es := Entries(ph, Kids(s, d));
    BelowRank(ph, s, rank, d);
    ListedSiblings(ph, s, d);
    SubtreeSplits(ph, s, d);
    DeleteEntriesSucceeds(ph, s, rank, d, es);
    DeleteEntriesExact(ph, s, rank, d, es);
    DisjointFromTop(s.objects, rank, d, es);
    Emptied(ph, s, DeleteEntries(ph, s, rank, rank[d], es).0, d);
  }

  lemma {:induction false} DeleteEntriesSucceeds(ph: Phone, s: Store, rank: map<Handle, nat>, d: Handle, es: seq<Entry>)
    requires Valid(s) && Ranks(s.objects, rank) && d in s.objects && Siblings(s.objects, d, es)
    requires forall e :: e in es ==> e.handle in rank && rank[e.handle] < rank[d]
    requires Deletable(ph, Below(s.objects, es))
    ensures DeleteEntries(ph, s, rank, rank[d], es).1.Ok?
    decreases rank[d], 0, |es|
  {
    if es != [] {
      var e, rest := es[0], es[1..];
      DeleteEntryExact(ph, s, rank, e);
      assert e in es;
      UnderSelf(s.objects, e.handle);
      if e.isDir {
        DeleteTreeSucceeds(ph, s, rank, e.handle);
      } else {
        SubtreeSplits(ph, s, e.handle);
        FilesHaveNoKids(s, e.handle);
      }
      var s1 := DeleteEntry(ph, s, rank, e).0;
      AfterFirst(s, rank, d, es, s1);
      DeleteEntriesSucceeds(ph, s1, rank, d, rest);
    }
  }

  // ---------- the walk as a loop ----------

  /** Where the loop over the children of `d` stands: `now` is the store, `count` the objects
      deleted so far, `left` the children still to delete, `goal` what the whole walk ends in and
      `whole` the objects it may remove. */
  ghost predicate Pending(ph: Phone, now: Store, rank: map<Handle, nat>, d: Handle, left: seq<Entry>, count: nat,
                          goal: (Store, Result<nat>), whole: set<Handle>) {
    && Valid(now) && Ranks(now.objects, rank) && d in now.objects
    && Siblings(now.objects, d, left)
    && Ordered(rank, d, left)
    && Below(now.objects, left) <= whole
    && goal == Counted(count, Rest(ph, now, rank, d, left))
  }

  ghost predicate Ordered(rank: map<Handle, nat>, d: Handle, left: seq<Entry>) {
    d in rank && forall e :: e in left ==> e.handle in rank && rank[e.handle] < rank[d]
  }

  /** What deleting `left`, children of `d`, ends in. */
  ghost function Rest(ph: Phone, now: Store, rank: map<Handle, nat>, d: Handle, left: seq<Entry>): (Store, Result<nat>)
    requires Ranks(now.objects, rank) && Ordered(rank, d, left)
  {
    DeleteEntries(ph, now, rank, rank[d], left)
  }

  lemma TreeIsRestThenTop(ph: Phone, s: Store, rank: map<Handle, nat>, d: Handle)
    requires Valid(s) && Ranks(s.objects, rank) && d in s.objects && s.objects[d].isDir
    ensures var es := Entries(ph, Kids(s, d));
            && Ordered(rank, d, es)
            && var (s1, r) := Rest(ph, s, rank, d, es);
               var (s2, gone) := Apply(ph, s1, Delete(d));
               && DeleteTree(ph, s, rank, d) == (if r.Err? then (s1, r) else (s2, if gone.Err? then Err(gone.error) else Ok(r.value + 1)))
               && (r.Ok? ==> d in s1.objects && s1.objects[d] == s.objects[d])
  {
    PendingAtStart(ph, s, rank, d);
    var es := Entries(ph, Kids(s, d));
    DeleteEntriesExact(ph, s, rank, d, es);
    DisjointFromTop(s.objects, rank, d, es);
  }

  function Counted(count: nat, out: (Store, Result<nat>)): (Store, Result<nat>) {
    (out.0, if out.1.Ok? then Ok(count + out.1.value) else out.1)
  }

  lemma PendingAtStart(ph: Phone, s: Store, rank: map<Handle, nat>, d: Handle)
    requires Valid(s) && Ranks(s.objects, rank) && d in s.objects && s.objects[d].isDir
    ensures var es := Entries(ph, Kids(s, d));
            && Ordered(rank, d, es)
            && Pending(ph, s, rank, d, es, 0, Rest(ph, s, rank, d, es), Below(s.objects, es))
  {
    BelowRank(ph, s, rank, d);
    ListedSiblings(ph, s, d);
  }

  lemma PendingFacts(ph: Phone, now: Store, rank: map<Handle, nat>, d: Handle, left: seq<Entry>, count: nat,
                     goal: (Store, Result<nat>), whole: set<Handle>)
    requires Pending(ph, now, rank, d, left, count, goal, whole)
    ensures Ranks(now.objects, rank) && d in rank && d in now.objects
    ensures left != [] ==> var e := left[0];
      && e.handle in now.objects && now.objects[e.handle].isDir == e.isDir && now.objects[e.handle].parent == d
      && e.handle in rank && rank[e.handle] < rank[d]
      && Subtree(now.objects, e.handle) <= whole
    ensures left == [] ==> goal == (now, Ok(count))
  {
    if left != [] {
      assert left[0] in left;
    }
  }

  lemma FirstThenRest(ph: Phone, now: Store, rank: map<Handle, nat>, d: Handle, left: seq<Entry>, count: nat)
    requires Ranks(now.objects, rank) && Ordered(rank, d, left) && left != []
    ensures var (next, one) := DeleteEntry(ph, now, rank, left[0]);
            Counted(count, Rest(ph, now, rank, d, left)) ==
              if one.Err? then (next, one) else Counted(count + one.value, Rest(ph, next, rank, d, left[1..]))
  {
  }

  lemma PendingStep(ph: Phone, now: Store, rank: map<Handle, nat>, d: Handle, left: seq<Entry>, count: nat,
                    goal: (Store, Result<nat>), whole: set<Handle>)
    requires Pending(ph, now, rank, d, left, count, goal, whole) && left != []
    requires left[0].handle in rank
    ensures var (next, one) := DeleteEntry(ph, now, rank, left[0]);
            && (one.Ok? ==> Pending(ph, next, rank, d, left[1..], count + one.value, goal, whole))
            && (one.Ok? ==> next.objects.Keys < now.objects.Keys && next.objects[d] == now.objects[d])
            && (one.Err? ==> goal == (next, one) && next.objects.Keys <= now.objects.Keys)
  {
    PendingFacts(ph, now, rank, d, left, count, goal, whole);
    FirstThenRest(ph, now, rank, d, left, count);
    DeleteEntryExact(ph, now, rank, left[0]);
    var (next, one) := DeleteEntry(ph, now, rank, left[0]);
    if one.Ok? {
      UnderSelf(now.objects, left[0].handle);
      assert left[0].handle in now.objects && left[0].handle !in next.objects;
      AfterFirst(now, rank, d, left, next);
      assert Below(next.objects, left[1..]) <= Below(now.objects, left);
    }
  }
}
