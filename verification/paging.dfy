/** Directory listings of the NFS adapter: sort by lower-case name, drop adjacent equal names, cut
    into pages (adapter.rs:1199-1277). */
module Paging {
  import opened Wrappers
  import opened Names
  import opened Phones
  import opened Staging

  datatype Child = Child(id: Id, name: string, isDir: bool, size: nat)

  // ---------- the order of names ----------

  /** `str` order: by code points, a proper prefix first. */
  predicate Less(a: string, b: string) {
    b != "" && (a == "" || a[0] < b[0] || (a[0] == b[0] && Less(a[1..], b[1..])))
  }

  lemma {:induction false} LessTrans(a: string, b: string, c: string)
    requires Less(a, b) && Less(b, c)
    ensures Less(a, c)
  {
    if a != "" && a[0] == b[0] == c[0] {
      LessTrans(a[1..], b[1..], c[1..]);
    }
  }

  lemma {:induction false} LessTotal(a: string, b: string)
    ensures a == b || Less(a, b) || Less(b, a)
    ensures !(Less(a, b) && Less(b, a)) && !Less(a, a)
  {
    if a != "" && b != "" && a[0] == b[0] {
      LessTotal(a[1..], b[1..]);
      assert a == [a[0]] + a[1..] && b == [b[0]] + b[1..];
    }
    if a != "" {
      LessTotal(a[1..], a[1..]);
    }
  }

  // ---------- sorting ----------

  ghost predicate Sorted(keys: seq<string>) {
    forall i, j :: 0 <= i < j < |keys| ==> !Less(keys[j], keys[i])
  }

  ghost predicate Increasing(keys: seq<string>) {
    forall i, j :: 0 <= i < j < |keys| ==> Less(keys[i], keys[j])
  }

  function Keys(f: Folding, cs: seq<Child>): (ks: seq<string>)
    ensures |ks| == |cs| && forall i :: 0 <= i < |cs| ==> ks[i] == f.lower(cs[i].name)
  {
    seq(|cs|, i requires 0 <= i < |cs| => f.lower(cs[i].name))
  }

  function Insert(f: Folding, c: Child, cs: seq<Child>): seq<Child> {
    if cs == [] then [c]
    else if Less(f.lower(c.name), f.lower(cs[0].name)) then [c] + cs
    else [cs[0]] + Insert(f, c, cs[1..])
  }

  /** `sort_by_key`, which is stable. */
  function Sort(f: Folding, cs: seq<Child>): seq<Child> {
    if cs == [] then [] else Insert(f, cs[|cs| - 1], Sort(f, cs[..|cs| - 1]))
  }

  lemma {:induction false} InsertHas(f: Folding, c: Child, cs: seq<Child>)
    ensures multiset(Insert(f, c, cs)) == multiset(cs) + multiset{c}
  {
    if cs != [] {
      InsertHas(f, c, cs[1..]);
      assert cs == [cs[0]] + cs[1..];
    }
  }

  lemma InsertedKey(f: Folding, c: Child, cs: seq<Child>, k: string)
    requires k in Keys(f, Insert(f, c, cs))
    ensures k == f.lower(c.name) || k in Keys(f, cs)
  {
    var all := Insert(f, c, cs);
    var i :| 0 <= i < |all| && Keys(f, all)[i] == k;
    InsertHas(f, c, cs);
    assert all[i] in multiset(all);
    if all[i] != c {
      var j :| 0 <= j < |cs| && cs[j] == all[i];
      assert Keys(f, cs)[j] == k;
    }
  }

  lemma SortedCons(k: string, keys: seq<string>)
    requires Sorted(keys) && forall x :: x in keys ==> !Less(x, k)
    ensures Sorted([k] + keys)
  {
  }

  lemma {:induction false} InsertSorts(f: Folding, c: Child, cs: seq<Child>)
    requires Sorted(Keys(f, cs))
    ensures Sorted(Keys(f, Insert(f, c, cs)))
  {
    hide Less;
    if cs == [] {
    } else if Less(f.lower(c.name), f.lower(cs[0].name)) {
      forall x | x in Keys(f, cs)
        ensures !Less(x, f.lower(c.name))
      {
        var k :| 0 <= k < |cs| && Keys(f, cs)[k] == x;
        LeastFirst(f, c, cs, k);
      }
      SortedCons(f.lower(c.name), Keys(f, cs));
      assert Keys(f, [c] + cs) == [f.lower(c.name)] + Keys(f, cs);
    } else {
      var rest, k0 := cs[1..], f.lower(cs[0].name);
      assert Keys(f, cs)[0] == k0 && Keys(f, rest) == Keys(f, cs)[1..];
      InsertSorts(f, c, rest);
      forall x | x in Keys(f, Insert(f, c, rest))
        ensures !Less(x, k0)
      {
        InsertedKey(f, c, rest, x);
      }
      SortedCons(k0, Keys(f, Insert(f, c, rest)));
      assert Keys(f, [cs[0]] + Insert(f, c, rest)) == [k0] + Keys(f, Insert(f, c, rest));
    }
  }

  lemma LeastFirst(f: Folding, c: Child, cs: seq<Child>, k: nat)
    requires k < |cs| && Sorted(Keys(f, cs)) && Less(f.lower(c.name), f.lower(cs[0].name))
    ensures !Less(f.lower(cs[k].name), f.lower(c.name))
  {
    var a, b, d := f.lower(c.name), f.lower(cs[0].name), f.lower(cs[k].name);
    assert k > 0 ==> !Less(Keys(f, cs)[k], Keys(f, cs)[0]);
    LessTotal(b, d);
    LessTotal(a, d);
    if Less(b, d) {
      LessTrans(a, b, d);
    }
  }

  lemma {:induction false} SortSorts(f: Folding, cs: seq<Child>)
    ensures Sorted(Keys(f, Sort(f, cs))) && multiset(Sort(f, cs)) == multiset(cs)
  {
    hide Less, Sorted, Insert, Keys;
    if cs == [] {
      NothingIsSorted(f);
    } else {
      var init, last := cs[..|cs| - 1], cs[|cs| - 1];
      SortSorts(f, init);
      InsertSorts(f, last, Sort(f, init));
      InsertHas(f, last, Sort(f, init));
      InitAndLast(cs);
    }
  }

  lemma NothingIsSorted(f: Folding)
    ensures Sorted(Keys(f, []))
  {
  }

  lemma InitAndLast(cs: seq<Child>)
    requires cs != []
    ensures multiset(cs) == multiset(cs[..|cs| - 1]) + multiset{cs[|cs| - 1]}
  {
    assert cs == cs[..|cs| - 1] + [cs[|cs| - 1]];
  }

  /** Sorting what is sorted changes nothing. */
  lemma {:induction false} SortedStays(f: Folding, cs: seq<Child>)
    requires Sorted(Keys(f, cs))
    ensures Sort(f, cs) == cs
  {
    if cs != [] {
      var init, last := cs[..|cs| - 1], cs[|cs| - 1];
      assert forall i :: 0 <= i < |init| ==> Keys(f, init)[i] == Keys(f, cs)[i];
      SortedStays(f, init);
      assert forall i :: 0 <= i < |init| ==> !Less(Keys(f, cs)[|cs| - 1], Keys(f, cs)[i]);
      InsertLast(f, last, init);
      assert cs == init + [last];
    }
  }

  lemma {:induction false} InsertLast(f: Folding, c: Child, cs: seq<Child>)
    requires forall i :: 0 <= i < |cs| ==> !Less(f.lower(c.name), f.lower(cs[i].name))
    ensures Insert(f, c, cs) == cs + [c]
  {
    if cs != [] {
      InsertLast(f, c, cs[1..]);
      assert cs == [cs[0]] + cs[1..];
    }
  }

  // ---------- dropping duplicates ----------

  /** `dedup_by`: an element equal to the last one kept is dropped. */
  function Dedup(f: Folding, cs: seq<Child>): seq<Child> {
    if cs == [] then [] else DedupAfter(f, cs[0], cs[1..])
  }

  function DedupAfter(f: Folding, last: Child, rest: seq<Child>): seq<Child>
    decreases |rest|
  {
    if rest == [] then [last]
    else if Fold(f, rest[0].name) == Fold(f, last.name) then DedupAfter(f, last, rest[1..])
    else [last] + DedupAfter(f, rest[0], rest[1..])
  }

  /** The same on lower-case names alone. */
  function DedupKeys(f: Folding, last: string, rest: seq<string>): seq<string>
    decreases |rest|
  {
    if rest == [] then [last]
    else if f.nfc(rest[0]) == f.nfc(last) then DedupKeys(f, last, rest[1..])
    else [last] + DedupKeys(f, rest[0], rest[1..])
  }

  lemma {:induction false} DedupAfterKeys(f: Folding, last: Child, rest: seq<Child>)
    ensures Keys(f, DedupAfter(f, last, rest)) == DedupKeys(f, f.lower(last.name), Keys(f, rest))
    decreases |rest|
  {
    if rest != [] {
      assert Keys(f, rest)[1..] == Keys(f, rest[1..]);
      if Fold(f, rest[0].name) == Fold(f, last.name) {
        DedupAfterKeys(f, last, rest[1..]);
      } else {
        DedupAfterKeys(f, rest[0], rest[1..]);
        var tail := DedupAfter(f, rest[0], rest[1..]);
        assert Keys(f, [last] + tail) == [f.lower(last.name)] + Keys(f, tail);
      }
    }
  }

  /** After deduplication the lower-case names strictly increase, and every name still has one equal
      to it, up to case and composition. */
  lemma {:induction false} DedupKeysIncrease(f: Folding, last: string, rest: seq<string>)
    requires Sorted([last] + rest)
    ensures Increasing(DedupKeys(f, last, rest)) && DedupKeys(f, last, rest) != [] && DedupKeys(f, last, rest)[0] == last
    ensures forall k :: k in [last] + rest ==> Represented(f, DedupKeys(f, last, rest), k)
    decreases |rest|
  {
    var keys := [last] + rest;
    if rest == [] {
      assert Represented(f, [last], last);
    } else {
      var next := rest[0];
      assert keys[1] == next && !Less(keys[1], keys[0]);
      LessTotal(last, next);
      if f.nfc(next) == f.nfc(last) {
        SortedWithout(keys);
        assert [last] + rest[1..] == keys[..1] + keys[2..];
        DedupKeysIncrease(f, last, rest[1..]);
        assert Represented(f, DedupKeys(f, last, rest), last) by {
          assert last in [last] + rest[1..];
        }
        forall k | k in keys
          ensures Represented(f, DedupKeys(f, last, rest), k)
        {
          assert k == last || k == next || k in rest[1..];
          assert k in rest[1..] ==> k in [last] + rest[1..];
        }
      } else {
        assert rest == [next] + rest[1..];
        assert forall i, j :: 0 <= i < j < |rest| ==> rest[i] == keys[i + 1] && rest[j] == keys[j + 1];
        DedupKeysIncrease(f, next, rest[1..]);
        PutInFront(f, last, DedupKeys(f, next, rest[1..]), rest);
      }
    }
  }

  lemma SortedWithout(keys: seq<string>)
    requires |keys| > 1 && Sorted(keys)
    ensures Sorted(keys[..1] + keys[2..])
  {
    var less := keys[..1] + keys[2..];
    forall i, j | 0 <= i < j < |less|
      ensures !Less(less[j], less[i])
    {
      assert less[j] == keys[j + 1] && less[i] == keys[if i == 0 then 0 else i + 1];
    }
  }

  lemma PutInFront(f: Folding, last: string, tail: seq<string>, rest: seq<string>)
    requires tail != [] && Increasing(tail) && Less(last, tail[0])
    requires forall k :: k in rest ==> Represented(f, tail, k)
    ensures Increasing([last] + tail) && forall k :: k in [last] + rest ==> Represented(f, [last] + tail, k)
  {
    var all := [last] + tail;
    forall i, j | 0 <= i < j < |all|
      ensures Less(all[i], all[j])
    {
      if i == 0 && j > 1 {
        LessTrans(last, tail[0], tail[j - 1]);
      }
    }
    forall k | k in [last] + rest
      ensures Represented(f, all, k)
    {
      if k in rest {
        var i :| 0 <= i < |tail| && f.nfc(tail[i]) == f.nfc(k);
        assert f.nfc(all[i + 1]) == f.nfc(k);
      } else {
        assert f.nfc(all[0]) == f.nfc(k);
      }
    }
  }

  ghost predicate Represented(f: Folding, keys: seq<string>, k: string) {
    exists i :: 0 <= i < |keys| && f.nfc(keys[i]) == f.nfc(k)
  }

  // ---------- the listing does not depend on the order of collection ----------

  lemma {:induction false} SortedIsUnique(a: seq<string>, b: seq<string>)
    requires Sorted(a) && Sorted(b) && multiset(a) == multiset(b)
    ensures a == b
    decreases |a|
  {
    hide Less, Sorted;
    assert |multiset(a)| == |a| && |multiset(b)| == |b|;
    if a != [] {
      SameFirst(a, b);
      SortedTail(a);
      SortedTail(b);
      SameTail(a, b);
      SortedIsUnique(a[1..], b[1..]);
      assert a == [a[0]] + a[1..] && b == [b[0]] + b[1..];
    }
  }

  lemma SameFirst(a: seq<string>, b: seq<string>)
    requires Sorted(a) && Sorted(b) && multiset(a) == multiset(b) && a != [] && b != []
    ensures a[0] == b[0]
  {
    hide Less;
    assert a[0] in multiset(b) && b[0] in multiset(a);
    var i :| 0 <= i < |a| && a[i] == b[0];
    var j :| 0 <= j < |b| && b[j] == a[0];
    LessTotal(a[0], b[0]);
    assert i > 0 ==> !Less(a[i], a[0]);
    assert j > 0 ==> !Less(b[j], b[0]);
  }

  lemma SameTail(a: seq<string>, b: seq<string>)
    requires multiset(a) == multiset(b) && a != [] && b != [] && a[0] == b[0]
    ensures multiset(a[1..]) == multiset(b[1..])
  {
    HeadAndTail(a);
    HeadAndTail(b);
    Cancel(multiset(a[1..]), multiset(b[1..]), multiset{a[0]});
  }

  lemma HeadAndTail(a: seq<string>)
    requires a != []
    ensures multiset(a) == multiset(a[1..]) + multiset{a[0]}
  {
    assert a[..0] + a[1..] == a[1..];
    Without(a, 0);
  }

  lemma SortedTail(a: seq<string>)
    requires a != [] && Sorted(a)
    ensures Sorted(a[1..])
  {
    assert forall i :: 0 <= i < |a[1..]| ==> a[1..][i] == a[i + 1];
  }

  lemma Without<T>(b: seq<T>, j: nat)
    requires j < |b|
    ensures multiset(b) == multiset(b[..j] + b[j + 1..]) + multiset{b[j]}
  {
    assert b == b[..j] + [b[j]] + b[j + 1..];
  }

  lemma Cancel<T>(a: multiset<T>, b: multiset<T>, c: multiset<T>)
    requires a + c == b + c
    ensures a == b
  {
    assert a == (a + c) - c && b == (b + c) - c;
  }

  /** The lower-case names of a listing. */
  function ListingKeys(f: Folding, cs: seq<Child>): seq<string> {
    Keys(f, Dedup(f, Sort(f, cs)))
  }

  lemma SameRest(a: seq<Child>, b: seq<Child>, j: nat, less: seq<Child>, rest: seq<Child>)
    requires a != [] && j < |b| && b[j] == a[0] && multiset(a) == multiset(b)
    requires less == a[..0] + a[1..] && rest == b[..j] + b[j + 1..]
    ensures multiset(less) == multiset(rest)
  {
    Without(a, 0);
    Without(b, j);
    Cancel(multiset(less), multiset(rest), multiset{a[0]});
  }

  lemma KeysWithout(f: Folding, b: seq<Child>, j: nat)
    requires j < |b|
    ensures multiset(Keys(f, b)) == multiset(Keys(f, b[..j] + b[j + 1..])) + multiset{f.lower(b[j].name)}
  {
    assert Keys(f, b[..j] + b[j + 1..]) == Keys(f, b)[..j] + Keys(f, b)[j + 1..];
    Without(Keys(f, b), j);
  }

  lemma {:induction false} KeysOfSame(f: Folding, a: seq<Child>, b: seq<Child>)
    requires multiset(a) == multiset(b)
    ensures multiset(Keys(f, a)) == multiset(Keys(f, b))
    decreases |a|
  {
    hide Keys;
    if a == [] {
      assert |multiset(b)| == |b| == 0;
    } else {
      assert a[0] in multiset(b);
      var j :| 0 <= j < |b| && b[j] == a[0];
      var less, rest := a[..0] + a[1..], b[..j] + b[j + 1..];
      SameRest(a, b, j, less, rest);
      KeysOfSame(f, less, rest);
      KeysWithout(f, a, 0);
      KeysWithout(f, b, j);
    }
  }

  /** Two collections of the same children, in whatever order the stage map yields them, list the
      same lower-case names in the same order. */
  lemma ListingIsOrderFree(f: Folding, a: seq<Child>, b: seq<Child>)
    requires multiset(Keys(f, a)) == multiset(Keys(f, b))
    ensures ListingKeys(f, a) == ListingKeys(f, b)
  {
    var sa, sb := Sort(f, a), Sort(f, b);
    SortSorts(f, a);
    SortSorts(f, b);
    KeysOfSame(f, sa, a);
    KeysOfSame(f, sb, b);
    SortedIsUnique(Keys(f, sa), Keys(f, sb));
    SameDedup(f, sa, sb);
  }

  lemma SameDedup(f: Folding, a: seq<Child>, b: seq<Child>)
    requires Keys(f, a) == Keys(f, b)
    ensures Keys(f, Dedup(f, a)) == Keys(f, Dedup(f, b))
  {
    assert |Keys(f, a)| == |a| && |Keys(f, b)| == |b|;
    if a != [] {
      DedupAfterKeys(f, a[0], a[1..]);
      DedupAfterKeys(f, b[0], b[1..]);
      assert Keys(f, a)[0] == Keys(f, b)[0];
      assert Keys(f, a[1..]) == Keys(f, a)[1..] && Keys(f, b[1..]) == Keys(f, b)[1..];
    }
  }

  /** What a listing shows: lower-case names in strictly increasing order, one at least for every
      child up to case and composition, and no other. */
  lemma ListingIsExact(f: Folding, cs: seq<Child>)
    ensures Increasing(ListingKeys(f, cs))
    ensures forall c :: c in cs ==> Represented(f, ListingKeys(f, cs), f.lower(c.name))
    ensures forall c :: c in Dedup(f, Sort(f, cs)) ==> c in cs
    ensures Sort(f, Dedup(f, Sort(f, cs))) == Dedup(f, Sort(f, cs))
  {
    hide Sort, Dedup, Sorted, Increasing, Represented;
    var s := Sort(f, cs);
    SortSorts(f, cs);
    DedupIsExact(f, s);
    forall c | c in cs
      ensures Represented(f, ListingKeys(f, cs), f.lower(c.name))
    {
      assert c in multiset(cs) && c in multiset(s);
    }
    forall c | c in Dedup(f, s)
      ensures c in cs
    {
      assert c in multiset(s);
    }
    IncreasingIsSorted(ListingKeys(f, cs));
    SortedStays(f, Dedup(f, s));
  }

  lemma KeysSplit(f: Folding, s: seq<Child>)
    requires s != []
    ensures var keys := Keys(f, s); Keys(f, s[1..]) == keys[1..] && keys == [keys[0]] + keys[1..] && s == [s[0]] + s[1..]
  {
  }

  lemma DedupIsExact(f: Folding, s: seq<Child>)
    requires Sorted(Keys(f, s))
    ensures Increasing(Keys(f, Dedup(f, s)))
    ensures forall c :: c in s ==> Represented(f, Keys(f, Dedup(f, s)), f.lower(c.name))
    ensures forall c :: c in Dedup(f, s) ==> c in s
  {
    hide Sorted, Increasing, Represented, DedupAfter, DedupKeys;
    if s == [] {
      NothingIncreases();
    } else {
      var keys := Keys(f, s);
      KeysSplit(f, s);
      DedupAfterKeys(f, s[0], s[1..]);
      DedupKeysIncrease(f, keys[0], keys[1..]);
      DedupKeeps(f, s[0], s[1..]);
      forall c | c in s
        ensures Represented(f, Keys(f, Dedup(f, s)), f.lower(c.name))
      {
        var i :| 0 <= i < |s| && s[i] == c;
        assert keys[i] in keys;
      }
    }
  }

  lemma NothingIncreases()
    ensures Increasing([])
  {
  }

  lemma IncreasingIsSorted(keys: seq<string>)
    requires Increasing(keys)
    ensures Sorted(keys)
  {
    forall i, j | 0 <= i < j < |keys|
      ensures !Less(keys[j], keys[i])
    {
      LessTotal(keys[i], keys[j]);
    }
  }

  lemma {:induction false} DedupKeeps(f: Folding, last: Child, rest: seq<Child>)
    ensures forall c :: c in DedupAfter(f, last, rest) ==> c == last || c in rest
    decreases |rest|
  {
    if rest != [] {
      assert rest == [rest[0]] + rest[1..];
      DedupKeeps(f, last, rest[1..]);
      DedupKeeps(f, rest[0], rest[1..]);
    }
  }

  // ---------- pages ----------

  /** The page after `skip` entries. */
  function Page<T>(all: seq<T>, skip: nat, limit: nat): (seq<T>, bool) {
    var from := Min(skip, |all|);
    var take := Min(limit, |all| - from);
    (all[from..from + take], from + take >= |all|)
  }
}
