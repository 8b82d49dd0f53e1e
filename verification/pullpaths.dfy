/** Pulls go by path: when the path of a listed entry leads back to it, and what a pull leaves when
    they all do (ops.rs:94-156, 267-272). */
module PullPaths {
  import opened Wrappers
  import opened Names
  import opened Paths
  import opened Phones
  import opened PlainActor
  import opened Transfer
  import opened Pulling
  import A = Answers
  import R = RoundTrip

  // ---------- what a joined path parses to ----------

  lemma {:induction false} TrimEndAfter(cs: Chars, x: string, n: string)
    requires x != "" && !cs.isSpace(x[|x| - 1])
    ensures TrimEnd(cs, x + n) == x + TrimEnd(cs, n)
    decreases |n|
  {
    if n == "" {
      assert x + n == x;
    } else {
      assert (x + n)[|x + n| - 1] == n[|n| - 1] && (x + n)[..|x + n| - 1] == x + n[..|n| - 1];
      TrimEndAfter(cs, x, n[..|n| - 1]);
    }
  }

  lemma {:induction false} TrimEndEnds(cs: Chars, s: string)
    ensures !EndsInSpace(cs, TrimEnd(cs, s))
  {
    if s != "" && cs.isSpace(s[|s| - 1]) {
      TrimEndEnds(cs, s[..|s| - 1]);
    }
  }

  lemma JoinIs(cs: Chars, p: DevPath, n: string)
    requires WellFormed(cs, p) && !p.IsRoot() && n != "" && '/' !in n
    ensures JoinDevice(DisplaySpec(p), n) == DisplaySpec(p) + "/" + n
    ensures DisplaySpec(p) != "" && DisplaySpec(p)[0] == '/'
  {
    hide WellFormed;
    DisplayEnds(cs, p);
    LastHasNoSlash(cs, p);
    var l := Last(p);
    assert l[|l| - 1] in l && n[0] in n;
  }

  /** Joining a name and parsing drops white space at its end; a blank name is dropped whole. */
  lemma JoinParses(cs: Chars, p: DevPath, n: string)
    requires WellFormed(cs, p) && !p.IsRoot() && n != "" && '/' !in n
    ensures var base := TrimEnd(cs, n);
            ParseSpec(cs, JoinDevice(DisplaySpec(p), n)) ==
              if base == "" then Ok(p) else if GoodPart(cs, base) then Ok(Child(p, base)) else Err(InvalidArgument)
  {
    hide JoinDevice, DisplaySpec, GoodPart, Join, Split, Trim, TrimEnd;
    var raw, c, base := JoinDevice(DisplaySpec(p), n), Components(p), TrimEnd(cs, n);
    TrimJoined(cs, p, n);
    SplitJoined(cs, p, base);
    if base == "" {
      assert ([""] + c + [""])[1..] == c + [""] && (c + [""])[..|c|] == c;
      assert Parts(cs, raw) == c;
    } else {
      assert ([""] + c + [base])[1..] == c + [base];
      assert Parts(cs, raw) == c + [base];
      assert (c + [base])[1..] == p.segments + [base];
      AllGood(cs, c, base);
    }
  }

  lemma TrimJoined(cs: Chars, p: DevPath, n: string)
    requires WellFormed(cs, p) && !p.IsRoot() && n != "" && '/' !in n
    ensures Trim(cs, JoinDevice(DisplaySpec(p), n)) == DisplaySpec(p) + "/" + TrimEnd(cs, n)
  {
    hide JoinDevice, DisplaySpec, WellFormed, TrimEnd;
    var d := DisplaySpec(p);
    JoinIs(cs, p, n);
    TrimEndAfter(cs, d + "/", n);
    var raw := (d + "/") + n;
    assert raw[0] == d[0];
    assert TrimStart(cs, raw) == raw;
  }

  lemma SplitJoined(cs: Chars, p: DevPath, base: string)
    requires WellFormed(cs, p) && !p.IsRoot() && '/' !in base
    ensures Split(DisplaySpec(p) + "/" + base) == [""] + Components(p) + [base]
  {
    hide DisplaySpec, Join, Split, GoodPart;
    var c := Components(p);
    DisplaySplits(cs, p);
    JoinOfSnoc([""] + c, base);
    SplitOfJoin([""] + c + [base]);
  }

  lemma AllGood(cs: Chars, c: seq<string>, base: string)
    requires forall i :: 0 <= i < |c| ==> GoodPart(cs, c[i])
    ensures (forall i :: 0 <= i < |c + [base]| ==> GoodPart(cs, (c + [base])[i])) <==> GoodPart(cs, base)
  {
    hide GoodPart;
    assert (c + [base])[|c|] == base;
  }

  /** A safe name stays one component wherever it is put, and steps neither nowhere nor up. */
  lemma SafeIsOneStep(n: string)
    ensures Safe(n) <==> (forall dir: string :: Split(dir + "/" + n) == Split(dir) + [n]) && n !in {"", ".", ".."} && '\\' !in n && '\0' !in n
  {
    forall dir: string | '/' !in n
      ensures Split(dir + "/" + n) == Split(dir) + [n]
    {
      JoinOfSplit(dir);
      JoinOfSnoc(Split(dir), n);
      SplitOfJoin(Split(dir) + [n]);
    }
    if forall dir: string :: Split(dir + "/" + n) == Split(dir) + [n] {
      var all := Split("" + "/" + n);
      assert all == Split("") + [n];
      assert all[|all| - 1] == n;
    }
  }

  // ---------- where the path of an entry leads ----------

  /** The path text leads to the object `x` of storage `idx`. */
  ghost predicate PathLeads(su: Setup, dev: Dev, raw: string, idx: nat, x: Handle)
    requires |dev| == |su.storages|
  {
    var a := A.AddressOf(su, raw);
    a.Inside? && a.storage == idx && A.Leads(su.phone, dev[idx], ROOT, a.names, false, Ok(x))
  }

  /** The path made for a child from its directory's path leads back to it exactly when its name, less
      the white space at its end, is a good component and the child the first to bear it. Else a pull
      takes another object's bytes for it, or fails. */
  lemma EntryLeadsBack(su: Setup, dev: Dev, idx: nat, p: DevPath, c: Handle, x: Handle)
    requires |dev| == |su.storages| && R.Place(su, dev, idx, p, c) && A.IsChild(dev[idx], c, x) && Safe(dev[idx].objects[x].name)
    ensures var n := dev[idx].objects[x].name;
            var base := TrimEnd(su.chars, n);
            PathLeads(su, dev, JoinDevice(DisplaySpec(p), n), idx, x) <==>
              GoodPart(su.chars, base) && A.FirstChild(su.phone, dev[idx], c, base, x)
  {
    hide JoinDevice, DisplaySpec, GoodPart, ParseSpec, WellFormed, Walk, MkdirWalk, FindStorageIndex, Valid;
    hide A.Leads, A.FirstChild;
    var s, n := dev[idx], dev[idx].objects[x].name;
    var base := TrimEnd(su.chars, n);
    JoinParses(su.chars, p, n);
    EmptyTrim(su.chars);
    BlankIsBad(su.chars);
    R.WalkSnoc(su.phone, s, ROOT, p.segments, c, base, false);
    R.WhereIsRoot(su.phone, s, p.segments, c);
    ChildIsNotIt(s, c, x);
    if base == "" {
      A.WalkLeads(su.phone, s, ROOT, p.segments, false, Ok(x));
    } else if GoodPart(su.chars, base) {
      A.WalkLeads(su.phone, s, ROOT, p.segments + [base], false, Ok(x));
      A.WalkLeads(su.phone, s, c, [base], false, Ok(x));
      A.LeadsOne(su.phone, s, c, base, x);
    }
  }

  lemma BlankIsBad(cs: Chars)
    ensures !GoodPart(cs, "")
  {
    EmptyTrim(cs);
  }

  lemma ChildIsNotIt(s: Store, c: Handle, x: Handle)
    requires Valid(s) && A.IsChild(s, c, x)
    ensures x != c
  {
    var rank :| Ranks(s.objects, rank);
    assert Ranked(s.objects, rank, x);
  }

  // ---------- trees in which they all do ----------

  /** Below `d`, as far down as a pull goes, every safe name is a good component, and the first of
      its directory up to case and composition. */
  ghost predicate Plain(su: Setup, s: Store, d: Handle, depth: nat)
    decreases MAX_TREE_DEPTH + 1 - depth
  {
    depth <= MAX_TREE_DEPTH ==>
      forall x :: A.IsChild(s, d, x) && Safe(s.objects[x].name) ==>
        && GoodComponent(su.chars, s.objects[x].name) && A.FirstChild(su.phone, s, d, s.objects[x].name, x)
        && (s.objects[x].isDir ==> Plain(su, s, x, depth + 1))
  }

  ghost predicate Named(s: Store, d: Handle, n: string, x: Handle) {
    Safe(n) && A.IsChild(s, d, x) && s.objects[x].name == n
  }

  function ChildNames(s: Store, d: Handle): set<string> {
    set x | x in s.objects && s.objects[x].parent == d && Safe(s.objects[x].name) :: s.objects[x].name
  }

  /** The phone's own tree below `d`, laid over what stands there: the objects themselves, no paths. */
  ghost function Mirror(s: Store, d: Handle, local: map<string, Tree>, depth: nat): map<string, Tree>
    decreases MAX_TREE_DEPTH + 1 - depth, 1
  {
    if depth > MAX_TREE_DEPTH then local
    else map n | n in local.Keys + ChildNames(s, d) :: MirrorAt(s, d, local, depth, n)
  }

  ghost function MirrorAt(s: Store, d: Handle, local: map<string, Tree>, depth: nat, n: string): Tree
    requires depth <= MAX_TREE_DEPTH
    decreases MAX_TREE_DEPTH + 1 - depth, 0
  {
    if exists x :: Named(s, d, n, x) then
      var x :| Named(s, d, n, x);
      if s.objects[x].isDir then Branch(Mirror(s, x, Inside(local, n), depth + 1)) else Leaf(s.objects[x].data)
    else if n in local then local[n] else Leaf([])
  }

  /** What a pull of such a tree leaves is that tree laid over what stood there. */
  lemma {:induction false} MergedIsMirror(su: Setup, dev: Dev, idx: nat, p: DevPath, c: Handle, local: map<string, Tree>, depth: nat)
    requires |dev| == |su.storages| && R.Place(su, dev, idx, p, c) && Plain(su, dev[idx], c, depth)
    requires Pullable(su, dev, DisplaySpec(p), local, depth)
    ensures Merged(su, dev, DisplaySpec(p), local, depth) == Mirror(dev[idx], c, local, depth)
    decreases MAX_TREE_DEPTH + 1 - depth, 1
  {
    hide R.At, AllValid, DisplaySpec, JoinDevice, Entries, Kids, Safe, Lists, Named, Pullable, Merged, Plain, List, MirrorAt, Stands;
    var s, es := dev[idx], Shown(su, dev, DisplaySpec(p));
    PullableIs(su, dev, DisplaySpec(p), local, depth);
    R.ListedAt(su, dev, idx, p, c);
    NamesAgree(su.phone, s, c);
    forall n | n in local.Keys + SafeNames(es)
      ensures Stands(su, dev, DisplaySpec(p), es, local, depth, n) == MirrorAt(s, c, local, depth, n)
    {
      StandsMirrored(su, dev, idx, p, c, local, depth, n);
    }
  }

  lemma {:induction false} StandsMirrored(su: Setup, dev: Dev, idx: nat, p: DevPath, c: Handle, local: map<string, Tree>, depth: nat, n: string)
    requires |dev| == |su.storages| && R.Place(su, dev, idx, p, c) && Plain(su, dev[idx], c, depth) && depth <= MAX_TREE_DEPTH
    requires AllPullable(su, dev, DisplaySpec(p), Entries(su.phone, Kids(dev[idx], c)), local, depth)
    ensures Stands(su, dev, DisplaySpec(p), Entries(su.phone, Kids(dev[idx], c)), local, depth, n) == MirrorAt(dev[idx], c, local, depth, n)
    decreases MAX_TREE_DEPTH + 1 - depth, 0
  {
    hide R.At, AllValid, DisplaySpec, JoinDevice, Entries, Kids, Safe, Lists, Pullable, Merged, Mirror, Plain, FetchAt;
    var s, es := dev[idx], Entries(su.phone, Kids(dev[idx], c));
    ListedIffNamed(su.phone, s, c, n);
    if x :| Named(s, c, n, x) {
      OneOfAName(su, s, c, depth, n, x);
      PlainChild(su, dev, idx, p, c, depth, n, x);
      if s.objects[x].isDir {
        assert FolderPullable(su, dev, DisplaySpec(p), es, local, depth, n);
        MergedIsMirror(su, dev, idx, Child(p, n), x, Inside(local, n), depth + 1);
      } else {
        assert FilePullable(su, dev, DisplaySpec(p), es, local, n);
      }
    }
  }

  lemma NamesAgree(ph: Phone, s: Store, c: Handle)
    ensures SafeNames(Entries(ph, Kids(s, c))) == ChildNames(s, c)
  {
    hide Safe, Entries;
    var es := Entries(ph, Kids(s, c));
    forall n
      ensures n in SafeNames(es) <==> n in ChildNames(s, c)
    {
      if e :| e in es && Safe(e.name) && e.name == n {
        EntriesAreKids(ph, Kids(s, c), e);
      }
      if x :| x in s.objects && s.objects[x].parent == c && Safe(s.objects[x].name) && s.objects[x].name == n {
        EntriesAreKids(ph, Kids(s, c), Describe(x, s.objects[x]));
      }
    }
  }

  lemma ListedIffNamed(ph: Phone, s: Store, c: Handle, n: string)
    ensures forall isDir :: Lists(Entries(ph, Kids(s, c)), n, isDir) <==> exists x :: Named(s, c, n, x) && s.objects[x].isDir == isDir
  {
    hide Safe, Entries;
    var es := Entries(ph, Kids(s, c));
    forall isDir: bool
      ensures Lists(es, n, isDir) <==> exists x :: Named(s, c, n, x) && s.objects[x].isDir == isDir
    {
      if Safe(n) {
        if e :| e in es && e.name == n && e.isDir == isDir {
          EntriesAreKids(ph, Kids(s, c), e);
          assert Named(s, c, n, e.handle);
        }
        if x :| Named(s, c, n, x) && s.objects[x].isDir == isDir {
          EntriesAreKids(ph, Kids(s, c), Describe(x, s.objects[x]));
        }
      }
    }
  }

  lemma OneOfAName(su: Setup, s: Store, c: Handle, depth: nat, n: string, x: Handle)
    requires Plain(su, s, c, depth) && depth <= MAX_TREE_DEPTH && Named(s, c, n, x)
    ensures forall y :: Named(s, c, n, y) ==> y == x
  {
    hide Safe, A.FirstChild, GoodComponent;
    forall y | Named(s, c, n, y)
      ensures y == x
    {
      A.OneFirst(su.phone, s, c, n, x, y);
    }
  }

  /** A child of such a directory is found by its path: a directory as a place to go on from, a file
      with its own bytes. */
  lemma PlainChild(su: Setup, dev: Dev, idx: nat, p: DevPath, c: Handle, depth: nat, n: string, x: Handle)
    requires |dev| == |su.storages| && R.Place(su, dev, idx, p, c) && depth <= MAX_TREE_DEPTH
    requires idx < |dev| && Plain(su, dev[idx], c, depth) && Named(dev[idx], c, n, x)
    ensures JoinDevice(DisplaySpec(p), n) == DisplaySpec(Child(p, n))
    ensures dev[idx].objects[x].isDir ==> R.Place(su, dev, idx, Child(p, n), x) && Plain(su, dev[idx], x, depth + 1)
    ensures !dev[idx].objects[x].isDir && FetchAt(su, dev, JoinDevice(DisplaySpec(p), n)).Ok? ==>
        FetchAt(su, dev, JoinDevice(DisplaySpec(p), n)) == Ok(dev[idx].objects[x].data)
  {
    hide DisplaySpec, JoinDevice, GoodPart, ParseSpec, WellFormed, Walk, MkdirWalk, FindStorageIndex, Valid, A.FirstChild, Entries, Kids;
    var s := dev[idx];
    ChildDisplay(su.chars, p, n);
    ParseJoin(su.chars, p, n);
    ChildWellFormed(su.chars, p, n);
    A.FirstIsFound(su.phone, s, c, n, x);
    R.WalkSnoc(su.phone, s, ROOT, p.segments, c, n, false);
    R.WalkSnoc(su.phone, s, ROOT, p.segments, c, n, true);
    StepTo(su.phone, s, c, n, x);
  }

  lemma StepTo(ph: Phone, s: Store, c: Handle, n: string, x: Handle)
    requires IsDirectory(s, c) && x in s.objects
    requires ChildByName(ph.folding, Entries(ph, Kids(s, c)), n) == Some(Describe(x, s.objects[x]))
    ensures Walk(ph, s, c, [n], false) == Ok(x) && (s.objects[x].isDir ==> Walk(ph, s, c, [n], true) == Ok(x))
  {
    assert [n][1..] == [];
  }

  /** Pulling the directory at a path: when it succeeds, the phone's tree stands there, laid over what
      stood there before. */
  lemma PulledIsMirrored(su: Setup, dev: Dev, idx: nat, p: DevPath, c: Handle, local: map<string, Tree>)
    requires |dev| == |su.storages| && R.Place(su, dev, idx, p, c) && Plain(su, dev[idx], c, 0)
    ensures var (r, after) := Pull(su, dev, DisplaySpec(p), local, 0);
            && (r.Ok? <==> Pullable(su, dev, DisplaySpec(p), local, 0))
            && (r.Ok? ==> after == Mirror(dev[idx], c, local, 0))
  {
    hide R.At, AllValid, DisplaySpec, Pull, Pullable, Merged, Mirror, Counted, Plain;
    PullIs(su, dev, DisplaySpec(p), local, 0);
    if Pullable(su, dev, DisplaySpec(p), local, 0) {
      MergedIsMirror(su, dev, idx, p, c, local, 0);
    }
  }

  /** What a path with a good last component fetches: the bytes of the first child of that name. */
  lemma FetchIs(su: Setup, dev: Dev, idx: nat, p: DevPath, c: Handle, n: string, x: Handle)
    requires |dev| == |su.storages| && R.Place(su, dev, idx, p, c) && GoodComponent(su.chars, n)
    requires A.FirstChild(su.phone, dev[idx], c, n, x) && !dev[idx].objects[x].isDir && su.phone.informs(dev[idx], x).None?
    requires var data := dev[idx].objects[x].data; su.phone.breaks(data).None? && |data| <= Sum(su.phone.chunking(data))
    ensures FetchAt(su, dev, JoinDevice(DisplaySpec(p), n)) == Ok(dev[idx].objects[x].data)
  {
    hide DisplaySpec, JoinDevice, GoodPart, ParseSpec, WellFormed, Walk, MkdirWalk, FindStorageIndex, Valid, A.Before, A.Bears, Entries, Kids;
    ParseJoin(su.chars, p, n);
    ChildWellFormed(su.chars, p, n);
    A.FirstIsFound(su.phone, dev[idx], c, n, x);
    R.WalkSnoc(su.phone, dev[idx], ROOT, p.segments, c, n, false);
    StepTo(su.phone, dev[idx], c, n, x);
  }
}
