/** What the actor's requests mean, said of the objects a storage holds and of the phone's own
    answers: the reference `Step` and the plain actor are held against. */
module Answers {
  import opened Wrappers
  import opened Names
  import Paths
  import opened Phones
  import opened PlainActor
  import TreeRemoval

  // ---------- what a directory shows ----------

  ghost predicate IsChild(s: Store, d: Handle, c: Handle) {
    c in s.objects && s.objects[c].parent == d
  }

  ghost predicate Bears(f: Folding, s: Store, c: Handle, name: string) {
    c in s.objects && Fold(f, s.objects[c].name) == Fold(f, name)
  }

  ghost predicate Before(o: seq<Handle>, a: Handle, b: Handle) {
    exists i, j :: 0 <= i < j < |o| && o[i] == a && o[j] == b
  }

  /** `c` is the child of `d` that the phone lists first under the name, up to case and composition. */
  ghost predicate FirstChild(ph: Phone, s: Store, d: Handle, name: string, c: Handle) {
    && IsChild(s, d, c) && Bears(ph.folding, s, c, name)
    && forall x :: IsChild(s, d, x) && Bears(ph.folding, s, x, name) && x != c ==> Before(ph.order(Kids(s, d)), c, x)
  }

  ghost predicate NoChild(f: Folding, s: Store, d: Handle, name: string) {
    forall x :: IsChild(s, d, x) ==> !Bears(f, s, x, name)
  }

  /** The children of `d`, each described once, in the phone's order. */
  ghost predicate Listing(ph: Phone, s: Store, d: Handle, es: seq<Entry>) {
    && (forall c :: IsChild(s, d, c) ==> exists k :: 0 <= k < |es| && es[k].handle == c)
    && (forall k :: 0 <= k < |es| ==> IsChild(s, d, es[k].handle) && Reports(s, es[k].handle, es[k]))
    && (forall j, k :: 0 <= j < k < |es| ==> es[j].handle != es[k].handle && Before(ph.order(Kids(s, d)), es[j].handle, es[k].handle))
  }

  ghost predicate Reports(s: Store, h: Handle, e: Entry) {
    h in s.objects && var o := s.objects[h]; e == Entry(h, o.parent, o.name, o.isDir, |o.data|)
  }

  lemma ListingIs(ph: Phone, s: Store, d: Handle)
    ensures Listing(ph, s, d, Entries(ph, Kids(s, d)))
  {
    var o, es := ph.order(Kids(s, d)), Entries(ph, Kids(s, d));
    assert IsOrder(o, Kids(s, d));
    forall c | IsChild(s, d, c)
      ensures exists k :: 0 <= k < |es| && es[k].handle == c
    {
      assert c in o;
      var k :| 0 <= k < |o| && o[k] == c;
      assert es[k].handle == c;
    }
    forall k | 0 <= k < |es|
      ensures IsChild(s, d, es[k].handle) && Reports(s, es[k].handle, es[k])
    {
      assert o[k] in o;
    }
    forall j, k | 0 <= j < k < |es|
      ensures es[j].handle != es[k].handle && Before(o, es[j].handle, es[k].handle)
    {
      assert o[j] == es[j].handle && o[k] == es[k].handle;
    }
  }

  /** Searching a listing finds the first child of the name. */
  lemma ChildIs(ph: Phone, s: Store, d: Handle, name: string)
    ensures match ChildByName(ph.folding, Entries(ph, Kids(s, d)), name)
            case Some(e) => FirstChild(ph, s, d, name, e.handle) && Reports(s, e.handle, e)
            case None => NoChild(ph.folding, s, d, name)
  {
    hide Entries, Before;
    var es := Entries(ph, Kids(s, d));
    ListingIs(ph, s, d);
    ChildIsFirst(ph.folding, es, name);
    var found := ChildByName(ph.folding, es, name);
    if found.Some? {
      var i :| 0 <= i < |es| && es[i] == found.value && FirstOf(ph.folding, es, name, i);
      forall x | IsChild(s, d, x) && Bears(ph.folding, s, x, name) && x != found.value.handle
        ensures Before(ph.order(Kids(s, d)), found.value.handle, x)
      {
        var k :| 0 <= k < |es| && es[k].handle == x;
        assert Reports(s, x, es[k]);
        assert i < k;
      }
    } else {
      forall x | IsChild(s, d, x)
        ensures !Bears(ph.folding, s, x, name)
      {
        var k :| 0 <= k < |es| && es[k].handle == x;
        assert Reports(s, x, es[k]);
      }
    }
  }

  lemma OneFirst(ph: Phone, s: Store, d: Handle, name: string, a: Handle, b: Handle)
    requires FirstChild(ph, s, d, name, a) && FirstChild(ph, s, d, name, b)
    ensures a == b
  {
    var o := ph.order(Kids(s, d));
    assert IsOrder(o, Kids(s, d));
  }

  /** The other way round. */
  lemma FirstIsFound(ph: Phone, s: Store, d: Handle, name: string, c: Handle)
    requires FirstChild(ph, s, d, name, c)
    ensures ChildByName(ph.folding, Entries(ph, Kids(s, d)), name) == Some(Describe(c, s.objects[c]))
  {
    hide Entries, Before;
    ChildIs(ph, s, d, name);
    var found := ChildByName(ph.folding, Entries(ph, Kids(s, d)), name);
    if found.Some? {
      OneFirst(ph, s, d, name, c, found.value.handle);
    }
  }

  // ---------- where a path leads ----------

  /** Nothing of the name here, or not what is wanted. Inside a file there is nothing, whether the
      phone lists it or not. */
  ghost predicate Stops(ph: Phone, s: Store, d: Handle, name: string, dirsOnly: bool, e: Error) {
    if IsDirectory(s, d) then
      || (e == NotFound && NoChild(ph.folding, s, d, name))
      || (e == WrongKind && dirsOnly && exists c :: FirstChild(ph, s, d, name, c) && !IsDirectory(s, c))
    else e == if ph.listsFiles then NotFound else WrongKind
  }

  /** From `d` the names lead, each to the first child that bears it, to an object or to an error. */
  ghost predicate Leads(ph: Phone, s: Store, d: Handle, names: seq<string>, dirsOnly: bool, r: Result<Handle>)
    decreases |names|
  {
    if names == [] then r == Ok(d)
    else
      || (r.Err? && Stops(ph, s, d, names[0], dirsOnly, r.error))
      || exists c :: FirstChild(ph, s, d, names[0], c) && (dirsOnly ==> IsDirectory(s, c)) && Leads(ph, s, c, names[1..], dirsOnly, r)
  }

  /** That is what a walk finds, and a path leads to one end only. */
  lemma {:induction false} WalkLeads(ph: Phone, s: Store, d: Handle, names: seq<string>, dirsOnly: bool, r: Result<Handle>)
    requires Valid(s) && (d == ROOT || d in s.objects)
    ensures Leads(ph, s, d, names, dirsOnly, r) <==> Walk(ph, s, d, names, dirsOnly) == r
    decreases |names|
  {
    hide Valid, Entries, Kids, FirstChild, NoChild, Stops, Walk;
    if names == [] {
      WalkNothing(ph, s, d, dirsOnly);
    } else {
      var found := ChildByName(ph.folding, Entries(ph, Kids(s, d)), names[0]);
      if IsDirectory(s, d) && found.Some? && (dirsOnly ==> found.value.isDir) {
        WalkGoesOn(ph, s, d, names, dirsOnly);
        WalkLeads(ph, s, found.value.handle, names[1..], dirsOnly, r);
      } else {
        WalkEnds(ph, s, d, names, dirsOnly, r);
      }
    }
  }

  lemma WalkNothing(ph: Phone, s: Store, d: Handle, dirsOnly: bool)
    ensures Walk(ph, s, d, [], dirsOnly) == Ok(d)
  {
  }

  /** The first segment names something to go on from. */
  lemma WalkGoesOn(ph: Phone, s: Store, d: Handle, names: seq<string>, dirsOnly: bool)
    requires names != [] && IsDirectory(s, d)
    requires var found := ChildByName(ph.folding, Entries(ph, Kids(s, d)), names[0]); found.Some? && (dirsOnly ==> found.value.isDir)
    ensures var c := ChildByName(ph.folding, Entries(ph, Kids(s, d)), names[0]).value.handle;
            && Walk(ph, s, d, names, dirsOnly) == Walk(ph, s, c, names[1..], dirsOnly)
            && FirstChild(ph, s, d, names[0], c) && c in s.objects && (dirsOnly ==> IsDirectory(s, c))
            && (forall x :: FirstChild(ph, s, d, names[0], x) ==> x == c)
            && (forall e :: !Stops(ph, s, d, names[0], dirsOnly, e))
  {
    hide Entries, Before;
    var c := ChildByName(ph.folding, Entries(ph, Kids(s, d)), names[0]).value.handle;
    ChildIs(ph, s, d, names[0]);
    forall x | FirstChild(ph, s, d, names[0], x)
      ensures x == c
    {
      OneFirst(ph, s, d, names[0], x, c);
    }
  }

  /** It does not. */
  lemma WalkEnds(ph: Phone, s: Store, d: Handle, names: seq<string>, dirsOnly: bool, r: Result<Handle>)
    requires Valid(s) && names != [] && (d == ROOT || d in s.objects)
    requires var found := ChildByName(ph.folding, Entries(ph, Kids(s, d)), names[0]);
             IsDirectory(s, d) && found.Some? ==> dirsOnly && !found.value.isDir
    ensures Walk(ph, s, d, names, dirsOnly) == r <==> r.Err? && Stops(ph, s, d, names[0], dirsOnly, r.error)
    ensures forall x :: FirstChild(ph, s, d, names[0], x) ==> dirsOnly && !IsDirectory(s, x)
  {
    hide Entries, Before, Forest;
    ChildIs(ph, s, d, names[0]);
    InAFile(ph, s, d, names[0]);
    forall x | FirstChild(ph, s, d, names[0], x)
      ensures ChildByName(ph.folding, Entries(ph, Kids(s, d)), names[0]) == Some(Describe(x, s.objects[x]))
    {
      FirstIsFound(ph, s, d, names[0], x);
    }
  }

  /** A file shows nothing. */
  lemma InAFile(ph: Phone, s: Store, d: Handle, name: string)
    requires Valid(s)
    ensures !IsDirectory(s, d) && d in s.objects ==> ChildByName(ph.folding, Entries(ph, Kids(s, d)), name).None?
  {
    if !IsDirectory(s, d) && d in s.objects {
      FilesHaveNoKids(s, d);
      EntriesCount(ph, Kids(s, d));
    }
  }

  // ---------- requests by handle ----------

  ghost predicate Lists(ph: Phone, s: Store, d: Handle, r: Result<seq<Entry>>) {
    if d != ROOT && d !in s.objects then r == Err(StaleHandle)
    else if IsDirectory(s, d) then r.Ok? && Listing(ph, s, d, r.value)
    else r == if ph.listsFiles then Ok([]) else Err(WrongKind)
  }

  ghost predicate Informs(ph: Phone, s: Store, h: Handle, r: Result<Entry>) {
    match ph.informs(s, h)
    case Some(e) => r == Err(e)
    case None => if h in s.objects then r.Ok? && Reports(s, h, r.value) else r == Err(StaleHandle)
  }

  /** The bytes from the offset on: as many as were asked for, unless the phone sends fewer or the
      file ends. */
  ghost predicate Reads(ph: Phone, s: Store, h: Handle, offset: nat, count: nat, r: Result<Bytes>) {
    if h !in s.objects then r == Err(StaleHandle)
    else if s.objects[h].isDir then r == Err(WrongKind)
    else
      var data := s.objects[h].data;
      match ph.range(data, offset, count)
      case Err(e) => r == Err(e)
      case Ok(sent) =>
        && r.Ok? && r.value <= (if offset <= |data| then data[offset..] else [])
        && |r.value| <= count && |r.value| <= sent
        && (|r.value| == count || |r.value| == sent || offset + |r.value| >= |data|)
  }

  /** The object goes, if it has no children and the phone lets it go. */
  ghost predicate Deletes(ph: Phone, s: Store, h: Handle, t: Store, r: Result<()>) {
    if h !in s.objects then t == s && r == Err(NotFound)
    else if exists c :: IsChild(s, h, c) then t == s && r == Err(AccessDenied)
    else
      match ph.refuse(s, Delete(h))
      case Some(e) => t == s && r == Err(e)
      case None => t == Store(s.objects - {h}, s.next) && r == Ok(())
  }

  ghost predicate Makes(ph: Phone, s: Store, d: Handle, name: string, t: Store, r: Result<Entry>) {
    if !IsDirectory(s, d) then t == s && r == Err(StaleHandle)
    else
      match ph.refuse(s, Create(d, name))
      case Some(e) => t == s && r == Err(e)
      case None => t == With(s, Object(d, name, true, [])) && r == Ok(Entry(s.next, d, name, true, 0))
  }

  /** A new object under the next handle. */
  function With(s: Store, o: Object): Store {
    Store(s.objects[s.next := o], s.next + 1)
  }

  /** A new object that was to be deleted again, and may have stayed. */
  ghost predicate CleanedUp(ph: Phone, s: Store, o: Object, t: Store) {
    t == if ph.refuse(With(s, o), Delete(s.next)).Some? then With(s, o) else Store(s.objects, s.next + 1)
  }

  ghost predicate Uploads(ph: Phone, s: Store, d: Handle, name: string, size: nat, stream: Bytes, t: Store, r: Result<Entry>) {
    if !IsDirectory(s, d) then t == s && r == Err(StaleHandle)
    else
      match ph.upload(s, d, name, size, stream)
      case Refused(e) => t == s && r == Err(e)
      case Partial(sent, e) =>
        CleanedUp(ph, s, Object(d, name, false, if sent <= |stream| then stream[..sent] else stream), t) && r == Err(e)
      case Accepted =>
        var o := Object(d, name, false, stream);
        if |stream| != size then CleanedUp(ph, s, o, t) && r == Err(Mtp)
        else t == With(s, o) && Informs(ph, t, s.next, r)
  }

  /** The object under a new parent and name. */
  function Placed(s: Store, h: Handle, parent: Handle, name: string): Store
    requires h in s.objects
  {
    s.(objects := s.objects[h := Object(parent, name, s.objects[h].isDir, s.objects[h].data)])
  }

  ghost predicate Renames(ph: Phone, s: Store, h: Handle, name: string, t: Store, r: Result<Entry>) {
    h in s.objects &&
    match ph.refuse(s, Rename(h, name))
    case Some(e) => t == s && r == Err(e)
    case None => t == Placed(s, h, s.objects[h].parent, name) && Informs(ph, t, h, r)
  }

  ghost predicate Moves(ph: Phone, s: Store, h: Handle, to: Handle, t: Store, r: Result<Entry>) {
    h in s.objects &&
    if !IsDirectory(s, to) then t == s && r == Err(StaleHandle)
    else
      match ph.refuse(s, Move(h, to))
      case Some(e) => t == s && r == Err(e)
      case None => t == Placed(s, h, to, s.objects[h].name) && Informs(ph, t, h, r)
  }

  /** A move into another directory, then another name, then the report; what was done before a
      refusal stays done. */
  ghost predicate Relocates(ph: Phone, s: Store, h: Handle, from: Handle, to: Handle, name: string, toName: string, t: Store, r: Result<Entry>) {
    h in s.objects &&
    if from != to && !IsDirectory(s, to) then t == s && r == Err(StaleHandle)
    else if from != to && ph.refuse(s, Move(h, to)).Some? then t == s && r == Err(ph.refuse(s, Move(h, to)).value)
    else
      var moved := Placed(s, h, to, s.objects[h].name);
      if name == toName then t == moved && Informs(ph, t, h, r)
      else
        match ph.refuse(moved, Rename(h, toName))
        case Some(e) => t == moved && r == Err(e)
        case None => t == Placed(s, h, to, toName) && Informs(ph, t, h, r)
  }

  ghost predicate RenamesChild(ph: Phone, s: Store, from: Handle, name: string, to: Handle, toName: string, t: Store, r: Result<Entry>) {
    if from != ROOT && from !in s.objects then t == s && r == Err(StaleHandle)
    else
      || (r.Err? && Stops(ph, s, from, name, false, r.error) && t == s)
      || exists h :: FirstChild(ph, s, from, name, h) && Relocates(ph, s, h, from, to, name, toName, t, r)
  }

  lemma ListObjectsLists(ph: Phone, s: Store, d: Handle)
    requires Valid(s)
    ensures Lists(ph, s, d, ListObjects(ph, s, d))
  {
    hide Entries, Kids, Before;
    ListingIs(ph, s, d);
    if !IsDirectory(s, d) && d in s.objects {
      FilesHaveNoKids(s, d);
      EntriesCount(ph, Kids(s, d));
    }
  }

  lemma ReadRangeReads(ph: Phone, s: Store, h: Handle, offset: nat, count: nat)
    ensures Reads(ph, s, h, offset, count, ReadRange(ph, s, h, offset, count))
  {
  }

  lemma ApplyDeletes(ph: Phone, s: Store, h: Handle)
    ensures var (t, r) := Apply(ph, s, Delete(h)); Deletes(ph, s, h, t, if r.Err? then Err(r.error) else Ok(()))
  {
    assert Kids(s, h) != map[] ==> exists c :: c in Kids(s, h);
    assert forall c :: c in Kids(s, h) <==> IsChild(s, h, c);
  }

  lemma ApplyMakes(ph: Phone, s: Store, d: Handle, name: string)
    ensures var (t, r) := Apply(ph, s, Create(d, name));
            Makes(ph, s, d, name, t, if r.Err? then Err(r.error) else Ok(Entry(r.value, d, name, true, 0)))
  {
  }

  lemma UploadUploads(ph: Phone, s: Store, d: Handle, name: string, size: nat, stream: Bytes)
    requires Valid(s)
    ensures var (t, r) := UploadReport(ph, s, d, name, size, stream); Uploads(ph, s, d, name, size, stream, t, r)
  {
    hide Valid, Kids;
    if IsDirectory(s, d) {
      match ph.upload(s, d, name, size, stream) {
        case Refused(_) =>
        case Partial(sent, _) => DeletesAgain(ph, s, Object(d, name, false, if sent <= |stream| then stream[..sent] else stream));
        case Accepted => DeletesAgain(ph, s, Object(d, name, false, stream));
      }
    }
  }

  lemma DeletesAgain(ph: Phone, s: Store, o: Object)
    requires Valid(s) && IsDirectory(s, o.parent) && !o.isDir
    ensures CleanedUp(ph, s, o, Apply(ph, Add(s, o), Delete(s.next)).0)
  {
    hide Forest, Kids;
    AddSound(s, o);
    assert Drop(Add(s, o), s.next).objects == s.objects;
  }

  lemma ApplyRenames(ph: Phone, s: Store, h: Handle, name: string)
    requires h in s.objects
    ensures var (t, r) := Apply(ph, s, Rename(h, name));
            Renames(ph, s, h, name, t, if r.Err? then Err(r.error) else AskInfo(ph, t, h))
  {
  }

  lemma ApplyMoves(ph: Phone, s: Store, h: Handle, to: Handle)
    requires h in s.objects
    ensures var (t, r) := Apply(ph, s, Move(h, to));
            Moves(ph, s, h, to, t, if r.Err? then Err(r.error) else AskInfo(ph, t, h))
  {
  }

  lemma RelocateRelocates(ph: Phone, s: Store, h: Handle, to: Handle, name: string, toName: string)
    requires h in s.objects
    ensures var from := s.objects[h].parent;
            var (t, r) := Relocate(ph, s, h, from, to, name, toName); Relocates(ph, s, h, from, to, name, toName, t, r)
  {
    hide Informs, AskInfo;
    var from := s.objects[h].parent;
    var moved := Placed(s, h, to, s.objects[h].name);
    ApplyMoves(ph, s, h, to);
    if from == to {
      assert moved == s;
    }
    ApplyRenames(ph, moved, h, toName);
    assert moved.objects[h := moved.objects[h].(name := toName)] == Placed(s, h, to, toName).objects;
    ReportInforms(ph, Relocate(ph, s, h, from, to, name, toName).0, h);
  }

  lemma ReportInforms(ph: Phone, s: Store, h: Handle)
    ensures Informs(ph, s, h, AskInfo(ph, s, h))
  {
  }

  // ---------- requests by path ----------

  /** What a path text addresses. */
  datatype Address = Nowhere(error: Error) | DeviceRoot | Inside(storage: nat, names: seq<string>)

  function AddressOf(su: Setup, raw: string): (a: Address)
    ensures a.Inside? ==> a.storage < |su.storages|
  {
    match Paths.ParseSpec(su.chars, raw)
    case Err(e) => Nowhere(e)
    case Ok(p) =>
      if p.storageRef == "" then DeviceRoot
      else
        match FindStorageIndex(su, p.storageRef)
        case Err(e) => Nowhere(e)
        case Ok(i) => Inside(i, p.segments)
  }

  /** The same for requests that need something below a storage's top. */
  function TargetOf(su: Setup, raw: string): (a: Address)
    ensures a.Inside? ==> a.storage < |su.storages| && a.names != []
    ensures !a.DeviceRoot?
  {
    match Paths.ParseSpec(su.chars, raw)
    case Err(e) => Nowhere(e)
    case Ok(p) => if p.storageRef == "" || p.segments == [] then Nowhere(InvalidArgument) else AddressOf(su, raw)
  }

  /** One storage has changed, at most. */
  predicate OnlyAt(dev: Dev, dev': Dev, i: nat) {
    i < |dev| == |dev'| && dev' == dev[i := dev'[i]]
  }

  /** The storages, as directories of the device root, under handles of their own. */
  ghost predicate StorageListing(su: Setup, es: seq<Entry>) {
    && |es| == |su.storages|
    && (forall k :: 0 <= k < |es| ==> es[k] == Entry(es[k].handle, 0, su.storages[k].description, true, 0))
    && (|es| <= 0x1_0000_0000 ==> forall j, k :: 0 <= j < k < |es| ==> es[j].handle != es[k].handle)
  }

  ghost predicate ListsPath(su: Setup, dev: Dev, raw: string, r: Result<seq<Entry>>)
    requires |dev| == |su.storages|
  {
    match AddressOf(su, raw)
    case Nowhere(e) => r == Err(e)
    case DeviceRoot => r.Ok? && StorageListing(su, r.value)
    case Inside(i, names) =>
      || (r.Err? && Leads(su.phone, dev[i], ROOT, names, true, Err(r.error)))
      || exists d :: Leads(su.phone, dev[i], ROOT, names, true, Ok(d)) && Lists(su.phone, dev[i], d, r)
  }

  ghost predicate Resolves(su: Setup, dev: Dev, raw: string, r: Result<Resolved>)
    requires |dev| == |su.storages|
  {
    match AddressOf(su, raw)
    case Nowhere(e) => r == Err(e)
    case DeviceRoot => r == Err(InvalidArgument)
    case Inside(i, names) =>
      if names == [] then r == Ok(Resolved(i, ROOT, Entry(ROOT, 0, su.storages[i].description, true, 0)))
      else
        || (r.Err? && Leads(su.phone, dev[i], ROOT, names, false, Err(r.error)))
        || exists h :: Leads(su.phone, dev[i], ROOT, names, false, Ok(h)) && (r.Ok? ==> r.value.storageIndex == i && r.value.handle == h)
                       && Informs(su.phone, dev[i], h, if r.Ok? then Ok(r.value.entry) else Err(r.error))
  }

  /** As many of the directories as the phone makes before its first refusal: each inside the one
      before, under handles in sequence. */
  ghost predicate Chained(ph: Phone, s: Store, d: Handle, names: seq<string>, m: nat, t: Store, r: Result<Handle>) {
    && m <= |names| && t.next == s.next + m
    && (forall h :: h in s.objects ==> h in t.objects && t.objects[h] == s.objects[h])
    && (forall h :: h in t.objects && h !in s.objects ==> s.next <= h < t.next)
    && (forall h :: s.next <= h < t.next ==> h in t.objects && t.objects[h] == Link(s.next, d, names, h))
    && var last := if m == 0 then d else t.next - 1;
       match r
       case Ok(h) => m == |names| && h == last
       case Err(e) => m < |names| && ph.refuse(t, Create(last, names[m])) == Some(e)
  }

  function Link(next: Handle, d: Handle, names: seq<string>, h: Handle): Object
    requires next <= h < next + |names|
  {
    Object(if h == next then d else h - 1, names[h - next], true, [])
  }

  /** What exists is walked through, and what is missing is made. */
  ghost predicate MakesAll(ph: Phone, s: Store, d: Handle, names: seq<string>, t: Store, r: Result<Handle>)
    decreases |names|
  {
    if names == [] then t == s && r == Ok(d)
    else
      || (NoChild(ph.folding, s, d, names[0]) && exists m: nat :: Chained(ph, s, d, names, m, t, r))
      || exists c :: FirstChild(ph, s, d, names[0], c)
           && if IsDirectory(s, c) then MakesAll(ph, s, c, names[1..], t, r) else t == s && r == Err(WrongKind)
  }

  ghost predicate MakesPath(su: Setup, dev: Dev, raw: string, dev': Dev, r: Result<Entry>)
    requires |dev| == |su.storages|
  {
    match AddressOf(su, raw)
    case Nowhere(e) => dev' == dev && r == Err(e)
    case DeviceRoot => dev' == dev && r == Err(InvalidArgument)
    case Inside(i, names) =>
      && OnlyAt(dev, dev', i)
      && (r.Ok? ==> r.value == Entry(r.value.handle, 0, if names == [] then "" else names[|names| - 1], true, 0))
      && MakesAll(su.phone, dev[i], ROOT, names, dev'[i], if r.Ok? then Ok(r.value.handle) else Err(r.error))
  }

  /** The object goes, or with `recursive` its whole subtree. A removal stopped midway has taken
      nothing from outside the subtree, and not its top. */
  ghost predicate RemovesAt(ph: Phone, s: Store, h: Handle, recursive: bool, t: Store, r: Result<nat>) {
    h in s.objects &&
    if s.objects[h].isDir then
      if !recursive then t == s && r == Err(WrongKind)
      else
        var within := Subtree(s.objects, h);
        && t.next == s.next && (forall x :: x in t.objects ==> x in s.objects && t.objects[x] == s.objects[x])
        && (r.Ok? ==> t.objects.Keys == s.objects.Keys - within && r.value == |within|)
        && (r.Err? ==> s.objects.Keys - within + {h} <= t.objects.Keys)
        && ((forall u: Store, x :: x in within ==> ph.refuse(u, Delete(x)).None?) ==> r.Ok?)
    else
      match ph.refuse(s, Delete(h))
      case Some(e) => t == s && r == Err(e)
      case None => t == Store(s.objects - {h}, s.next) && r == Ok(1)
  }

  ghost predicate RemovesPath(su: Setup, dev: Dev, raw: string, recursive: bool, dev': Dev, r: Result<nat>)
    requires |dev| == |su.storages|
  {
    match TargetOf(su, raw)
    case Nowhere(e) => dev' == dev && r == Err(e)
    case Inside(i, names) =>
      || (dev' == dev && r.Err? && Leads(su.phone, dev[i], ROOT, names, false, Err(r.error)))
      || exists h :: Leads(su.phone, dev[i], ROOT, names, false, Ok(h)) && OnlyAt(dev, dev', i)
                     && RemovesAt(su.phone, dev[i], h, recursive, dev'[i], r)
  }

  ghost predicate RenamesPath(su: Setup, dev: Dev, raw: string, newName: string, dev': Dev, r: Result<Entry>)
    requires |dev| == |su.storages|
  {
    if '/' in newName then dev' == dev && r == Err(InvalidArgument)
    else
      match TargetOf(su, raw)
      case Nowhere(e) => dev' == dev && r == Err(e)
      case Inside(i, names) =>
        || (dev' == dev && r.Err? && Leads(su.phone, dev[i], ROOT, names, false, Err(r.error)))
        || exists h :: Leads(su.phone, dev[i], ROOT, names, false, Ok(h)) && OnlyAt(dev, dev', i)
                       && Renames(su.phone, dev[i], h, newName, dev'[i], r)
  }

  /** The directory a path names, as the phone reports it, or why there is none. */
  ghost predicate Targets(su: Setup, dev: Dev, i: nat, names: seq<string>, r: Result<Handle>)
    requires i < |dev|
  {
    || (r.Err? && Leads(su.phone, dev[i], ROOT, names, false, r))
    || exists d :: Leads(su.phone, dev[i], ROOT, names, false, Ok(d)) && d in dev[i].objects
                   && var refusal := su.phone.informs(dev[i], d);
                      r == if refusal.Some? then Err(refusal.value) else if dev[i].objects[d].isDir then Ok(d) else Err(WrongKind)
  }

  ghost predicate MovesPath(su: Setup, dev: Dev, src: string, dst: string, dev': Dev, r: Result<Entry>)
    requires |dev| == |su.storages|
  {
    var a, b := TargetOf(su, src), TargetOf(su, dst);
    if a == Nowhere(InvalidArgument) || b == Nowhere(InvalidArgument) then dev' == dev && r == Err(InvalidArgument)
    else if a.Nowhere? then dev' == dev && r == Err(a.error)
    else if b.Nowhere? then dev' == dev && r == Err(b.error)
    else if a.storage != b.storage then dev' == dev && r == Err(InvalidArgument)
    else
      || (dev' == dev && r.Err? && Leads(su.phone, dev[a.storage], ROOT, a.names, false, Err(r.error)))
      || exists h :: Leads(su.phone, dev[a.storage], ROOT, a.names, false, Ok(h)) && MovesTo(su, dev, a.storage, h, b.names, dev', r)
  }

  ghost predicate MovesTo(su: Setup, dev: Dev, i: nat, h: Handle, to: seq<string>, dev': Dev, r: Result<Entry>)
    requires i < |dev|
  {
    || (dev' == dev && r.Err? && Targets(su, dev, i, to, Err(r.error)))
    || exists d :: Targets(su, dev, i, to, Ok(d)) && OnlyAt(dev, dev', i) && Moves(su.phone, dev[i], h, d, dev'[i], r)
  }

  /** All of the object's bytes, unless the stream breaks or ends early. */
  ghost predicate Downloads(su: Setup, dev: Dev, i: nat, h: Handle, r: Result<Bytes>) {
    if i >= |dev| then r == Err(InvalidArgument)
    else if h !in dev[i].objects then r == Err(StaleHandle)
    else if dev[i].objects[h].isDir then r == Err(WrongKind)
    else
      var data := dev[i].objects[h].data;
      match su.phone.breaks(data)
      case Some(e) => r == Err(e)
      case None => r == if Sum(su.phone.chunking(data)) >= |data| then Ok(data) else Err(Mtp)
  }

  // ---------- the plain actor answers so ----------

  lemma StorageEntriesList(su: Setup)
    ensures StorageListing(su, StorageEntries(su))
  {
  }

  lemma ListListsPath(su: Setup, dev: Dev, raw: string)
    requires |dev| == |su.storages| && AllValid(dev)
    ensures ListsPath(su, dev, raw, List(su, dev, raw))
  {
    hide Valid, Walk, Leads, Lists, ListObjects, Paths.ParseSpec, FindStorageIndex, StorageListing;
    StorageEntriesList(su);
    var a, r := AddressOf(su, raw), List(su, dev, raw);
    if a.Inside? {
      var w := Walk(su.phone, dev[a.storage], ROOT, a.names, true);
      WalkLeads(su.phone, dev[a.storage], ROOT, a.names, true, w);
      if w.Ok? {
        ListObjectsLists(su.phone, dev[a.storage], w.value);
        assert r == ListObjects(su.phone, dev[a.storage], w.value);
      }
    }
  }

  lemma ResolveResolves(su: Setup, dev: Dev, raw: string)
    requires |dev| == |su.storages| && AllValid(dev)
    ensures Resolves(su, dev, raw, Resolve(su, dev, raw))
  {
    hide Valid, Walk, Leads, Informs, AskInfo, Paths.ParseSpec, FindStorageIndex;
    var a, r := AddressOf(su, raw), Resolve(su, dev, raw);
    if a.Inside? {
      var w := Walk(su.phone, dev[a.storage], ROOT, a.names, false);
      WalkLeads(su.phone, dev[a.storage], ROOT, a.names, false, w);
      if w.Ok? {
        ReportInforms(su.phone, dev[a.storage], w.value);
        assert a.names != [] ==> (r.Ok? <==> AskInfo(su.phone, dev[a.storage], w.value).Ok?);
      }
    }
  }

  lemma {:induction false} CreateAllChains(ph: Phone, s: Store, d: Handle, names: seq<string>) returns (m: nat)
    requires IsDirectory(s, d) && BelowNext(s)
    ensures var (t, r) := CreateAll(ph, s, d, names); Chained(ph, s, d, names, m, t, r)
    decreases |names|
  {
    hide Chained;
    m := 0;
    if names == [] {
      NoLinks(ph, s, d, names, Ok(d));
    } else {
      var (s1, r1) := Apply(ph, s, Create(d, names[0]));
      if r1.Ok? {
        var k := CreateAllChains(ph, s1, s.next, names[1..]);
        m := k + 1;
        assert s1 == With(s, Object(d, names[0], true, []));
        OneLinkMore(ph, s, d, names, k, CreateAll(ph, s1, s.next, names[1..]).0, CreateAll(ph, s1, s.next, names[1..]).1);
      } else {
        NoLinks(ph, s, d, names, r1);
      }
    }
  }

  ghost predicate BelowNext(s: Store) {
    ROOT < s.next && forall h :: h in s.objects ==> ROOT < h < s.next
  }

  lemma NoLinks(ph: Phone, s: Store, d: Handle, names: seq<string>, r: Result<Handle>)
    requires if r.Ok? then names == [] && r.value == d else names != [] && ph.refuse(s, Create(d, names[0])) == Some(r.error)
    ensures Chained(ph, s, d, names, 0, s, r)
  {
  }

  lemma OneLinkMore(ph: Phone, s: Store, d: Handle, names: seq<string>, k: nat, t: Store, r: Result<Handle>)
    requires names != [] && BelowNext(s)
    requires Chained(ph, With(s, Object(d, names[0], true, [])), s.next, names[1..], k, t, r)
    ensures Chained(ph, s, d, names, k + 1, t, r)
  {
    var s1 := With(s, Object(d, names[0], true, []));
    forall h | s.next <= h < t.next
      ensures h in t.objects && t.objects[h] == Link(s.next, d, names, h)
    {
      if h == s.next {
        assert h in s1.objects && t.objects[h] == s1.objects[h];
      } else {
        assert t.objects[h] == Link(s1.next, s.next, names[1..], h);
      }
    }
    forall h | h in s.objects
      ensures h in t.objects && t.objects[h] == s.objects[h]
    {
      assert h in s1.objects && s1.objects[h] == s.objects[h];
    }
  }

  lemma {:induction false} MkdirWalkMakes(ph: Phone, s: Store, d: Handle, names: seq<string>)
    requires Valid(s) && IsDirectory(s, d)
    ensures var (t, r) := MkdirWalk(ph, s, d, names); MakesAll(ph, s, d, names, t, r)
    decreases |names|
  {
    hide Valid, Entries, Kids, FirstChild, NoChild, Chained, CreateAll;
    if names != [] {
      NextIsNotRoot(s);
      ChildIs(ph, s, d, names[0]);
      var found := ChildByName(ph.folding, Entries(ph, Kids(s, d)), names[0]);
      if found.None? {
        var m := CreateAllChains(ph, s, d, names);
      } else if found.value.isDir {
        MkdirWalkMakes(ph, s, found.value.handle, names[1..]);
      } else {
        FileIsNoDirectory(s, found.value.handle);
      }
    }
  }

  lemma NextIsNotRoot(s: Store)
    requires Valid(s)
    ensures s.next != ROOT && ROOT !in s.objects && BelowNext(s)
  {
  }

  lemma FileIsNoDirectory(s: Store, h: Handle)
    requires Valid(s) && h in s.objects
    ensures IsDirectory(s, h) <==> s.objects[h].isDir
  {
  }

  lemma MkdirAllMakes(su: Setup, dev: Dev, raw: string)
    requires |dev| == |su.storages| && AllValid(dev)
    ensures var (dev', r) := MkdirAll(su, dev, raw); MakesPath(su, dev, raw, dev', r)
  {
    hide Valid, MkdirWalk, MakesAll, Paths.ParseSpec, FindStorageIndex;
    var a := AddressOf(su, raw);
    if a.Inside? {
      MkdirWalkMakes(su.phone, dev[a.storage], ROOT, a.names);
      var (t, w) := MkdirWalk(su.phone, dev[a.storage], ROOT, a.names);
      var (dev', r) := MkdirAll(su, dev, raw);
      assert dev' == dev[a.storage := t] && dev'[a.storage] == t;
      assert w == if r.Ok? then Ok(r.value.handle) else Err(r.error);
    }
  }

  /** The target of a path is what the whole path leads to. */
  lemma TargetLeads(ph: Phone, s: Store, p: Paths.DevPath)
    requires Valid(s) && p.segments != []
    ensures var found, last := FindTarget(ph, s, p), p.segments[|p.segments| - 1];
            if found.Err? then Leads(ph, s, ROOT, p.segments, false, Err(found.error))
            else
              var (d, e) := found.value;
              && Leads(ph, s, ROOT, p.segments, false, Ok(e.handle)) && Reports(s, e.handle, e) && e.parent == d
              && Leads(ph, s, ROOT, p.segments[..|p.segments| - 1], false, Ok(d)) && FirstChild(ph, s, d, last, e.handle)
  {
    hide Valid, Walk, Leads, Entries, Kids, Before, Bears, ChildByName;
    var most, last := p.segments[..|p.segments| - 1], p.segments[|p.segments| - 1];
    assert most + [last] == p.segments;
    var w := Walk(ph, s, ROOT, most, false);
    WalkSnoc(ph, s, ROOT, most, last);
    WalkLeads(ph, s, ROOT, most, false, w);
    WalkLeads(ph, s, ROOT, p.segments, false, Walk(ph, s, ROOT, p.segments, false));
    if w.Ok? {
      ChildIs(ph, s, w.value, last);
      OneMore(ph, s, w.value, last);
    }
  }

  lemma {:induction false} WalkSnoc(ph: Phone, s: Store, d: Handle, names: seq<string>, last: string)
    ensures var w := Walk(ph, s, d, names, false);
            Walk(ph, s, d, names + [last], false) == if w.Ok? then Walk(ph, s, w.value, [last], false) else w
    decreases |names|
  {
    hide ListObjects;
    if names == [] {
      assert [] + [last] == [last];
    } else {
      assert (names + [last])[0] == names[0] && (names + [last])[1..] == names[1..] + [last];
      if ListObjects(ph, s, d).Ok? {
        var found := ChildByName(ph.folding, ListObjects(ph, s, d).value, names[0]);
        if found.Some? {
          WalkSnoc(ph, s, found.value.handle, names[1..], last);
        }
      }
    }
  }

  lemma OneMore(ph: Phone, s: Store, d: Handle, name: string)
    ensures var listed, w := ListObjects(ph, s, d), Walk(ph, s, d, [name], false);
            if listed.Err? then w == Err(listed.error)
            else
              var found := ChildByName(ph.folding, listed.value, name);
              w == if found.None? then Err(NotFound) else Ok(found.value.handle)
  {
    assert [name][1..] == [];
  }

  lemma RemoveRemoves(su: Setup, dev: Dev, raw: string, recursive: bool)
    requires |dev| == |su.storages| && AllValid(dev)
    ensures var (dev', r) := PlainActor.Remove(su, dev, raw, recursive); RemovesPath(su, dev, raw, recursive, dev', r)
  {
    hide Valid, Leads, RemovesAt, RemoveAt, FindTarget, Paths.ParseSpec, FindStorageIndex;
    var a := TargetOf(su, raw);
    if a.Inside? {
      var p := Paths.ParseSpec(su.chars, raw).value;
      RemoveAtRemoves(su.phone, dev[a.storage], p, recursive);
      assert dev[a.storage := dev[a.storage]] == dev;
    }
  }

  lemma RemoveAtRemoves(ph: Phone, s: Store, p: Paths.DevPath, recursive: bool)
    requires Valid(s) && p.segments != []
    ensures var (t, r) := RemoveAt(ph, s, p, recursive);
            || (t == s && r.Err? && Leads(ph, s, ROOT, p.segments, false, Err(r.error)))
            || exists h :: Leads(ph, s, ROOT, p.segments, false, Ok(h)) && RemovesAt(ph, s, h, recursive, t, r)
  {
    hide Sound, Leads, FindTarget, Entries, Kids, FirstChild, DeleteTree, Subtree, Apply, Ranks;
    TargetLeads(ph, s, p);
    var found := FindTarget(ph, s, p);
    if found.Ok? {
      var h, rank := found.value.1.handle, SomeRank(s.objects);
      if s.objects[h].isDir {
        TreeGoes(ph, s, h, rank);
      } else {
        FileGoes(ph, s, h);
      }
      var (t, r) := RemoveAt(ph, s, p, recursive);
      assert RemovesAt(ph, s, h, recursive, t, r);
    }
  }

  lemma TreeGoes(ph: Phone, s: Store, h: Handle, rank: map<Handle, nat>)
    requires Valid(s) && Ranks(s.objects, rank) && h in s.objects && s.objects[h].isDir
    ensures var (t, r) := DeleteTree(ph, s, rank, h); RemovesAt(ph, s, h, true, t, r)
  {
    hide Valid, Ranks, Subtree, DeleteTree;
    TreeRemoval.DeleteTreeExact(ph, s, rank, h);
    if TreeRemoval.Deletable(ph, Subtree(s.objects, h)) {
      TreeRemoval.DeleteTreeSucceeds(ph, s, rank, h);
    }
  }

  lemma FileGoes(ph: Phone, s: Store, h: Handle)
    requires Valid(s) && h in s.objects && !s.objects[h].isDir
    ensures var (t, gone) := Apply(ph, s, Delete(h)); RemovesAt(ph, s, h, true, t, if gone.Err? then Err(gone.error) else Ok(1))
    ensures var (t, gone) := Apply(ph, s, Delete(h)); RemovesAt(ph, s, h, false, t, if gone.Err? then Err(gone.error) else Ok(1))
  {
    FilesHaveNoKids(s, h);
  }

  lemma RenameRenames(su: Setup, dev: Dev, raw: string, newName: string)
    requires |dev| == |su.storages| && AllValid(dev)
    ensures var (dev', r) := PlainActor.RenamePath(su, dev, raw, newName); RenamesPath(su, dev, raw, newName, dev', r)
  {
    hide Valid, Leads, FindTarget, Apply, Renames, AskInfo, Paths.ParseSpec, FindStorageIndex, FirstChild;
    var a := TargetOf(su, raw);
    ParseErrors(su.chars, raw);
    if a.Inside? {
      var p := Paths.ParseSpec(su.chars, raw).value;
      TargetLeads(su.phone, dev[a.storage], p);
      var found := FindTarget(su.phone, dev[a.storage], p);
      if found.Ok? {
        ApplyRenames(su.phone, dev[a.storage], found.value.1.handle, newName);
      }
    }
  }

  lemma DownloadDownloads(su: Setup, dev: Dev, target: Resolved)
    requires |dev| == |su.storages|
    ensures Downloads(su, dev, target.storageIndex, target.handle, Download(su, dev, target))
  {
  }

  lemma MoveMoves(su: Setup, dev: Dev, src: string, dst: string)
    requires |dev| == |su.storages| && AllValid(dev)
    ensures var (dev', r) := PlainActor.MoveInto(su, dev, src, dst); MovesPath(su, dev, src, dst, dev', r)
  {
    hide Valid, Leads, FindTarget, Resolve, Apply, Moves, AskInfo, Paths.ParseSpec, FindStorageIndex, FirstChild, Targets;
    var a, b := TargetOf(su, src), TargetOf(su, dst);
    ParseErrors(su.chars, src);
    ParseErrors(su.chars, dst);
    StorageErrors(su);
    if a.Inside? && b.Inside? && a.storage == b.storage {
      var i := a.storage;
      TargetLeads(su.phone, dev[i], Paths.ParseSpec(su.chars, src).value);
      var found := FindTarget(su.phone, dev[i], Paths.ParseSpec(su.chars, src).value);
      if found.Ok? {
        var h := found.value.1.handle;
        var d := ResolveTargets(su, dev, dst);
        var (dev', r) := PlainActor.MoveInto(su, dev, src, dst);
        if d.Ok? {
          ApplyMoves(su.phone, dev[i], h, d.value);
          var (t, moved) := Apply(su.phone, dev[i], Move(h, d.value));
          assert dev' == dev[i := t] && r == if moved.Ok? then AskInfo(su.phone, t, h) else Err(moved.error);
        } else {
          assert dev' == dev && r == Err(d.error) && d == Err(r.error);
        }
        assert MovesTo(su, dev, i, h, b.names, dev', r);
      }
    }
  }

  lemma ParseErrors(cs: Paths.Chars, raw: string)
    ensures Paths.ParseSpec(cs, raw).Err? ==> Paths.ParseSpec(cs, raw) == Err(InvalidArgument)
  {
  }

  lemma StorageErrors(su: Setup)
    ensures forall ref :: FindStorageIndex(su, ref).Err? ==> FindStorageIndex(su, ref) == Err(NotFound)
  {
  }

  lemma ResolveTargets(su: Setup, dev: Dev, raw: string) returns (d: Result<Handle>)
    requires |dev| == |su.storages| && AllValid(dev) && TargetOf(su, raw).Inside?
    ensures Targets(su, dev, TargetOf(su, raw).storage, TargetOf(su, raw).names, d)
    ensures var r := Resolve(su, dev, raw);
            if d.Ok? then r.Ok? && r.value.entry.isDir && r.value.handle == d.value
            else r == Err(d.error) || (r.Ok? && !r.value.entry.isDir && d.error == WrongKind)
  {
    hide Valid, Walk, Leads, Paths.ParseSpec, FindStorageIndex;
    var a := TargetOf(su, raw);
    var s := dev[a.storage];
    var w := Walk(su.phone, s, ROOT, a.names, false);
    WalkLeads(su.phone, s, ROOT, a.names, false, w);
    d := w;
    if w.Ok? {
      LeadsInside(su.phone, s, a.names, w.value);
      var info := AskInfo(su.phone, s, w.value);
      d := if info.Err? then Err(info.error) else if info.value.isDir then Ok(w.value) else Err(WrongKind);
    }
  }

  lemma {:induction false} LeadsInside(ph: Phone, s: Store, names: seq<string>, h: Handle)
    requires names != [] && Leads(ph, s, ROOT, names, false, Ok(h))
    ensures h in s.objects
  {
    LeadsFrom(ph, s, ROOT, names, h);
  }

  lemma {:induction false} LeadsFrom(ph: Phone, s: Store, d: Handle, names: seq<string>, h: Handle)
    requires names != [] && Leads(ph, s, d, names, false, Ok(h))
    ensures h in s.objects
    decreases |names|
  {
    hide Before;
    var c :| FirstChild(ph, s, d, names[0], c) && Leads(ph, s, c, names[1..], false, Ok(h));
    if names[1..] != [] {
      LeadsFrom(ph, s, c, names[1..], h);
    }
  }

  lemma RenameHandleRenames(su: Setup, dev: Dev, i: nat, from: Handle, name: string, to: Handle, toName: string)
    requires |dev| == |su.storages| && AllValid(dev) && i < |dev|
    ensures var (dev', r) := RenameHandle(su, dev, i, from, name, to, toName);
            OnlyAt(dev, dev', i) && RenamesChild(su.phone, dev[i], from, name, to, toName, dev'[i], r)
  {
    hide Valid, Entries, Kids, Before, Bears, Relocate, Relocates;
    var s := dev[i];
    ChildIs(su.phone, s, from, name);
    InAFile(su.phone, s, from, name);
    var found := ChildByName(su.phone.folding, Entries(su.phone, Kids(s, from)), name);
    if found.Some? && ListObjects(su.phone, s, from).Ok? {
      RelocateRelocates(su.phone, s, found.value.handle, to, name, toName);
    }
  }

  // ---------- a renamed object under its new path ----------

  /** What a directory shows first depends on its children alone. */
  lemma FirstChildSame(ph: Phone, s: Store, t: Store, d: Handle, name: string, c: Handle)
    requires Kids(s, d) == Kids(t, d) && FirstChild(ph, s, d, name, c)
    ensures FirstChild(ph, t, d, name, c)
  {
    hide Before;
    forall x | IsChild(s, d, x) || IsChild(t, d, x)
      ensures IsChild(s, d, x) && IsChild(t, d, x) && s.objects[x] == t.objects[x]
    {
      assert x in Kids(s, d) && Kids(s, d)[x] == Kids(t, d)[x];
    }
  }

  /** A path leads down. */
  lemma {:induction false} LeadsDown(ph: Phone, s: Store, cur: Handle, names: seq<string>, d: Handle, rank: map<Handle, nat>)
    requires Ranks(s.objects, rank) && names != [] && Leads(ph, s, cur, names, false, Ok(d))
    ensures d in s.objects && d != ROOT && (cur != ROOT ==> cur in s.objects && rank[d] < rank[cur])
    decreases |names|
  {
    hide Before;
    var c :| FirstChild(ph, s, cur, names[0], c) && Leads(ph, s, c, names[1..], false, Ok(d));
    assert Ranked(s.objects, rank, c);
    if names[1..] != [] {
      LeadsDown(ph, s, c, names[1..], d, rank);
    }
  }

  /** So changes among the children of its end do not disturb it. */
  lemma {:induction false} LeadsKept(ph: Phone, s: Store, t: Store, cur: Handle, names: seq<string>, d: Handle, rank: map<Handle, nat>)
    requires Ranks(s.objects, rank) && (forall x :: x != d ==> Kids(t, x) == Kids(s, x))
    requires Leads(ph, s, cur, names, false, Ok(d))
    ensures Leads(ph, t, cur, names, false, Ok(d))
    decreases |names|
  {
    hide Ranks, FirstChild, Stops, Kids;
    if names != [] {
      LeadsDown(ph, s, cur, names, d, rank);
      var c :| FirstChild(ph, s, cur, names[0], c) && Leads(ph, s, c, names[1..], false, Ok(d));
      FirstChildSame(ph, s, t, cur, names[0], c);
      LeadsKept(ph, s, t, c, names[1..], d, rank);
    }
  }

  /** After a rename the path with its last name replaced leads to the object exactly when the phone
      lists it first of that name, as it must when nothing else in the directory has the name. */
  lemma RenamedIsFound(ph: Phone, s: Store, names: seq<string>, d: Handle, h: Handle, newName: string)
    requires Valid(s) && Leads(ph, s, ROOT, names, false, Ok(d)) && IsChild(s, d, h)
    requires ph.refuse(s, Rename(h, newName)).None?
    ensures var t := Placed(s, h, d, newName);
            && (Leads(ph, t, ROOT, names + [newName], false, Ok(h)) <==> FirstChild(ph, t, d, newName, h))
            && ((forall x :: IsChild(s, d, x) && x != h ==> Fold(ph.folding, s.objects[x].name) != Fold(ph.folding, newName)) ==>
                  FirstChild(ph, t, d, newName, h))
  {
    hide Sound, Leads, Walk, Kids, Ranks;
    var t, rank := Placed(s, h, d, newName), SomeRank(s.objects);
    assert t == Apply(ph, s, Rename(h, newName)).0;
    ApplyValid(ph, s, Rename(h, newName));
    forall x | x != d
      ensures Kids(t, x) == Kids(s, x)
    {
      KidsExt(s, t, x);
    }
    LeadsKept(ph, s, t, ROOT, names, d, rank);
    WalkLeads(ph, t, ROOT, names, false, Ok(d));
    WalkLeads(ph, t, ROOT, names + [newName], false, Ok(h));
    WalkSnoc(ph, t, ROOT, names, newName);
    EndIsThere(ph, t, names, d);
    WalkLeads(ph, t, d, [newName], false, Ok(h));
    LeadsOne(ph, t, d, newName, h);
  }

  lemma EndIsThere(ph: Phone, s: Store, names: seq<string>, d: Handle)
    requires Leads(ph, s, ROOT, names, false, Ok(d))
    ensures d == ROOT || d in s.objects
  {
    if names != [] {
      LeadsInside(ph, s, names, d);
    }
  }

  lemma LeadsOne(ph: Phone, s: Store, d: Handle, name: string, h: Handle)
    ensures Leads(ph, s, d, [name], false, Ok(h)) <==> FirstChild(ph, s, d, name, h)
  {
    hide FirstChild;
    assert [name][1..] == [] && [name][0] == name;
    assert forall c :: Leads(ph, s, c, [], false, Ok(h)) <==> c == h;
  }
}
