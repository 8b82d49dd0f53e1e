/** The phone: an abstract MTP storage behind `mtp-rs`.

    A storage is a finite forest of objects under fresh handles that are never reused.
    Everything the protocol leaves open is a function-valued parameter of `Behaviour`, so a
    statement about every `Phone` holds whatever listing order a phone uses, whichever
    requests it refuses and however an upload ends. */
module Phones {
  import opened Wrappers
  import opened Names

  type Handle = nat
  type Bytes = seq<bv8>

  const ROOT: Handle := 0

  datatype Object = Object(parent: Handle, name: string, isDir: bool, data: Bytes)

  /** `model.rs`: what a listing or a metadata request reports. */
  datatype Entry = Entry(handle: Handle, parent: Handle, name: string, isDir: bool, size: nat)

  datatype Store = Store(objects: map<Handle, Object>, next: Handle)

  datatype Op =
    | Delete(handle: Handle)
    | Create(parent: Handle, name: string)
    | Rename(handle: Handle, name: string)
    | Move(handle: Handle, to: Handle)

  /** How the device ends an upload: `Partial` leaves an object holding a prefix behind. */
  datatype Fate = Accepted | Refused(error: Error) | Partial(sent: nat, error: Error)

  datatype Behaviour = Behaviour(
    folding: Folding,
    order: map<Handle, Object> -> seq<Handle>,
    listsFiles: bool,
    lists: (Store, Handle) -> Option<Error>,
    informs: (Store, Handle) -> Option<Error>,
    refuse: (Store, Op) -> Option<Error>,
    upload: (Store, Handle, string, nat, Bytes) -> Fate,
    range: (Bytes, nat, nat) -> Result<nat>,
    chunking: Bytes -> seq<nat>,
    breaks: Bytes -> Option<Error>)

  ghost predicate IsOrder(o: seq<Handle>, m: map<Handle, Object>) {
    && (forall i, j :: 0 <= i < j < |o| ==> o[i] != o[j])
    && (forall h :: h in o <==> h in m)
  }

  /** All that is asked of a phone: listings show each child once, in an order that depends on
      the directory's content alone, and no directory is moved into its own subtree. */
  ghost predicate LawfulPhone(b: Behaviour) {
    && (forall m :: IsOrder(b.order(m), m))
    && (forall s: Store, h, to :: b.refuse(s, Move(h, to)).None? ==> !Under(s.objects, to, h))
  }

  ghost function SomeOrder(m: map<Handle, Object>): (o: seq<Handle>)
    ensures IsOrder(o, m)
  {
    if m == map[] then [] else var h :| h in m; [h] + SomeOrder(m - {h})
  }

  ghost function ReadOnlyPhone(): (b: Behaviour)
    ensures LawfulPhone(b)
  {
    Behaviour(Identity(), m => SomeOrder(m), true, (s, d) => None, (s, h) => None, (s, op) => Some(AccessDenied), (s, p, n, k, d) => Refused(AccessDenied),
              (data, off, count) => Err(Mtp), data => [], data => None)
  }

  type Phone = b: Behaviour | LawfulPhone(b) ghost witness ReadOnlyPhone()

  // ---------- the forest ----------

  /** `x` reaches `h` in exactly `n` steps along parent links. */
  ghost predicate Reaches(objects: map<Handle, Object>, x: Handle, h: Handle, n: nat)
    decreases n
  {
    if n == 0 then x == h else x in objects && Reaches(objects, objects[x].parent, h, n - 1)
  }

  ghost predicate Under(objects: map<Handle, Object>, x: Handle, h: Handle) {
    exists n: nat :: Reaches(objects, x, h, n)
  }

  /** The object `h` together with everything below it. */
  ghost function Subtree(objects: map<Handle, Object>, h: Handle): set<Handle> {
    set x | x in objects && Under(objects, x, h)
  }

  predicate IsDirectory(s: Store, d: Handle) {
    d == ROOT || (d in s.objects && s.objects[d].isDir)
  }

  /** A rank that strictly decreases from every directory to its children. */
  ghost predicate Ranks(objects: map<Handle, Object>, rank: map<Handle, nat>) {
    && ROOT !in rank
    && objects.Keys <= rank.Keys
    && (forall h {:trigger Ranked(objects, rank, h)} :: h in objects ==> Ranked(objects, rank, h))
  }

  // The two predicates below are their quantifiers' only triggers: a proof names the object it
  // speaks of, and the solver does not climb parent links by itself.
  ghost predicate Ranked(objects: map<Handle, Object>, rank: map<Handle, nat>, h: Handle)
    requires h in objects && objects.Keys <= rank.Keys
  {
    objects[h].parent != ROOT ==> objects[h].parent in objects && rank[h] < rank[objects[h].parent]
  }

  ghost predicate Rooted(s: Store, h: Handle)
    requires h in s.objects
  {
    IsDirectory(s, s.objects[h].parent)
  }

  ghost predicate Forest(objects: map<Handle, Object>) {
    exists rank :: Ranks(objects, rank)
  }

  ghost predicate Sound(s: Store) {
    && s.next > ROOT
    && (forall h :: h in s.objects ==>
        && ROOT < h < s.next
        && (s.objects[h].isDir ==> s.objects[h].data == []))
    && (forall h {:trigger Rooted(s, h)} :: h in s.objects ==> Rooted(s, h))
  }

  ghost predicate Valid(s: Store) {
    Sound(s) && Forest(s.objects)
  }

  lemma StepUp(objects: map<Handle, Object>, x: Handle, h: Handle)
    requires x in objects && Under(objects, objects[x].parent, h)
    ensures Under(objects, x, h)
  {
    var n: nat :| Reaches(objects, objects[x].parent, h, n);
    assert Reaches(objects, x, h, n + 1);
  }

  lemma StepDown(objects: map<Handle, Object>, x: Handle, h: Handle)
    requires Under(objects, x, h) && x != h
    ensures x in objects && Under(objects, objects[x].parent, h)
  {
    var n: nat :| Reaches(objects, x, h, n);
    assert Reaches(objects, objects[x].parent, h, n - 1);
  }

  lemma UnderSelf(objects: map<Handle, Object>, h: Handle)
    ensures Under(objects, h, h)
  {
    assert Reaches(objects, h, h, 0);
  }

  // ---------- requests that only read ----------

  function Describe(h: Handle, o: Object): Entry {
    Entry(h, o.parent, o.name, o.isDir, |o.data|)
  }

  function Kids(s: Store, d: Handle): map<Handle, Object> {
    map h | h in s.objects && s.objects[h].parent == d :: s.objects[h]
  }

  function Entries(ph: Phone, kids: map<Handle, Object>): seq<Entry> {
    var o := ph.order(kids);
    assert IsOrder(o, kids);
    seq(|o|, i requires 0 <= i < |o| => assert o[i] in o; Describe(o[i], kids[o[i]]))
  }

  /** What a directory shows; what listing a plain file answers is the phone's choice. */
  function ListObjects(ph: Phone, s: Store, d: Handle): Result<seq<Entry>> {
    if d != ROOT && d !in s.objects then Err(StaleHandle)
    else if d != ROOT && !s.objects[d].isDir && !ph.listsFiles then Err(WrongKind)
    else Ok(Entries(ph, Kids(s, d)))
  }

  function ObjectInfo(s: Store, h: Handle): Result<Entry> {
    if h in s.objects then Ok(Describe(h, s.objects[h])) else Err(StaleHandle)
  }

  /** `get_object_info`, which the device may refuse like any other request. */
  function AskInfo(ph: Phone, s: Store, h: Handle): Result<Entry> {
    match ph.informs(s, h)
    case Some(e) => Err(e)
    case None => ObjectInfo(s, h)
  }

  /** `list_objects`, likewise. */
  function AskListing(ph: Phone, s: Store, d: Handle): Result<seq<Entry>> {
    match ph.lists(s, d)
    case Some(e) => Err(e)
    case None => ListObjects(ph, s, d)
  }

  /** A phone that refuses no listing. */
  ghost predicate ListsAll(ph: Phone) {
    forall s: Store, d: Handle :: ph.lists(s, d).None?
  }

  function Min(a: nat, b: nat): nat {
    if a <= b then a else b
  }

  /** `GetPartialObject`: some prefix of the requested window, or an error. */
  function ReadRange(ph: Phone, s: Store, h: Handle, offset: nat, count: nat): Result<Bytes> {
    if h !in s.objects then Err(StaleHandle)
    else if s.objects[h].isDir then Err(WrongKind)
    else
      var data := s.objects[h].data;
      var n :- ph.range(data, offset, count);
      var from := Min(offset, |data|);
      Ok(data[from..from + Min(n, Min(count, |data| - from))])
  }

  function Sum(sizes: seq<nat>): nat {
    if sizes == [] then 0 else Sum(sizes[..|sizes| - 1]) + sizes[|sizes| - 1]
  }

  /** What a full download delivers: consecutive pieces, possibly ending early or in an error. */
  function Delivered(ph: Phone, data: Bytes): Bytes {
    data[..Min(Sum(ph.chunking(data)), |data|)]
  }

  lemma EntriesAreKids(ph: Phone, kids: map<Handle, Object>, e: Entry)
    ensures e in Entries(ph, kids) <==> e.handle in kids && e == Describe(e.handle, kids[e.handle])
  {
    var o := ph.order(kids);
    assert IsOrder(o, kids);
    if e.handle in kids && e == Describe(e.handle, kids[e.handle]) {
      assert e.handle in o;
      var i :| 0 <= i < |o| && o[i] == e.handle;
      assert Entries(ph, kids)[i] == e;
    }
  }

  lemma {:induction false} OrderCount(o: seq<Handle>, m: map<Handle, Object>)
    requires IsOrder(o, m)
    ensures |o| == |m|
  {
    if o == [] {
      assert m == map[];
    } else {
      assert (m - {o[0]}).Keys == m.Keys - {o[0]};
      OrderCount(o[1..], m - {o[0]});
    }
  }

  lemma EntriesCount(ph: Phone, kids: map<Handle, Object>)
    ensures |Entries(ph, kids)| == |kids|
  {
    OrderCount(ph.order(kids), kids);
  }

  // ---------- requests that change the store ----------

  function Admits(s: Store, op: Op): Option<Error> {
    match op
    case Delete(h) =>
      if h !in s.objects then Some(NotFound)
      else if Kids(s, h) != map[] then Some(AccessDenied)
      else None
    case Create(parent, _) => if IsDirectory(s, parent) then None else Some(StaleHandle)
    case Rename(h, _) => if h in s.objects then None else Some(StaleHandle)
    case Move(h, to) =>
      if h !in s.objects then Some(StaleHandle)
      else if !IsDirectory(s, to) then Some(StaleHandle)
      else None
  }

  function Add(s: Store, o: Object): Store {
    Store(s.objects[s.next := o], s.next + 1)
  }

  function Drop(s: Store, h: Handle): Store {
    s.(objects := s.objects - {h})
  }

  function Effect(s: Store, op: Op): Store
    requires Admits(s, op).None?
  {
    match op
    case Delete(h) => Drop(s, h)
    case Create(parent, name) => Add(s, Object(parent, name, true, []))
    case Rename(h, name) => s.(objects := s.objects[h := s.objects[h].(name := name)])
    case Move(h, to) => s.(objects := s.objects[h := s.objects[h].(parent := to)])
  }

  function Failure(ph: Phone, s: Store, op: Op): Option<Error> {
    if Admits(s, op).Some? then Admits(s, op) else ph.refuse(s, op)
  }

  /** One mutating request: the new store and the handle concerned, or an error and no change. */
  function Apply(ph: Phone, s: Store, op: Op): (Store, Result<Handle>) {
    match Failure(ph, s, op)
    case Some(e) => (s, Err(e))
    case None =>
      (Effect(s, op), Ok(match op case Create(_, _) => s.next case Delete(h) => h case Rename(h, _) => h case Move(h, _) => h))
  }

  /** The directories whose listing a request may change. */
  function Touched(s: Store, op: Op): set<Handle> {
    match op
    case Delete(h) => if h in s.objects then {s.objects[h].parent} else {}
    case Create(parent, _) => {parent}
    case Rename(h, _) => if h in s.objects then {s.objects[h].parent} else {}
    case Move(h, to) => (if h in s.objects then {s.objects[h].parent} else {}) + {to}
  }

  lemma FilesHaveNoKids(s: Store, h: Handle)
    requires Sound(s) && h in s.objects && !s.objects[h].isDir
    ensures Kids(s, h) == map[]
  {
    forall x | x in s.objects
      ensures s.objects[x].parent != h
    {
      assert Rooted(s, x);
    }
  }

  lemma KidsExt(s: Store, t: Store, d: Handle)
    requires forall h :: (h in s.objects && s.objects[h].parent == d) <==> (h in t.objects && t.objects[h].parent == d)
    requires forall h :: h in s.objects && s.objects[h].parent == d ==> s.objects[h] == t.objects[h]
    ensures Kids(s, d) == Kids(t, d)
  {
  }

  lemma ApplyFrame(ph: Phone, s: Store, op: Op, d: Handle)
    requires Sound(s) && d !in Touched(s, op)
    ensures Kids(Apply(ph, s, op).0, d) == Kids(s, d)
  {
    KidsExt(s, Apply(ph, s, op).0, d);
  }

  lemma AddForest(s: Store, o: Object)
    requires Valid(s) && IsDirectory(s, o.parent)
    ensures Forest(Add(s, o).objects)
  {
    var rank :| Ranks(s.objects, rank);
    var shifted := (map h | h in rank :: rank[h] + 1)[s.next := 0];
    var objects := Add(s, o).objects;
    forall h | h in objects
      ensures Ranked(objects, shifted, h)
    {
      assert h in s.objects ==> Ranked(s.objects, rank, h);
    }
    assert Ranks(objects, shifted);
  }

  lemma AddKids(s: Store, o: Object)
    requires Sound(s) && IsDirectory(s, o.parent)
    ensures s.next !in s.objects && Kids(Add(s, o), s.next) == map[]
    ensures forall d :: d != o.parent ==> Kids(Add(s, o), d) == Kids(s, d)
    ensures Kids(Add(s, o), o.parent) == Kids(s, o.parent)[s.next := o]
  {
    forall d | d != o.parent ensures Kids(Add(s, o), d) == Kids(s, d) {
      KidsExt(s, Add(s, o), d);
    }
    forall h | h in s.objects
      ensures s.objects[h].parent != s.next
    {
      assert Rooted(s, h);
    }
  }

  lemma AddSound(s: Store, o: Object)
    requires Valid(s) && IsDirectory(s, o.parent) && (o.isDir ==> o.data == [])
    ensures Valid(Add(s, o))
    ensures s.next !in s.objects && Kids(Add(s, o), s.next) == map[]
    ensures forall d :: d != o.parent ==> Kids(Add(s, o), d) == Kids(s, d)
    ensures Kids(Add(s, o), o.parent) == Kids(s, o.parent)[s.next := o]
  {
    AddForest(s, o);
    AddKids(s, o);
    forall h | h in Add(s, o).objects
      ensures Rooted(Add(s, o), h)
    {
      assert h in s.objects ==> Rooted(s, h);
    }
  }

  lemma DropSound(s: Store, h: Handle)
    requires Valid(s) && h in s.objects && Kids(s, h) == map[]
    ensures Valid(Drop(s, h))
    ensures forall d :: d != s.objects[h].parent ==> Kids(Drop(s, h), d) == Kids(s, d)
  {
    var rank :| Ranks(s.objects, rank);
    forall x | x in Drop(s, h).objects
      ensures Ranked(Drop(s, h).objects, rank, x) && Rooted(Drop(s, h), x)
    {
      assert s.objects[x].parent == h ==> x in Kids(s, h);
      assert Ranked(s.objects, rank, x) && Rooted(s, x);
    }
    assert Ranks(Drop(s, h).objects, rank);
    forall d | d != s.objects[h].parent ensures Kids(Drop(s, h), d) == Kids(s, d) {
      KidsExt(s, Drop(s, h), d);
    }
  }

  /** Lifting everything outside the moved subtree above it ranks the new forest. */
  lemma MoveForest(s: Store, h: Handle, to: Handle)
    requires Valid(s) && h in s.objects && IsDirectory(s, to) && !Under(s.objects, to, h)
    ensures Forest(Effect(s, Move(h, to)).objects)
  {
    var objects := s.objects;
    var rank :| Ranks(objects, rank);
    var lifted := map x | x in rank :: if Under(objects, x, h) then rank[x] else rank[x] + rank[h] + 1;
    var after := Effect(s, Move(h, to)).objects;
    UnderSelf(objects, h);
    forall x | x in after
      ensures Ranked(after, lifted, x)
    {
      assert Ranked(objects, rank, x);
      if x != h {
        if Under(objects, x, h) {
          StepDown(objects, x, h);
        } else if Under(objects, objects[x].parent, h) {
          StepUp(objects, x, h);
        }
      }
    }
    assert Ranks(after, lifted);
  }

  lemma RenameForest(s: Store, h: Handle, name: string)
    requires Valid(s) && h in s.objects
    ensures Forest(Effect(s, Rename(h, name)).objects)
  {
    var after := Effect(s, Rename(h, name)).objects;
    var rank :| Ranks(s.objects, rank);
    forall x | x in after
      ensures Ranked(after, rank, x)
    {
      assert Ranked(s.objects, rank, x);
    }
    assert Ranks(after, rank);
  }

  lemma ApplyValid(ph: Phone, s: Store, op: Op)
    requires Valid(s)
    ensures Valid(Apply(ph, s, op).0)
    ensures s.next <= Apply(ph, s, op).0.next
  {
    if Failure(ph, s, op).None? {
      match op {
        case Delete(h) => DropSound(s, h);
        case Create(parent, name) => AddSound(s, Object(parent, name, true, []));
        case Rename(h, name) => RenameForest(s, h, name);
        case Move(h, to) => MoveForest(s, h, to);
      }
      if op.Rename? || op.Move? {
        forall x | x in Effect(s, op).objects
          ensures Rooted(Effect(s, op), x)
        {
          assert Rooted(s, x);
        }
      }
    }
  }

  // ---------- uploads ----------

  /** `Storage::upload` followed by the clean-up of `upload_into` (actor.rs:1486-1524): a partial
      object, or one whose stream did not carry the declared number of bytes, is deleted again,
      and whether that deletion worked is ignored. */
  function Upload(ph: Phone, s: Store, parent: Handle, name: string, size: nat, stream: Bytes): (Store, Result<Handle>) {
    if !IsDirectory(s, parent) then (s, Err(StaleHandle))
    else
      match ph.upload(s, parent, name, size, stream)
      case Refused(e) => (s, Err(e))
      case Partial(sent, e) =>
        var kept := if sent <= |stream| then stream[..sent] else stream;
        (Apply(ph, Add(s, Object(parent, name, false, kept)), Delete(s.next)).0, Err(e))
      case Accepted =>
        var s1 := Add(s, Object(parent, name, false, stream));
        if |stream| == size then (s1, Ok(s.next)) else (Apply(ph, s1, Delete(s.next)).0, Err(Mtp))
  }

  /** The upload and its report: once the object is there whole, its metadata are asked for, and a
      refusal is the caller's answer. */
  function UploadReport(ph: Phone, s: Store, parent: Handle, name: string, size: nat, stream: Bytes): (Store, Result<Entry>) {
    var (t, r) := Upload(ph, s, parent, name, size, stream);
    (t, if r.Err? then Err(r.error) else AskInfo(ph, t, r.value))
  }

  /** The upload will leave a part behind: it ends midway, or its stream does not carry the declared
      number of bytes, and the phone refuses to delete what arrived. */
  predicate LeavesPart(ph: Phone, s: Store, parent: Handle, name: string, size: nat, stream: Bytes) {
    && IsDirectory(s, parent)
    && match ph.upload(s, parent, name, size, stream)
       case Refused(_) => false
       case Partial(sent, _) =>
         ph.refuse(Add(s, Object(parent, name, false, if sent <= |stream| then stream[..sent] else stream)), Delete(s.next)).Some?
       case Accepted => |stream| != size && ph.refuse(Add(s, Object(parent, name, false, stream)), Delete(s.next)).Some?
  }

  /** The upload will arrive whole, and the phone will refuse to report it. */
  predicate Unreported(ph: Phone, s: Store, parent: Handle, name: string, size: nat, stream: Bytes) {
    && IsDirectory(s, parent) && ph.upload(s, parent, name, size, stream).Accepted? && |stream| == size
    && ph.informs(Add(s, Object(parent, name, false, stream)), s.next).Some?
  }

  /** The upload will leave an object that it does not report. */
  predicate LeavesObject(ph: Phone, s: Store, parent: Handle, name: string, size: nat, stream: Bytes) {
    LeavesPart(ph, s, parent, name, size, stream) || Unreported(ph, s, parent, name, size, stream)
  }

  lemma LeavesPartIff(ph: Phone, s: Store, parent: Handle, name: string, size: nat, stream: Bytes)
    requires Valid(s)
    ensures var (t, r) := Upload(ph, s, parent, name, size, stream);
            && (LeavesPart(ph, s, parent, name, size, stream) <==> r.Err? && t.objects != s.objects)
            && (LeavesPart(ph, s, parent, name, size, stream) <==> r.Err? && s.next in t.objects)
  {
    var fate := ph.upload(s, parent, name, size, stream);
    if IsDirectory(s, parent) && !fate.Refused? {
      var kept := if fate.Partial? && fate.sent <= |stream| then stream[..fate.sent] else stream;
      var o := Object(parent, name, false, kept);
      AddSound(s, o);
      assert Admits(Add(s, o), Delete(s.next)).None?;
      assert Drop(Add(s, o), s.next).objects == s.objects;
    }
  }

  /** These guards decide what a failed upload leaves. */
  lemma LeavesObjectIff(ph: Phone, s: Store, parent: Handle, name: string, size: nat, stream: Bytes)
    requires Valid(s)
    ensures var (t, r) := UploadReport(ph, s, parent, name, size, stream);
            && (LeavesObject(ph, s, parent, name, size, stream) <==> r.Err? && t.objects != s.objects)
            && (LeavesObject(ph, s, parent, name, size, stream) <==> r.Err? && s.next in t.objects)
            && (LeavesPart(ph, s, parent, name, size, stream) ==> !Unreported(ph, s, parent, name, size, stream))
  {
    hide LeavesPart, Upload;
    LeavesPartIff(ph, s, parent, name, size, stream);
    UploadEnds(ph, s, parent, name, size, stream);
    assert s.next !in s.objects;
    var (t, r) := Upload(ph, s, parent, name, size, stream);
    if r.Ok? {
      assert s.next in t.objects && t.objects != s.objects && ObjectInfo(t, s.next).Ok?;
    }
  }

  /** An upload succeeds when the phone takes all the bytes it was promised, and then the object is
      there. */
  lemma UploadEnds(ph: Phone, s: Store, parent: Handle, name: string, size: nat, stream: Bytes)
    requires Valid(s)
    ensures var (t, r) := Upload(ph, s, parent, name, size, stream);
            && (r.Ok? <==> IsDirectory(s, parent) && ph.upload(s, parent, name, size, stream).Accepted? && |stream| == size)
            && (r.Ok? ==> r.value == s.next && t == Add(s, Object(parent, name, false, stream)))
  {
  }

  /** The same for the report. */
  lemma ReportEnds(ph: Phone, s: Store, parent: Handle, name: string, size: nat, stream: Bytes)
    requires Valid(s)
    ensures var (t, r) := UploadReport(ph, s, parent, name, size, stream);
            var o := Object(parent, name, false, stream);
            && (r.Ok? <==> IsDirectory(s, parent) && ph.upload(s, parent, name, size, stream).Accepted? && |stream| == size
                           && ph.informs(Add(s, o), s.next).None?)
            && (r.Ok? ==> r.value == Describe(s.next, o) && t == Add(s, o))
  {
    hide Upload;
    UploadEnds(ph, s, parent, name, size, stream);
    var o := Object(parent, name, false, stream);
    var (t, r) := Upload(ph, s, parent, name, size, stream);
    if r.Ok? {
      assert t == Add(s, o) && t.objects[s.next] == o;
      assert UploadReport(ph, s, parent, name, size, stream) == (t, AskInfo(ph, t, s.next));
    } else {
      assert UploadReport(ph, s, parent, name, size, stream).1.Err?;
    }
  }

  lemma UploadValid(ph: Phone, s: Store, parent: Handle, name: string, size: nat, stream: Bytes)
    requires Valid(s)
    ensures var (s', r) := Upload(ph, s, parent, name, size, stream);
            && Valid(s') && s.next <= s'.next
            && (r.Ok? ==> r.value == s.next && s' == Add(s, Object(parent, name, false, stream)) && |stream| == size)
            && (r.Err? ==> s'.objects == s.objects || (s.next in s'.objects && s'.objects - {s.next} == s.objects))
            && (r.Err? && s.next in s'.objects ==> s'.objects[s.next].parent == parent && s'.objects[s.next].name == name)
            && (forall d :: d != parent ==> Kids(s', d) == Kids(s, d))
  {
    if IsDirectory(s, parent) {
      var fate := ph.upload(s, parent, name, size, stream);
      if !fate.Refused? {
        var kept := if fate.Partial? && fate.sent <= |stream| then stream[..fate.sent] else stream;
        var o := Object(parent, name, false, kept);
        AddSound(s, o);
        var s1 := Add(s, o);
        ApplyValid(ph, s1, Delete(s.next));
        forall d | d != parent ensures Kids(Apply(ph, s1, Delete(s.next)).0, d) == Kids(s, d) {
          ApplyFrame(ph, s1, Delete(s.next), d);
        }
        assert s1.objects - {s.next} == s.objects;
      }
    }
  }
}
