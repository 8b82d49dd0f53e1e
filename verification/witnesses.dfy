/** Inputs on which the code falls short: phones made for the purpose, and the calls that go wrong. */
module Witnesses {
  import opened Wrappers
  import opened Names
  import Paths
  import FileIds
  import opened Phones
  import opened PlainActor
  import opened Staging
  import opened StagingSteps
  import opened ByteFiles
  import opened FileViews
  import opened Durability
  import opened AdapterFacts
  import opened Paging
  import opened DirLists
  import opened Adapter
  import Actor
  import Answers
  import Bundle
  import Pulling
  import PullPaths
  import RoundTrip
  import T = Transfer

  // ---------- some phones ----------

  /** Whether a phone deletes and renames, what it does with an upload, and the name of files it will
      not report. */
  datatype Temper = Temper(deletes: bool, renames: bool, upload: Bytes -> Fate, mum: string)

  function Lowered(s: string): string {
    seq(|s|, i requires 0 <= i < |s| => AsciiLower(s[i]))
  }

  function AsciiFolding(): (f: Folding)
    ensures forall s :: Fold(f, s) == f.lower(s) == Lowered(s)
  {
    var t := Tables(Lowered, s => s);
    assert LawfulTables(t);
    t
  }

  predicate IsLeast(s: set<Handle>, h: Handle) {
    h in s && forall k :: k in s ==> h <= k
  }

  lemma {:induction false} LeastExists(s: set<Handle>)
    requires s != {}
    ensures exists h :: IsLeast(s, h)
  {
    var h :| h in s;
    if s == {h} {
      assert IsLeast(s, h);
    } else {
      LeastExists(s - {h});
      var l :| IsLeast(s - {h}, l);
      assert forall k :: k in s ==> k == h || k in s - {h};
      assert IsLeast(s, if h <= l then h else l);
    }
  }

  function Least(s: set<Handle>): (h: Handle)
    requires s != {}
    ensures h in s
  {
    LeastExists(s);
    var h :| IsLeast(s, h); h
  }

  function Ascending(s: set<Handle>): (o: seq<Handle>)
    ensures forall h :: h in o <==> h in s
    ensures forall i, j :: 0 <= i < j < |o| ==> o[i] != o[j]
  {
    if s == {} then [] else var h := Least(s); [h] + Ascending(s - {h})
  }

  /** Listings in the order of handles. */
  function ByHandle(m: map<Handle, Object>): (o: seq<Handle>)
    ensures IsOrder(o, m)
  {
    Ascending(m.Keys)
  }

  /** Moves are allowed to the root only. */
  function Refusal(t: Temper): (Store, Op) -> Option<Error> {
    (s: Store, op: Op) =>
      match op
      case Delete(_) => if t.deletes then None else Some(AccessDenied)
      case Create(_, _) => None
      case Rename(_, _) => if t.renames then None else Some(AccessDenied)
      case Move(h, to) => if to == ROOT && ROOT !in s.objects && h != ROOT then None else Some(AccessDenied)
  }

  function Silence(t: Temper): (Store, Handle) -> Option<Error> {
    (s: Store, h: Handle) => if h in s.objects && s.objects[h].name == t.mum then Some(Mtp) else None
  }

  function PhoneOf(t: Temper): Phone {
    var b := Behaviour(AsciiFolding(), ByHandle, true, (s, d) => None, Silence(t), Refusal(t),
                       (s, p, n, size, data) => t.upload(data), (data, offset, count) => Ok(count), data => [|data|], data => None);
    assert LawfulPhone(b) by {
      NoMoveUnderItself(b, t);
    }
    b
  }

  lemma NoMoveUnderItself(b: Behaviour, t: Temper)
    requires b.refuse == Refusal(t)
    ensures forall s: Store, h, to :: b.refuse(s, Move(h, to)).None? ==> !Under(s.objects, to, h)
  {
    forall s: Store, h: Handle, to: Handle | b.refuse(s, Move(h, to)).None?
      ensures !Under(s.objects, to, h)
    {
      forall n: nat
        ensures !Reaches(s.objects, to, h, n)
      {
      }
    }
  }

  function AsciiChars(): Paths.Chars {
    Paths.Classes(c => c == ' ', c => c < ' ')
  }

  /** One storage. */
  function SetupOf(t: Temper): Setup {
    Setup(PhoneOf(t), AsciiChars(), [StorageRec(1, "Internal")])
  }

  const EMPTY: Store := Store(map[], 1)
  const TOP := StorageRoot(0)

  /** The kinds of phone used below. */
  function Takes(data: Bytes): Fate { Accepted }

  function Cuts(data: Bytes): Fate { Partial(0, Mtp) }

  /** Takes files but those of this one content. */
  function Spurns(bad: Bytes): Bytes -> Fate {
    data => if data == bad then Refused(StorageFull) else Accepted
  }

  lemma EmptyIsFine(su: Setup)
    ensures Valid(EMPTY) && DistinctKeys(su, 0, EMPTY)
  {
    assert Ranks(EMPTY.objects, map[]);
  }

  lemma AddedIsFine(su: Setup, s: Store, o: Object)
    requires Valid(s) && DistinctKeys(su, 0, s) && IsDirectory(s, o.parent) && (o.isDir ==> o.data == [])
    requires forall x :: x in s.objects ==> ObjKey(su, 0, s.objects[x]) != ObjKey(su, 0, o)
    ensures Valid(Add(s, o)) && DistinctKeys(su, 0, Add(s, o))
  {
    AddSound(s, o);
  }

  /** Two objects of one name, by the phone's own count. */
  ghost predicate Twins(su: Setup, dev: Dev, key: Key) {
    exists a, b :: a != b && Shows(su, dev, key, a) && Shows(su, dev, key, b)
  }

  lemma GoodName(name: string)
    requires name == "a" || name == "b"
    ensures NameOk(name)
  {
    assert name[0] in {'a', 'b'};
  }

  lemma NobodyHas(su: Setup, v: View, key: Key)
    requires v.staged == map[] && forall x :: !Shows(su, v.dev, key, x)
    ensures Unbound(su, v, key)
  {
  }

  lemma Deletes(t: Temper, s: Store, h: Handle)
    requires h in s.objects
    ensures !t.deletes ==> Apply(PhoneOf(t), s, Delete(h)).0 == s && Apply(PhoneOf(t), s, Delete(h)).1.Err?
    ensures t.deletes && Kids(s, h) == map[] ==>
        Apply(PhoneOf(t), s, Delete(h)).0 == Drop(s, h) && Apply(PhoneOf(t), s, Delete(h)).1.Ok?
  {
  }

  lemma Taken(t: Temper, s: Store, d: Handle, name: string, data: Bytes)
    requires name != t.mum
    ensures UploadTaken(PhoneOf(t), s, d, name, data) <==> IsDirectory(s, d) && t.upload(data).Accepted?
  {
  }

  lemma Character(t: Temper)
    ensures forall s :: Fold(PhoneOf(t).folding, s) == Lowered(s)
    ensures t.renames ==> forall s: Store, h, name :: PhoneOf(t).refuse(s, Rename(h, name)).None?
    ensures forall s: Store, h: Handle :: h in s.objects ==> (PhoneOf(t).informs(s, h).None? <==> s.objects[h].name != t.mum)
    ensures ListsAll(PhoneOf(t))
  {
  }

  // ---------- the adapter ----------

  /** A new file of one byte in the top directory of an empty phone, written and not committed. */
  method NewFile(t: Temper, data: Bytes) returns (nfs: MtpNfs, id: Id)
    requires data != []
    ensures fresh(nfs) && nfs.Ok() && nfs.su == SetupOf(t) && nfs.writable && nfs.link == Link(true, map[]) && id == Virtual(1) && id in nfs.known
    ensures nfs.dev == [EMPTY]
    ensures nfs.staged == map[id := Stage(0, TOP, "a", |data|, None, None, true)] && nfs.files == map[id := data]
  {
    hide Inv, AttrsOk, Durable, Does, Unseen, Valid, OneObject, Ages, Binds, Content;
    var su := SetupOf(t);
    EmptyIsFine(su);
    nfs := new MtpNfs(su, [EMPTY], true);
    NobodyHas(su, nfs.V(), KeyOf(su, TOP, "a"));
    GoodName("a");
    var made := nfs.CreateFile(TOP, "a", None);
    id := Virtual(1);
    assert made.Good? && made.value.0 == id;
    var written := nfs.Write(id, 0, data);
    assert written.Good?;
    assert Overwrite([], 0, data) == data;
    assert nfs.staged == map[id := Stage(0, TOP, "a", |data|, None, None, true)];
    assert nfs.files == map[id := data];
  }

  /** The same file, committed: it is the phone's object 1. */
  method CommittedFile(t: Temper, data: Bytes) returns (nfs: MtpNfs, id: Id)
    requires data != [] && t.upload(data).Accepted? && t.mum != "a"
    ensures fresh(nfs) && nfs.Ok() && nfs.su == SetupOf(t) && nfs.writable && nfs.link == Link(true, map[]) && id == Virtual(1) && id in nfs.known
    ensures nfs.dev == [Add(EMPTY, Object(ROOT, "a", false, data))]
    ensures nfs.staged == map[id := Stage(0, TOP, "a", |data|, None, Some(1), false)] && nfs.files == map[id := data]
  {
    hide Inv, AttrsOk, Durable, Does, Unseen, Valid, OneObject, Ages, Binds, Content, HoldsStage, FlushLeaves, PhoneCopy;
    nfs, id := NewFile(t, data);
    var committed := nfs.Commit(id);
    assert committed.Good? && nfs.Ok();
    assert nfs.dev == [Add(EMPTY, Object(ROOT, "a", false, data))];
    assert nfs.staged == map[id := Stage(0, TOP, "a", |data|, None, Some(1), false)];
  }

  /** The same file, written again. */
  method RewrittenFile(t: Temper, data: Bytes, more: Bytes) returns (nfs: MtpNfs, id: Id)
    requires |data| == |more| == 1 && t.upload(data).Accepted? && t.mum != "a"
    ensures fresh(nfs) && nfs.Ok() && nfs.su == SetupOf(t) && nfs.writable && nfs.link == Link(true, map[]) && id == Virtual(1)
    ensures nfs.V().dev == [Add(EMPTY, Object(ROOT, "a", false, data))]
    ensures nfs.V().staged == map[id := Stage(0, TOP, "a", 1, None, Some(1), true)] && nfs.V().files == map[id := more]
    ensures id in nfs.known && TOP in nfs.known
  {
    hide Inv, AttrsOk, Durable, Does, Unseen, Valid, OneObject, Ages, Binds, Content, HoldsStage, FlushLeaves, PhoneCopy,
      PhoneOf, UploadTaken;
    nfs, id := CommittedFile(t, data);
    var written := nfs.Write(id, 0, more);
    assert Overwrite(data, 0, more) == more;
  }

  /** A committed file under its two ids: LOOKUP gives the stage's, the phone shows its own, and that
      one cannot be staged beside it. */
  method TwoIds() returns (nfs: MtpNfs, found: Nfs<Id>)
    ensures fresh(nfs) && nfs.Ok() && found == Good(Virtual(1)) && Shows(nfs.su, nfs.dev, KeyOf(nfs.su, TOP, "a"), Real(0, 1))
    ensures var v, id, o := nfs.V(), Real(0, 1), Object(ROOT, "a", false, [1]);
            !Inv(nfs.su, WithStage(v.(known := v.known + {id}), id, PulledStage(0, 1, o), o.data))
  {
    hide Inv, AttrsOk, Durable, Does, Unseen, Valid, Binds, Content, PhoneOf;
    ghost var id;
    nfs, id := CommittedFile(Temper(true, true, Takes, ""), [1]);
    found := nfs.Lookup(TOP, "a");
    StagedBinds(nfs.su, nfs.V(), KeyOf(nfs.su, TOP, "a"), id);
    InvOf(nfs);
    BindsOnce(nfs.su, nfs.V(), KeyOf(nfs.su, TOP, "a"), id, found.value);
    ListedId(nfs.su, nfs.V(), 0, 1);
  }

  /** Its second flush, on a phone that takes every file and deletes none. */
  lemma KeptTwice(t: Temper, v: View)
    requires !t.deletes && t.upload([2]).Accepted? && t.mum != "a"
    requires v.dev == [Add(EMPTY, Object(ROOT, "a", false, [1]))] && v.files == map[Virtual(1) := [2]]
    requires v.staged == map[Virtual(1) := Stage(0, TOP, "a", 1, None, Some(1), true)]
    ensures var su := SetupOf(t);
            && !CopyGoes(su, v, Virtual(1)) && FlushTaken(su, v, Virtual(1))
            && AfterFlush(su, v, Virtual(1)) == Published(v, Virtual(1), 0, ROOT)
  {
    hide PhoneOf, UploadTaken, Valid;
    var su := SetupOf(t);
    Deletes(t, v.dev[0], 1);
    assert CopyDropped(su, v, Virtual(1), 0) == v;
    Taken(t, v.dev[0], ROOT, "a", [2]);
  }

  lemma TwoOfAName(t: Temper)
    ensures var su, a, b := SetupOf(t), Object(ROOT, "a", false, [1]), Object(ROOT, "a", false, [2]);
            Twins(su, [Add(Add(EMPTY, a), b)], KeyOf(su, TOP, "a"))
  {
    hide PhoneOf, Valid;
    var su, a, b := SetupOf(t), Object(ROOT, "a", false, [1]), Object(ROOT, "a", false, [2]);
    var dev, key := [Add(Add(EMPTY, a), b)], KeyOf(su, TOP, "a");
    assert Shows(su, dev, key, Real(0, 1)) && Shows(su, dev, key, Real(0, 2));
  }

  /** Written, committed, written and committed again on a phone that refuses to delete the first
      copy: both commits succeed, and the phone holds two files of the name. */
  method RecommitKeepsBoth() returns (nfs: MtpNfs, r: Nfs<Attr>)
    ensures fresh(nfs) && r.Good? && !nfs.Ok() && Twins(nfs.su, nfs.dev, KeyOf(nfs.su, TOP, "a"))
  {
    hide Inv, AttrsOk, Durable, Does, Unseen, Valid, OneObject, Ages, Binds, Content, HoldsStage, FlushLeaves, PhoneCopy,
      PhoneOf, UploadTaken, CopyGoes, FlushTaken, AfterFlush, CopyDropped, Twins;
    var t, id := Temper(false, true, Takes, ""), Virtual(1);
    nfs, id := RewrittenFile(t, [1], [2]);
    KeptTwice(t, nfs.V());
    TwoOfAName(t);
    r := nfs.Commit(id);
    assert nfs.dev == [Add(Add(EMPTY, Object(ROOT, "a", false, [1])), Object(ROOT, "a", false, [2]))];
  }

  /** An adapter over a phone that holds one thing. */
  method Holding(t: Temper, o: Object) returns (nfs: MtpNfs)
    requires o.parent == ROOT && (o.isDir ==> o.data == [])
    ensures fresh(nfs) && nfs.Ok() && nfs.su == SetupOf(t) && nfs.writable && nfs.link == Link(true, map[]) && TOP in nfs.known
    ensures nfs.dev == [Add(EMPTY, o)] && nfs.staged == map[] && nfs.files == map[] && nfs.lastVirtual == 0
  {
    hide Inv, AttrsOk, Durable, Valid, PhoneOf;
    var su := SetupOf(t);
    EmptyIsFine(su);
    AddedIsFine(su, EMPTY, o);
    nfs := new MtpNfs(su, [Add(EMPTY, o)], true);
  }

  /** CREATE of a name the phone holds, while the phone is away: an empty file in its place. */
  method BlindCreate() returns (nfs: MtpNfs, r: Nfs<(Id, Attr)>)
    ensures fresh(nfs) && r.Good? && !nfs.Ok()
    ensures var key := KeyOf(nfs.su, TOP, "a");
            && Shows(nfs.su, nfs.dev, key, Real(0, 1)) && nfs.dev[0].objects[1].data == [7]
            && Binds(nfs.su, nfs.V(), key, r.value.0) && Content(nfs.V(), r.value.0) == Some([])
  {
    hide Inv, AttrsOk, Durable, Does, Unseen, Valid, Readable, PhoneOf;
    nfs := Holding(Temper(true, true, Takes, ""), Object(ROOT, "a", false, [7]));
    nfs.Detach();
    ghost var key := KeyOf(nfs.su, TOP, "a");
    assert Shows(nfs.su, nfs.dev, key, Real(0, 1));
    assert Binds(nfs.su, nfs.V(), key, Real(0, 1));
    GoodName("a");
    r := nfs.CreateFile(TOP, "a", None);
    assert r.Good? && nfs.V().staged == map[Virtual(1) := Stage(0, TOP, "a", 0, None, None, true)];
    StagedBinds(nfs.su, nfs.V(), key, Virtual(1));
  }

  /** `mkdir` under a name that is taken, up to case. */
  method MkdirTwice() returns (nfs: MtpNfs, r: Nfs<(Id, Attr)>)
    ensures fresh(nfs) && r.Good? && !nfs.Ok() && Twins(nfs.su, nfs.dev, KeyOf(nfs.su, TOP, "a"))
  {
    hide Inv, AttrsOk, Durable, Does, Valid;
    nfs := Holding(Temper(true, true, Takes, ""), Object(ROOT, "A", true, []));
    ghost var key := KeyOf(nfs.su, TOP, "a");
    assert Lowered("A") == Lowered("a");
    assert Shows(nfs.su, nfs.dev, key, Real(0, 1));
    assert Binds(nfs.su, nfs.V(), key, Real(0, 1));
    r := nfs.Mkdir(TOP, "a");
    assert Shows(nfs.su, nfs.dev, key, Real(0, 1)) && Shows(nfs.su, nfs.dev, key, Real(0, 2));
  }

  lemma InvOf(nfs: MtpNfs)
    requires nfs.Ok()
    ensures Inv(nfs.su, nfs.V()) && |nfs.dev| == |nfs.su.storages|
  {
  }

  /** Two things in the top directory, of different names. */
  method HoldingTwo(t: Temper, o: Object, o2: Object) returns (nfs: MtpNfs)
    requires o.parent == ROOT && o2.parent == ROOT && (o.isDir ==> o.data == []) && (o2.isDir ==> o2.data == [])
    requires Lowered(o.name) != Lowered(o2.name)
    ensures fresh(nfs) && nfs.Ok() && nfs.su == SetupOf(t) && nfs.writable && nfs.link == Link(true, map[]) && TOP in nfs.known
    ensures nfs.dev == [Add(Add(EMPTY, o), o2)] && nfs.staged == map[] && nfs.files == map[] && nfs.lastVirtual == 0
  {
    hide Inv, AttrsOk, Durable, Valid;
    var su := SetupOf(t);
    EmptyIsFine(su);
    AddedIsFine(su, EMPTY, o);
    AddedIsFine(su, Add(EMPTY, o), o2);
    nfs := new MtpNfs(su, [Add(Add(EMPTY, o), o2)], true);
  }

  /** `rename` onto a name that is taken. */
  method RenameOntoTaken() returns (nfs: MtpNfs, r: Nfs<()>)
    ensures fresh(nfs) && r.Good? && !nfs.Ok() && Twins(nfs.su, nfs.dev, KeyOf(nfs.su, TOP, "b"))
  {
    hide Inv, AttrsOk, Durable, Does, Valid, Unseen, PhoneOf, PhoneRenames, RenamedDev, Content;
    var t, o, o2 := Temper(true, true, Takes, ""), Object(ROOT, "a", false, []), Object(ROOT, "b", false, []);
    assert Lowered("a")[0] != Lowered("b")[0];
    nfs := HoldingTwo(t, o, o2);
    Character(t);
    Relisted(nfs.su, nfs.dev, "a", 1, "b");
    assert Shows(nfs.su, nfs.dev, KeyOf(nfs.su, TOP, "b"), Real(0, 2));
    assert Binds(nfs.su, nfs.V(), KeyOf(nfs.su, TOP, "b"), Real(0, 2));
    ghost var moved;
    r, moved := nfs.Rename(TOP, "a", TOP, "b");
    assert Shows(nfs.su, nfs.dev, KeyOf(nfs.su, TOP, "b"), Real(0, 1));
    assert Shows(nfs.su, nfs.dev, KeyOf(nfs.su, TOP, "b"), Real(0, 2));
  }

  /** Renaming, within the top directory of a phone that renames, the one object of a name. */
  lemma Relisted(su: Setup, dev: Dev, name: string, h: Handle, toName: string)
    requires |dev| == 1 == |su.storages| && h in dev[0].objects && name != toName && su.phone.refuse(dev[0], Rename(h, toName)).None?
    requires forall x :: x in dev[0].objects && dev[0].objects[x].parent == ROOT ==>
        (Fold(su.phone.folding, dev[0].objects[x].name) == Fold(su.phone.folding, name) <==> x == h)
    requires dev[0].objects[h].parent == ROOT
    requires su.phone.informs(dev[0].(objects := dev[0].objects[h := dev[0].objects[h].(name := toName)]), h).None?
    ensures PhoneRenames(su, dev, TOP, name, TOP, toName)
    ensures RenamedDev(su, dev, TOP, name, TOP, toName) ==
        [dev[0].(objects := dev[0].objects[h := dev[0].objects[h].(name := toName)])]
  {
    hide Entries;
    assert Relocated(dev[0].objects[h], ROOT, name, toName) == dev[0].objects[h].(name := toName);
    assert Movable(su, dev, TOP, name, TOP, h);
    var es := Entries(su.phone, Kids(dev[0], ROOT));
    ChildIsListed(su.phone.folding, es, name);
    EntriesAreKids(su.phone, Kids(dev[0], ROOT), Describe(h, dev[0].objects[h]));
    var found := ChildByName(su.phone.folding, es, name);
    EntriesAreKids(su.phone, Kids(dev[0], ROOT), found.value);
    assert found.value.handle == h;
  }

  /** An upload that arrives whole and is not reported: COMMIT answers an error, and the phone has the
      file, which no stage stands for. */
  method UnreportedCopy() returns (nfs: MtpNfs, r: Nfs<Attr>)
    ensures fresh(nfs) && r.Bad? && !nfs.Ok() && Virtual(1) in nfs.staged && OnDevice(nfs.staged[Virtual(1)]).None?
    ensures nfs.dev == [Add(EMPTY, Object(ROOT, "a", false, [1]))]
  {
    hide Inv, AttrsOk, Durable, Does, Unseen, Valid, OneObject, Ages, Binds, Content, HoldsStage, PhoneCopy;
    var id;
    nfs, id := NewFile(Temper(true, true, Takes, "a"), [1]);
    assert CopyDropped(nfs.su, nfs.V(), id, 0) == nfs.V();
    assert Takes([1]) == Accepted;
    r := nfs.Commit(id);
  }

  /** CREATE of a name the phone holds, while the phone is there and refuses to list the directory. */
  method DeafCreate() returns (nfs: MtpNfs, r: Nfs<(Id, Attr)>)
    ensures fresh(nfs) && nfs.link.online && r.Good? && !nfs.Ok()
    ensures var key := KeyOf(nfs.su, TOP, "a");
            && Shows(nfs.su, nfs.dev, key, Real(0, 1)) && nfs.dev[0].objects[1].data == [7]
            && Binds(nfs.su, nfs.V(), key, r.value.0) && Content(nfs.V(), r.value.0) == Some([])
  {
    hide Inv, AttrsOk, Durable, Does, Unseen, Valid, Readable, PhoneOf;
    nfs := Holding(Temper(true, true, Takes, ""), Object(ROOT, "a", false, [7]));
    nfs.Meet(Link(true, map[(0, ROOT) := Timeout]));
    ghost var key := KeyOf(nfs.su, TOP, "a");
    assert Shows(nfs.su, nfs.dev, key, Real(0, 1));
    assert Binds(nfs.su, nfs.V(), key, Real(0, 1));
    GoodName("a");
    r := nfs.CreateFile(TOP, "a", None);
    assert r.Good? && nfs.V().staged == map[Virtual(1) := Stage(0, TOP, "a", 0, None, None, true)];
    StagedBinds(nfs.su, nfs.V(), key, Virtual(1));
  }

  /** A rename the phone carries out and does not report: an error, and the stage is left under the
      old name. */
  method UnreportedRename() returns (nfs: MtpNfs, r: Nfs<()>)
    ensures fresh(nfs) && r.Bad? && !nfs.Ok()
    ensures Shows(nfs.su, nfs.dev, KeyOf(nfs.su, TOP, "b"), Real(0, 1))
    ensures Virtual(1) in nfs.staged && StageKey(nfs.su, nfs.staged[Virtual(1)]) == KeyOf(nfs.su, TOP, "a")
  {
    hide Inv, AttrsOk, Durable, Does, Valid, Unseen, PhoneOf, PhoneRenames, PhoneHalfRenames, PhoneSilentlyRenames, RenamedDev,
      Content;
    var t, id := Temper(true, true, Takes, "b"), Virtual(1);
    nfs, id := CommittedFile(t, [1]);
    Character(t);
    assert Lowered("a")[0] != Lowered("b")[0];
    Muted(nfs.su, nfs.dev, "a", 1, "b");
    StagedBinds(nfs.su, nfs.V(), KeyOf(nfs.su, TOP, "a"), id);
    InvOf(nfs);
    BoundKind(nfs.su, nfs.V(), KeyOf(nfs.su, TOP, "a"), id);
    ghost var moved;
    r, moved := nfs.Rename(TOP, "a", TOP, "b");
  }

  /** Such a rename on the phone. */
  lemma Muted(su: Setup, dev: Dev, name: string, h: Handle, toName: string)
    requires |dev| == 1 == |su.storages| && h in dev[0].objects && name != toName && su.phone.refuse(dev[0], Rename(h, toName)).None?
    requires forall x :: x in dev[0].objects && dev[0].objects[x].parent == ROOT ==>
        (Fold(su.phone.folding, dev[0].objects[x].name) == Fold(su.phone.folding, name) <==> x == h)
    requires dev[0].objects[h].parent == ROOT
    requires su.phone.informs(dev[0].(objects := dev[0].objects[h := dev[0].objects[h].(name := toName)]), h).Some?
    ensures StrayName(su, dev, TOP, name, TOP, toName) == Some(toName)
    ensures RenamedDev(su, dev, TOP, name, TOP, toName) ==
        [dev[0].(objects := dev[0].objects[h := dev[0].objects[h].(name := toName)])]
  {
    hide Entries;
    assert Relocated(dev[0].objects[h], ROOT, name, toName) == dev[0].objects[h].(name := toName);
    assert Movable(su, dev, TOP, name, TOP, h);
    var es := Entries(su.phone, Kids(dev[0], ROOT));
    ChildIsListed(su.phone.folding, es, name);
    EntriesAreKids(su.phone, Kids(dev[0], ROOT), Describe(h, dev[0].objects[h]));
    var found := ChildByName(su.phone.folding, es, name);
    EntriesAreKids(su.phone, Kids(dev[0], ROOT), found.value);
    assert found.value.handle == h;
  }

  /** A file created "in" a file: CREATE succeeds, COMMIT cannot. */
  method FileInAFile() returns (nfs: MtpNfs, made: Nfs<(Id, Attr)>, r: Nfs<Attr>)
    ensures fresh(nfs) && nfs.Ok() && made.Good? && r.Bad?
  {
    hide Inv, AttrsOk, Durable, Does, Unseen, Valid, Content, PhoneOf, FlushTaken, FlushLeaves, AfterFlush, FailedFlush;
    nfs := Holding(Temper(true, true, Takes, ""), Object(ROOT, "a", false, [7]));
    assert Binds(nfs.su, nfs.V(), KeyOf(nfs.su, TOP, "a"), Real(0, 1)) && !Unbound(nfs.su, nfs.V(), KeyOf(nfs.su, TOP, "a"));
    var file := nfs.Lookup(TOP, "a");
    assert file == Good(Real(0, 1));
    NobodyHas(nfs.su, nfs.V(), KeyOf(nfs.su, Real(0, 1), "b"));
    GoodName("b");
    made := nfs.CreateFile(Real(0, 1), "b", None);
    assert made.Good? && nfs.staged == map[Virtual(1) := Stage(0, Real(0, 1), "b", 0, None, None, true)];
    NoFlushWithoutDirectory(nfs.su, nfs.V(), Virtual(1), 0, 1);
    r := nfs.Commit(Virtual(1));
  }

  /** An upload that is cut, on a phone that refuses to delete what arrived. */
  method CutUploadStays() returns (nfs: MtpNfs, r: Nfs<Attr>)
    ensures fresh(nfs) && r.Bad? && !nfs.Ok() && Shows(nfs.su, nfs.dev, KeyOf(nfs.su, TOP, "a"), Real(0, 1))
  {
    hide Inv, AttrsOk, Durable, Does, Unseen, Valid, OneObject, Ages, Binds, Content, HoldsStage, PhoneCopy;
    var id;
    nfs, id := NewFile(Temper(false, true, Cuts, ""), [1]);
    assert CopyDropped(nfs.su, nfs.V(), id, 0) == nfs.V();
    assert Cuts([1]) == Partial(0, Mtp);
    r := nfs.Commit(id);
  }

  /** An empty write past the end: GETATTR says five bytes, the file has one. */
  method EmptyWriteLies() returns (nfs: MtpNfs, id: Id, r: Nfs<Attr>)
    ensures fresh(nfs) && r == Good(Attr(false, 5)) && Content(nfs.V(), id) == Some([1]) && !nfs.Ok()
  {
    hide Inv, AttrsOk, Durable, Does, Unseen, Valid, Binds, PhoneOf;
    nfs, id := NewFile(Temper(true, true, Takes, ""), [1]);
    assert Content(nfs.V(), id) == Some([1]);
    var written := nfs.Write(id, 5, []);
    assert written.Good?;
    r := nfs.GetAttr(id);
  }

  /** The one file of such a phone. */
  lemma OneFile(v: View)
    requires v.dev == [Add(EMPTY, Object(ROOT, "a", false, [7]))] && v.staged == map[]
    ensures var su := SetupOf(Temper(true, true, Takes, ""));
            && Binds(su, v, KeyOf(su, TOP, "a"), Real(0, 1)) && !Unbound(su, v, KeyOf(su, TOP, "a"))
            && Content(v, Real(0, 1)) == Some([7]) && Readable(su, v, Link(true, map[]), Real(0, 1))
  {
    hide Valid;
    var su := SetupOf(Temper(true, true, Takes, ""));
    assert Shows(su, v.dev, KeyOf(su, TOP, "a"), Real(0, 1));
    assert Progressive(su.phone);
  }

  /** A file of the phone, looked up and written to. */
  method WrittenInPlace() returns (nfs: MtpNfs)
    ensures fresh(nfs) && nfs.Ok() && nfs.su == SetupOf(Temper(true, true, Takes, "")) && nfs.writable && nfs.link == Link(true, map[]) && TOP in nfs.known
    ensures PulledOnly(nfs.su, nfs.V(), KeyOf(nfs.su, TOP, "a"))
  {
    hide Inv, AttrsOk, Durable, Valid, Content, Readable, Shows, SameContentExcept, PhoneOf;
    nfs := Holding(Temper(true, true, Takes, ""), Object(ROOT, "a", false, [7]));
    ghost var key := KeyOf(nfs.su, TOP, "a");
    OneFile(nfs.V());
    var id := nfs.Lookup(TOP, "a");
    InvOf(nfs);
    OneFile(nfs.V());
    BindsOnce(nfs.su, nfs.V(), key, id.value, Real(0, 1));
    ghost var v := nfs.V();
    var written := nfs.Write(Real(0, 1), 0, [9]);
    assert Binds(nfs.su, nfs.V(), key, Real(0, 1));
    InvOf(nfs);
    BoundKind(nfs.su, nfs.V(), key, Real(0, 1));
  }

  /** A file of the phone, looked up and written to: it cannot be renamed. */
  method WrittenStaysPut() returns (nfs: MtpNfs, r: Nfs<()>)
    ensures fresh(nfs) && r == Bad(NoEnt) && nfs.Ok()
  {
    hide Inv, AttrsOk, Durable, PulledOnly, LocalOnly;
    nfs := WrittenInPlace();
    ghost var moved;
    r, moved := nfs.Rename(TOP, "a", TOP, "b");
  }

  /** A commit that deletes the old copy and then fails. */
  method FailedRecommit() returns (nfs: MtpNfs)
    ensures fresh(nfs) && nfs.Ok() && nfs.su == SetupOf(Temper(true, true, Spurns([2]), "")) && nfs.link == Link(true, map[]) && TOP in nfs.known
    ensures nfs.dev == [Store(map[], 2)]
    ensures nfs.writable && nfs.staged == map[Virtual(1) := Stage(0, TOP, "a", 1, None, Some(1), true)]
  {
    hide Inv, AttrsOk, Durable, Does, Unseen, Valid, OneObject, Ages, Binds, Content, HoldsStage, PhoneCopy, PhoneOf,
      UploadTaken, LeavesObject, Upload;
    var t, id := Temper(true, true, Spurns([2]), ""), Virtual(1);
    nfs, id := CommittedFile(t, [1]);
    var written := nfs.Write(id, 0, [2]);
    ghost var one := nfs.dev[0];
    assert Kids(one, 1) == map[];
    Deletes(t, one, 1);
    assert Overwrite([1], 0, [2]) == [2];
    assert nfs.V().staged[id] == Stage(0, TOP, "a", 1, None, Some(1), true) && nfs.V().files[id] == [2];
    Spurned(t, Drop(one, 1), ROOT, "a", [2]);
    assert Drop(one, 1) == Store(map[], 2);
    var committed := nfs.Commit(id);
    assert committed.Bad? && nfs.Ok();
  }

  /** Afterwards LOOKUP finds the file and READDIR does not show it. */
  method HiddenButThere() returns (nfs: MtpNfs, found: Nfs<Id>, page: Nfs<(seq<Child>, bool)>)
    ensures fresh(nfs) && nfs.Ok() && found == Good(Virtual(1)) && page.Good?
    ensures !Represented(nfs.su.phone.folding, Keys(nfs.su.phone.folding, page.value.0), "a")
  {
    hide Inv, AttrsOk, Durable, Unseen, Valid, Binds, Content, PhoneOf, ListingKeys, DirNames, Represented, DeviceChildren;
    nfs := FailedRecommit();
    ghost var id, key := Virtual(1), KeyOf(nfs.su, TOP, "a");
    found := nfs.Lookup(TOP, "a");
    StagedBinds(nfs.su, nfs.V(), key, id);
    InvOf(nfs);
    BindsOnce(nfs.su, nfs.V(), key, id, found.value);
    RootLists(nfs.su, nfs.dev);
    page := nfs.Readdir(TOP, 0, 100);
    NotShown(nfs.su, nfs.V());
    PagePart(nfs.su.phone.folding, DirNames(nfs.su, nfs.V(), TOP), 100, "a");
  }

  lemma RootLists(su: Setup, dev: Dev)
    requires |dev| == |su.storages| > 0
    ensures DeviceChildren(su, dev, TOP).Some?
  {
  }

  lemma NotShown(su: Setup, v: View)
    requires Inv(su, v) && TOP in v.known && su == SetupOf(Temper(true, true, Spurns([2]), "")) && v.dev == [Store(map[], 2)]
    requires v.staged == map[Virtual(1) := Stage(0, TOP, "a", 1, None, Some(1), true)]
    requires |v.dev| == |su.storages| && DeviceChildren(su, v.dev, TOP).Some?
    ensures !Represented(su.phone.folding, DirNames(su, v, TOP), "a")
  {
    hide Inv, Represented, DirNames, DeviceChildren;
    ListedIff(su, v, TOP, "a");
    assert Lowered("a") == "a";
  }

  lemma PagePart(f: Folding, all: seq<string>, limit: nat, name: string)
    requires !Represented(f, all, name)
    ensures !Represented(f, Page(all, 0, limit).0, name)
  {
  }

  /** Nor can REMOVE take it away: the phone no longer has what it would delete. */
  method StuckFile() returns (nfs: MtpNfs, r: Nfs<()>)
    ensures fresh(nfs) && r == Bad(NoEnt) && Virtual(1) in nfs.staged
  {
    hide Inv, AttrsOk, Durable, Does, Unseen, Valid, Binds, Content, PhoneOf, Deletable, Ages;
    nfs := FailedRecommit();
    assert CopyLost(nfs.su, nfs.V(), KeyOf(nfs.su, TOP, "a")) by {
      assert LostCopy(nfs.V(), Virtual(1));
    }
    ghost var gone;
    r, gone := nfs.Remove(TOP, "a");
  }

  lemma Spurned(t: Temper, s: Store, d: Handle, name: string, data: Bytes)
    requires t.upload(data).Refused? && IsDirectory(s, d)
    ensures !UploadTaken(PhoneOf(t), s, d, name, data) && !LeavesObject(PhoneOf(t), s, d, name, |data|, data)
    ensures UploadReport(PhoneOf(t), s, d, name, |data|, data).0 == s
  {
  }

  /** A new file in a directory, not published yet. */
  method FileInside(t: Temper) returns (nfs: MtpNfs)
    ensures fresh(nfs) && nfs.Ok() && nfs.su == SetupOf(t) && nfs.writable && nfs.link == Link(true, map[])
    ensures nfs.dev == [Add(EMPTY, Object(ROOT, "a", true, []))]
    ensures nfs.staged == map[Virtual(1) := Stage(0, Real(0, 1), "b", 0, None, None, true)]
    ensures {TOP, Real(0, 1), Virtual(1)} <= nfs.known
  {
    hide Inv, AttrsOk, Durable, Does, Unseen, Valid, Content, PhoneOf;
    nfs := Holding(t, Object(ROOT, "a", true, []));
    ghost var key := KeyOf(nfs.su, TOP, "a");
    assert Binds(nfs.su, nfs.V(), key, Real(0, 1)) && !Unbound(nfs.su, nfs.V(), key);
    var dir := nfs.Lookup(TOP, "a");
    assert dir == Good(Real(0, 1));
    NobodyHas(nfs.su, nfs.V(), KeyOf(nfs.su, Real(0, 1), "b"));
    GoodName("b");
    var made := nfs.CreateFile(Real(0, 1), "b", None);
    assert made.Good? && nfs.staged == map[Virtual(1) := Stage(0, Real(0, 1), "b", 0, None, None, true)];
  }

  /** A directory that shows nothing on the phone is removed, with a file in it that was never
      published: the file can be committed no more. */
  method OrphanedFile() returns (nfs: MtpNfs, removed: Nfs<()>, r: Nfs<Attr>)
    ensures fresh(nfs) && removed.Good? && r.Bad? && Virtual(1) in nfs.staged
  {
    hide Inv, AttrsOk, Durable, Unseen, Valid, OneObject, Ages, HoldsStage, PhoneCopy, LeavesObject, PhoneOf, Apply,
      FlushTaken, FlushLeaves, AfterFlush, FailedFlush, Content;
    var t := Temper(true, true, Takes, "");
    nfs := FileInside(t);
    assert Kids(nfs.dev[0], 1) == map[];
    Deletes(t, nfs.dev[0], 1);
    assert Binds(nfs.su, nfs.V(), KeyOf(nfs.su, TOP, "a"), Real(0, 1)) && Deletable(nfs.su, nfs.V(), nfs.link, TOP, Real(0, 1));
    ghost var gone;
    removed, gone := nfs.Remove(TOP, "a");
    assert removed.Good? && gone == Real(0, 1);
    NoFlushWithoutDirectory(nfs.su, nfs.V(), Virtual(1), 0, 1);
    r := nfs.Commit(Virtual(1));
  }

  /** A file of the phone in a directory, both looked up. */
  method HoldingInside(t: Temper) returns (nfs: MtpNfs)
    ensures fresh(nfs) && nfs.Ok() && nfs.su == SetupOf(t) && nfs.writable && nfs.link == Link(true, map[]) && {TOP, Real(0, 1)} <= nfs.known
    ensures nfs.dev == [Add(Add(EMPTY, Object(ROOT, "a", true, [])), Object(1, "b", false, [7]))] && nfs.staged == map[]
  {
    hide Inv, AttrsOk, Durable, Valid, Content;
    var dir, o := Object(ROOT, "a", true, []), Object(1, "b", false, [7]);
    var su := SetupOf(t);
    EmptyIsFine(su);
    AddedIsFine(su, EMPTY, dir);
    AddedIsFine(su, Add(EMPTY, dir), o);
    nfs := new MtpNfs(su, [Add(Add(EMPTY, dir), o)], true);
    assert Binds(su, nfs.V(), KeyOf(su, TOP, "a"), Real(0, 1));
    var found := nfs.Lookup(TOP, "a");
    assert found == Good(Real(0, 1));
  }

  /** A rename to another directory and another name, of which the phone accepts only the move: an
      error, and the file has gone. */
  method HalfRenamed() returns (nfs: MtpNfs, r: Nfs<()>)
    ensures fresh(nfs) && r.Bad? && Binds(nfs.su, nfs.V(), KeyOf(nfs.su, TOP, "b"), Real(0, 2))
    ensures Unbound(nfs.su, nfs.V(), KeyOf(nfs.su, Real(0, 1), "b"))
  {
    hide Inv, AttrsOk, Durable, Valid, PhoneOf, Content, RenamedDev, PhoneRenames, PhoneHalfRenames, PhoneSilentlyRenames, Unseen, Ages;
    var t := Temper(true, false, Takes, "");
    nfs := HoldingInside(t);
    ghost var from, to := KeyOf(nfs.su, Real(0, 1), "b"), KeyOf(nfs.su, TOP, "b");
    Character(t);
    assert Lowered("a")[0] != Lowered("b")[0];
    assert Shows(nfs.su, nfs.dev, from, Real(0, 2)) && Binds(nfs.su, nfs.V(), from, Real(0, 2));
    NobodyHas(nfs.su, nfs.V(), to);
    Stuck(t, nfs.dev, 2);
    ghost var moved;
    r, moved := nfs.Rename(Real(0, 1), "b", TOP, "c");
    assert moved == Real(0, 2);
  }

  lemma Stuck(t: Temper, dev: Dev, h: Handle)
    requires !t.renames && |dev| == 1 && Shows(SetupOf(t), dev, KeyOf(SetupOf(t), Real(0, 1), "b"), Real(0, h)) && h != ROOT && ROOT !in dev[0].objects
    ensures PhoneHalfRenames(SetupOf(t), dev, Real(0, 1), "b", TOP, "c")
  {
    assert Movable(SetupOf(t), dev, Real(0, 1), "b", TOP, h);
  }

  // ---------- the actor and the rest ----------

  /** An upload that is cut into a directory whose listing is cached: the cache no longer shows what
      the phone does. */
  method LeftoverUnlisted() returns (a: Actor.ActorState, r: Result<Entry>)
    ensures fresh(a) && r.Err? && !a.Inv()
  {
    hide Valid, PhoneOf, UploadReport, LeavesPart, Actor.CacheOk, ListsAll;
    var t := Temper(false, true, Cuts, "");
    var su := SetupOf(t);
    EmptyIsFine(su);
    a := new Actor.ActorState(su, [EMPTY]);
    Character(t);
    var listed := a.ChildrenOf(0, ROOT, false, {});
    assert listed.Ok?;
    assert Cuts([1]) == Partial(0, Mtp);
    CutOff(t, "a", [1]);
    r := a.UploadFile(0, ROOT, "a", 1, [1]);
  }

  lemma CutOff(t: Temper, name: string, data: Bytes)
    requires t.upload(data).Partial? && !t.deletes
    ensures LeavesPart(PhoneOf(t), EMPTY, ROOT, name, |data|, data) && UploadReport(PhoneOf(t), EMPTY, ROOT, name, |data|, data).1.Err?
  {
  }

  /** There was no destination, an old backup cannot be cleared, and the new tree cannot be moved
      in: the old backup becomes the destination. */
  method StaleBackup(d: Bundle.Destination) returns (ok: bool)
    requires d.dest.None? && d.backup.Some? && d.staging.Some?
    modifies d
    ensures !ok && d.dest == old(d.backup)
  {
    ok := d.Promote(false, true, false, true, true);
  }

  /** A path whose last component ends in a space does not survive printing. */
  lemma TrailingSpace()
    ensures var p := Paths.DevPath("Internal", ["a "]);
            Paths.WellFormed(AsciiChars(), p) && Paths.ParseSpec(AsciiChars(), Paths.DisplaySpec(p)) != Ok(p)
  {
    hide Paths.ParseSpec, Paths.DisplaySpec;
    var cs, p := AsciiChars(), Paths.DevPath("Internal", ["a "]);
    GoodParts(cs);
    Paths.ParseDisplay(cs, p);
  }

  lemma GoodParts(cs: Paths.Chars)
    requires cs == AsciiChars()
    ensures Paths.GoodPart(cs, "Internal") && Paths.GoodPart(cs, "a ")
  {
    assert Paths.TrimEnd(cs, "a ") == Paths.TrimEnd(cs, "a") == "a";
  }

  /** Storage 16384 is taken for a virtual id, and handle 2^48 of storage 0 for handle 0 of
      storage 1. */
  lemma TooWide()
    ensures FileIds.Decode(FileIds.EncodeReal(0x4000, 1)).None?
    ensures FileIds.Decode(FileIds.EncodeReal(0, 0x1_0000_0000_0000)) == Some(FileIds.Real(1, 0))
  {
  }

  // ---------- transfers ----------

  const INTERNAL := Paths.DevPath("Internal", [])

  function TwinFiles(): Dev {
    [Add(Add(EMPTY, Object(ROOT, "A", false, [1])), Object(ROOT, "a", false, [2]))]
  }

  lemma InternalIsThere(su: Setup, dev: Dev, t: Temper)
    requires su == SetupOf(t) && dev == TwinFiles()
    ensures RoundTrip.Place(su, dev, 0, INTERNAL, ROOT)
  {
    hide PhoneOf;
    Character(t);
    AddedIsValid(EMPTY, Object(ROOT, "A", false, [1]));
    AddedIsValid(Add(EMPTY, Object(ROOT, "A", false, [1])), Object(ROOT, "a", false, [2]));
    assert Paths.Components(INTERNAL) == ["Internal"];
  }

  lemma AddedIsValid(s: Store, o: Object)
    requires (s == EMPTY || Valid(s)) && o.parent == ROOT && !o.isDir
    ensures Valid(Add(s, o))
  {
    EmptyIsValid();
    AddSound(s, o);
  }

  lemma EmptyIsValid()
    ensures Valid(EMPTY)
  {
    assert Ranks(EMPTY.objects, map[]);
  }

  lemma {:induction false} AscendingRises(s: set<Handle>)
    ensures forall i, j :: 0 <= i < j < |Ascending(s)| ==> Ascending(s)[i] < Ascending(s)[j]
  {
    if s != {} {
      AscendingRises(s - {Least(s)});
      LeastIsLeast(s);
    }
  }

  lemma LeastIsLeast(s: set<Handle>)
    requires s != {}
    ensures IsLeast(s, Least(s))
  {
    LeastExists(s);
  }

  lemma SmallerFirst(m: map<Handle, Object>, a: Handle, b: Handle)
    requires a in m && b in m && a < b
    ensures Answers.Before(ByHandle(m), a, b)
  {
    hide Least, Ascending;
    var o := ByHandle(m);
    AscendingRises(m.Keys);
    assert a in o && b in o;
    var i :| 0 <= i < |o| && o[i] == a;
    var j :| 0 <= j < |o| && o[j] == b;
    assert i < j;
  }

  /** The phone lists "A" first, for either spelling. */
  lemma FirstTwin(ph: Phone, t: Temper, n: string)
    requires ph == PhoneOf(t) && (n == "A" || n == "a")
    ensures Answers.FirstChild(ph, TwinFiles()[0], ROOT, n, 1)
  {
    hide Valid, ByHandle, Answers.Before;
    var s := TwinFiles()[0];
    assert Kids(s, ROOT).Keys == {1, 2};
    SmallerFirst(Kids(s, ROOT), 1, 2);
    assert Lowered("A") == Lowered("a") == "a";
  }

  /** Two files of one name up to case: a pull gives the second the first one's bytes. */
  lemma TwinIsPulled()
    ensures var t := Temper(true, true, Takes, "");
            |TwinFiles()| == |SetupOf(t).storages| && TwinFiles()[0].objects[2] == Object(ROOT, "a", false, [2])
            && var (r, after) := T.Pull(SetupOf(t), TwinFiles(), Paths.DisplaySpec(INTERNAL), map[], 0);
               r.Ok? && "a" in after && after["a"] == T.Leaf([1])
  {
    hide PhoneOf, Paths.DisplaySpec, Paths.JoinDevice, T.Pull, T.FetchAt, RoundTrip.At, Pulling.Counted;
    var t := Temper(true, true, Takes, "");
    var su, dev := SetupOf(t), TwinFiles();
    var es := Entries(su.phone, Kids(dev[0], ROOT));
    var remote := Paths.DisplaySpec(INTERNAL);
    InternalIsThere(su, dev, t);
    RoundTrip.ListedAt(su, dev, 0, INTERNAL, ROOT);
    Pulling.PullIs(su, dev, remote, map[], 0);
    TwinsListed(su.phone, dev[0]);
    forall n | n == "A" || n == "a"
      ensures T.FetchAt(su, dev, Paths.JoinDevice(remote, n)) == Result.Ok([1])
    {
      TwinFetched(su, dev, t, n);
    }
    Pulling.PullableIs(su, dev, remote, map[], 0);
  }

  lemma TwinsListed(ph: Phone, s: Store)
    requires s == TwinFiles()[0]
    ensures var es := Entries(ph, Kids(s, ROOT));
            && (forall n :: !Pulling.Lists(es, n, true)) && (forall n :: Pulling.Lists(es, n, false) ==> n == "A" || n == "a")
            && Pulling.Lists(es, "a", false)
  {
    hide Entries;
    forall e
      ensures e in Entries(ph, Kids(s, ROOT)) <==> e == Entry(1, ROOT, "A", false, 1) || e == Entry(2, ROOT, "a", false, 1)
    {
      EntriesAreKids(ph, Kids(s, ROOT), e);
    }
    assert T.Safe("a") by {
      assert forall c :: c in "a" <==> c == 'a';
    }
    assert Entry(2, ROOT, "a", false, 1) in Entries(ph, Kids(s, ROOT));
  }

  lemma TwinFetched(su: Setup, dev: Dev, t: Temper, n: string)
    requires t == Temper(true, true, Takes, "") && su == SetupOf(t) && dev == TwinFiles() && (n == "A" || n == "a")
    ensures T.FetchAt(su, dev, Paths.JoinDevice(Paths.DisplaySpec(INTERNAL), n)) == Result.Ok([1])
  {
    hide Paths.DisplaySpec, Paths.JoinDevice, T.FetchAt, RoundTrip.At, Valid, Answers.FirstChild;
    InternalIsThere(su, dev, t);
    FirstTwin(su.phone, t, n);
    assert Sum([1]) == 1 by {
      assert [1][..0] == [];
    }
    assert n[0] in {'A', 'a'};
    PullPaths.FetchIs(su, dev, 0, INTERNAL, ROOT, n, 1);
  }
}
