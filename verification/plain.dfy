/** The actor without its cache: each request of `crates/core/src/actor.rs` answered straight
    from the device. This is the meaning the cached actor is proved against.

    Listings here are what the phone holds. That a phone may refuse to list is the business of
    whoever has to ask it: the cached actor asks only when it has no fresh listing. */
module PlainActor {
  import opened Wrappers
  import opened Names
  import opened Paths
  import opened Phones

  datatype StorageRec = StorageRec(id: nat, description: string)

  datatype Setup = Setup(phone: Phone, chars: Chars, storages: seq<StorageRec>)

  /** One store per storage, in the actor's storage order. */
  type Dev = seq<Store>

  ghost predicate AllValid(dev: Dev) {
    forall i :: 0 <= i < |dev| ==> Valid(dev[i])
  }

  datatype Resolved = Resolved(storageIndex: nat, handle: Handle, entry: Entry)

  // ---------- addressing a storage ----------

  function Position(f: Folding, storages: seq<StorageRec>, reference: string): Option<nat> {
    if storages == [] then None
    else if Fold(f, storages[0].description) == Fold(f, reference) then Some(0)
    else
      match Position(f, storages[1..], reference)
      case None => None
      case Some(i) => Some(i + 1)
  }

  predicate IsDigit(c: char) {
    '0' <= c <= '9'
  }

  function DigitsValue(s: string): nat
    requires forall i :: 0 <= i < |s| ==> IsDigit(s[i])
  {
    if s == "" then 0 else assert IsDigit(s[|s| - 1]); 10 * DigitsValue(s[..|s| - 1]) + (s[|s| - 1] as int - '0' as int)
  }

  /** A number as the standard library prints it. */
  function Decimal(n: nat): string {
    if n < 10 then [('0' as int + n) as char] else Decimal(n / 10) + [('0' as int + n % 10) as char]
  }

  /** `str::parse::<usize>`, which accepts one leading plus sign. */
  function ParseIndex(s: string): Option<nat> {
    ParseDigits(if s != "" && s[0] == '+' then s[1..] else s)
  }

  function ParseDigits(s: string): Option<nat> {
    if s != "" && forall i :: 0 <= i < |s| ==> IsDigit(s[i]) then Some(DigitsValue(s)) else None
  }

  function FindStorageIndex(su: Setup, reference: string): (r: Result<nat>)
    ensures r.Ok? ==> r.value < |su.storages|
  {
    match PositionBounded(su.phone.folding, su.storages, reference)
    case Some(i) => Ok(i)
    case None =>
      match ParseIndex(reference)
      case Some(n) => if 1 <= n <= |su.storages| then Ok(n - 1) else Err(NotFound)
      case None => Err(NotFound)
  }

  function PositionBounded(f: Folding, storages: seq<StorageRec>, reference: string): (r: Option<nat>)
    ensures r.Some? ==> r.value < |storages|
  {
    PositionInRange(f, storages, reference);
    Position(f, storages, reference)
  }

  lemma PositionInRange(f: Folding, storages: seq<StorageRec>, reference: string)
    ensures Position(f, storages, reference).Some? ==> Position(f, storages, reference).value < |storages|
  {
  }

  // ---------- walking ----------

  function ChildByName(f: Folding, entries: seq<Entry>, seg: string): Option<Entry> {
    if entries == [] then None
    else if Fold(f, entries[0].name) == Fold(f, seg) then Some(entries[0])
    else ChildByName(f, entries[1..], seg)
  }

  /** Follows `segs` from `cur`, one listing per segment. */
  function Walk(ph: Phone, s: Store, cur: Handle, segs: seq<string>, dirsOnly: bool): Result<Handle>
    decreases |segs|
  {
    if segs == [] then Ok(cur)
    else
      var entries :- ListObjects(ph, s, cur);
      match ChildByName(ph.folding, entries, segs[0])
      case None => Err(NotFound)
      case Some(e) => if dirsOnly && !e.isDir then Err(WrongKind) else Walk(ph, s, e.handle, segs[1..], dirsOnly)
  }

  function WalkToParent(ph: Phone, s: Store, p: DevPath): Result<Handle> {
    Walk(ph, s, ROOT, if p.segments == [] then [] else p.segments[..|p.segments| - 1], false)
  }

  function RootEntry(su: Setup, idx: nat): Entry
    requires idx < |su.storages|
  {
    Entry(ROOT, 0, su.storages[idx].description, true, 0)
  }

  function Resolve(su: Setup, dev: Dev, raw: string): Result<Resolved>
    requires |dev| == |su.storages|
  {
    var p :- ParseSpec(su.chars, raw);
    if p.IsRoot() then Err(InvalidArgument)
    else
      var idx :- FindStorageIndex(su, p.storageRef);
      if p.segments == [] then Ok(Resolved(idx, ROOT, RootEntry(su, idx)))
      else
        var cur :- Walk(su.phone, dev[idx], ROOT, p.segments, false);
        var e :- AskInfo(su.phone, dev[idx], cur);
        Ok(Resolved(idx, cur, e))
  }

  /** The device root lists the storages under synthetic handles. */
  function StorageEntries(su: Setup): seq<Entry> {
    seq(|su.storages|, i requires 0 <= i < |su.storages| =>
      Entry(if i <= 0xFFFF_FFFF then 0xFFFF_FFFF - i else 0, 0, su.storages[i].description, true, 0))
  }

  function List(su: Setup, dev: Dev, raw: string): Result<seq<Entry>>
    requires |dev| == |su.storages|
  {
    var p :- ParseSpec(su.chars, raw);
    if p.IsRoot() then Ok(StorageEntries(su))
    else
      var idx :- FindStorageIndex(su, p.storageRef);
      var cur :- Walk(su.phone, dev[idx], ROOT, p.segments, true);
      ListObjects(su.phone, dev[idx], cur)
  }

  // ---------- creating directories ----------

  /** Creates one directory per segment, each inside the previous one. */
  function CreateAll(ph: Phone, s: Store, cur: Handle, segs: seq<string>): (Store, Result<Handle>)
    decreases |segs|
  {
    if segs == [] then (s, Ok(cur))
    else
      var (s1, r) := Apply(ph, s, Create(cur, segs[0]));
      if r.Err? then (s1, r) else CreateAll(ph, s1, r.value, segs[1..])
  }

  /** Follows what exists, then creates the rest. */
  function MkdirWalk(ph: Phone, s: Store, cur: Handle, segs: seq<string>): (Store, Result<Handle>)
    decreases |segs|
  {
    if segs == [] then (s, Ok(cur))
    else
      match ListObjects(ph, s, cur)
      case Err(e) => (s, Err(e))
      case Ok(entries) =>
        match ChildByName(ph.folding, entries, segs[0])
        case None => CreateAll(ph, s, cur, segs)
        case Some(e) => if e.isDir then MkdirWalk(ph, s, e.handle, segs[1..]) else (s, Err(WrongKind))
  }

  function LastOr(segs: seq<string>): string {
    if segs == [] then "" else segs[|segs| - 1]
  }

  function MkdirAll(su: Setup, dev: Dev, raw: string): (Dev, Result<Entry>)
    requires |dev| == |su.storages|
  {
    match ParseSpec(su.chars, raw)
    case Err(e) => (dev, Err(e))
    case Ok(p) =>
      if p.IsRoot() then (dev, Err(InvalidArgument))
      else
        match FindStorageIndex(su, p.storageRef)
        case Err(e) => (dev, Err(e))
        case Ok(idx) =>
          var (s, r) := MkdirWalk(su.phone, dev[idx], ROOT, p.segments);
          (dev[idx := s], if r.Err? then Err(r.error) else Ok(Entry(r.value, 0, LastOr(p.segments), true, 0)))
  }

  // ---------- removing ----------

  /** Deletes everything below `d`, then `d`; stops at the first refusal. */
  ghost function DeleteTree(ph: Phone, s: Store, rank: map<Handle, nat>, d: Handle): (out: (Store, Result<nat>))
    requires Ranks(s.objects, rank) && d in rank
    ensures Ranks(out.0.objects, rank)
    decreases rank[d], 1, 0
  {
    match ListObjects(ph, s, d)
    case Err(e) => (s, Err(e))
    case Ok(entries) =>
      BelowRank(ph, s, rank, d);
      var (s1, r) := DeleteEntries(ph, s, rank, rank[d], entries);
      if r.Err? then (s1, r)
      else
        var (s2, gone) := Apply(ph, s1, Delete(d));
        RanksAfterDelete(ph, s1, rank, d);
        (s2, if gone.Err? then Err(gone.error) else Ok(r.value + 1))
  }

  ghost function DeleteEntries(ph: Phone, s: Store, rank: map<Handle, nat>, level: nat, entries: seq<Entry>): (out: (Store, Result<nat>))
    requires Ranks(s.objects, rank)
    requires forall e :: e in entries ==> e.handle in rank && rank[e.handle] < level
    ensures Ranks(out.0.objects, rank)
    decreases level, 0, |entries|
  {
    if entries == [] then (s, Ok(0))
    else
      var (s1, r) := DeleteEntry(ph, s, rank, entries[0]);
      if r.Err? then (s1, r)
      else
        var (s2, rest) := DeleteEntries(ph, s1, rank, level, entries[1..]);
        (s2, if rest.Err? then rest else Ok(r.value + rest.value))
  }

  ghost function DeleteEntry(ph: Phone, s: Store, rank: map<Handle, nat>, e: Entry): (out: (Store, Result<nat>))
    requires Ranks(s.objects, rank) && e.handle in rank
    ensures Ranks(out.0.objects, rank)
    decreases rank[e.handle], 2, 0
  {
    if e.isDir then DeleteTree(ph, s, rank, e.handle)
    else
      var (s1, gone) := Apply(ph, s, Delete(e.handle));
      RanksAfterDelete(ph, s, rank, e.handle);
      (s1, if gone.Err? then Err(gone.error) else Ok(1))
  }

  lemma BelowRank(ph: Phone, s: Store, rank: map<Handle, nat>, d: Handle)
    requires Ranks(s.objects, rank) && d in rank && ListObjects(ph, s, d).Ok?
    ensures forall e :: e in ListObjects(ph, s, d).value ==>
        e.handle in s.objects && s.objects[e.handle].parent == d && rank[e.handle] < rank[d]
    ensures forall e :: e in ListObjects(ph, s, d).value ==> e.isDir == s.objects[e.handle].isDir
  {
    forall e | e in ListObjects(ph, s, d).value
      ensures e.handle in s.objects && s.objects[e.handle].parent == d && e.isDir == s.objects[e.handle].isDir
    {
      EntriesAreKids(ph, Kids(s, d), e);
    }
    forall e | e in ListObjects(ph, s, d).value
      ensures rank[e.handle] < rank[d]
    {
      assert Ranked(s.objects, rank, e.handle);
    }
  }

  lemma RanksAfterDelete(ph: Phone, s: Store, rank: map<Handle, nat>, h: Handle)
    requires Ranks(s.objects, rank)
    ensures Ranks(Apply(ph, s, Delete(h)).0.objects, rank)
  {
    var t := Apply(ph, s, Delete(h)).0;
    forall x | x in t.objects
      ensures Ranked(t.objects, rank, x)
    {
      assert Ranked(s.objects, rank, x);
      assert s.objects[x].parent == h ==> x in Kids(s, h);
    }
  }

  ghost function Remove(su: Setup, dev: Dev, raw: string, recursive: bool): (Dev, Result<nat>)
    requires |dev| == |su.storages| && AllValid(dev)
  {
    match ParseSpec(su.chars, raw)
    case Err(e) => (dev, Err(e))
    case Ok(p) =>
      if p.IsRoot() || p.segments == [] then (dev, Err(InvalidArgument))
      else
        match FindStorageIndex(su, p.storageRef)
        case Err(e) => (dev, Err(e))
        case Ok(idx) =>
          var (s, r) := RemoveAt(su.phone, dev[idx], p, recursive);
          (dev[idx := s], r)
  }

  function FindTarget(ph: Phone, s: Store, p: DevPath): Result<(Handle, Entry)> {
    var parent :- WalkToParent(ph, s, p);
    var entries :- ListObjects(ph, s, parent);
    match ChildByName(ph.folding, entries, LastOr(p.segments))
    case None => Err(NotFound)
    case Some(e) => Ok((parent, e))
  }

  /** The first entry of the name, or there is none. */
  lemma {:induction false} ChildIsFirst(f: Folding, entries: seq<Entry>, seg: string)
    ensures match ChildByName(f, entries, seg)
            case Some(e) => exists i :: 0 <= i < |entries| && entries[i] == e && FirstOf(f, entries, seg, i)
            case None => forall i :: 0 <= i < |entries| ==> Fold(f, entries[i].name) != Fold(f, seg)
  {
    if entries != [] && Fold(f, entries[0].name) != Fold(f, seg) {
      ChildIsFirst(f, entries[1..], seg);
      var r := ChildByName(f, entries, seg);
      if r.Some? {
        var i :| 0 <= i < |entries[1..]| && entries[1..][i] == r.value && FirstOf(f, entries[1..], seg, i);
        assert FirstOf(f, entries, seg, i + 1) by {
          assert forall j :: 0 < j <= i + 1 ==> entries[j] == entries[1..][j - 1];
        }
      } else {
        assert forall j :: 0 < j < |entries| ==> entries[j] == entries[1..][j - 1];
      }
    } else if entries != [] {
      assert FirstOf(f, entries, seg, 0);
    }
  }

  ghost predicate FirstOf(f: Folding, entries: seq<Entry>, seg: string, i: nat)
    requires i < |entries|
  {
    Fold(f, entries[i].name) == Fold(f, seg) && forall j :: 0 <= j < i ==> Fold(f, entries[j].name) != Fold(f, seg)
  }

  lemma {:induction false} ChildIsListed(f: Folding, entries: seq<Entry>, seg: string)
    ensures ChildByName(f, entries, seg).Some? ==>
        ChildByName(f, entries, seg).value in entries && Fold(f, ChildByName(f, entries, seg).value.name) == Fold(f, seg)
    ensures ChildByName(f, entries, seg).None? ==> forall e :: e in entries ==> Fold(f, e.name) != Fold(f, seg)
  {
    if entries != [] {
      ChildIsListed(f, entries[1..], seg);
      assert entries == [entries[0]] + entries[1..];
    }
  }

  lemma TargetIsKid(ph: Phone, s: Store, p: DevPath)
    requires FindTarget(ph, s, p).Ok?
    ensures var (parent, e) := FindTarget(ph, s, p).value;
            && e.handle in Kids(s, parent) && e == Describe(e.handle, s.objects[e.handle])
            && ListObjects(ph, s, parent).Ok?
  {
    var (parent, e) := FindTarget(ph, s, p).value;
    ChildIsListed(ph.folding, Entries(ph, Kids(s, parent)), LastOr(p.segments));
    EntriesAreKids(ph, Kids(s, parent), e);
  }

  ghost function SomeRank(objects: map<Handle, Object>): (rank: map<Handle, nat>)
    requires Forest(objects)
    ensures Ranks(objects, rank)
  {
    var rank :| Ranks(objects, rank); rank
  }

  ghost function RemoveAt(ph: Phone, s: Store, p: DevPath, recursive: bool): (Store, Result<nat>)
    requires Valid(s)
  {
    match FindTarget(ph, s, p)
    case Err(e) => (s, Err(e))
    case Ok((parent, target)) =>
      TargetIsKid(ph, s, p);
      if target.isDir then
        if !recursive then (s, Err(WrongKind)) else DeleteTree(ph, s, SomeRank(s.objects), target.handle)
      else
        var (t, gone) := Apply(ph, s, Delete(target.handle));
        (t, if gone.Err? then Err(gone.error) else Ok(1))
  }

  // ---------- renaming and moving ----------

  function RenameHandle(su: Setup, dev: Dev, idx: nat, fromParent: Handle, fromName: string, toParent: Handle,
      toName: string): (Dev, Result<Entry>)
    requires |dev| == |su.storages|
  {
    if idx >= |su.storages| then (dev, Err(InvalidArgument))
    else
      match ListObjects(su.phone, dev[idx], fromParent)
      case Err(e) => (dev, Err(e))
      case Ok(entries) =>
        match ChildByName(su.phone.folding, entries, fromName)
        case None => (dev, Err(NotFound))
        case Some(src) =>
          var (s, r) := Relocate(su.phone, dev[idx], src.handle, fromParent, toParent, fromName, toName);
          (dev[idx := s], r)
  }

  /** Move when the directory changes, rename when the name changes, then report. */
  function Relocate(ph: Phone, s: Store, h: Handle, fromParent: Handle, toParent: Handle, fromName: string,
      toName: string): (Store, Result<Entry>) {
    var (s1, moved) := if fromParent != toParent then Apply(ph, s, Move(h, toParent)) else (s, Ok(h));
    if moved.Err? then (s1, Err(moved.error))
    else
      var (s2, named) := if fromName != toName then Apply(ph, s1, Rename(h, toName)) else (s1, Ok(h));
      if named.Err? then (s2, Err(named.error)) else (s2, AskInfo(ph, s2, h))
  }

  function RenamePath(su: Setup, dev: Dev, raw: string, newName: string): (Dev, Result<Entry>)
    requires |dev| == |su.storages|
  {
    match ParseSpec(su.chars, raw)
    case Err(e) => (dev, Err(e))
    case Ok(p) =>
      if p.IsRoot() || p.segments == [] then (dev, Err(InvalidArgument))
      else if '/' in newName then (dev, Err(InvalidArgument))
      else
        match FindStorageIndex(su, p.storageRef)
        case Err(e) => (dev, Err(e))
        case Ok(idx) =>
          match FindTarget(su.phone, dev[idx], p)
          case Err(e) => (dev, Err(e))
          case Ok((parent, target)) =>
            var (s, r) := Apply(su.phone, dev[idx], Rename(target.handle, newName));
            (dev[idx := s], if r.Err? then Err(r.error) else AskInfo(su.phone, s, target.handle))
  }

  function MoveInto(su: Setup, dev: Dev, srcRaw: string, dstRaw: string): (Dev, Result<Entry>)
    requires |dev| == |su.storages|
  {
    var parsed := ParseSpec(su.chars, srcRaw);
    var parsedDst := ParseSpec(su.chars, dstRaw);
    if parsed.Err? then (dev, Err(parsed.error))
    else if parsedDst.Err? then (dev, Err(parsedDst.error))
    else
      var src, dst := parsed.value, parsedDst.value;
      if src.IsRoot() || dst.IsRoot() || src.segments == [] || dst.segments == [] then (dev, Err(InvalidArgument))
      else
        var i, j := FindStorageIndex(su, src.storageRef), FindStorageIndex(su, dst.storageRef);
        if i.Err? then (dev, Err(i.error))
        else if j.Err? then (dev, Err(j.error))
        else if i.value != j.value then (dev, Err(InvalidArgument))
        else
          match FindTarget(su.phone, dev[i.value], src)
          case Err(e) => (dev, Err(e))
          case Ok((parent, target)) =>
            match Resolve(su, dev, dstRaw)
            case Err(e) => (dev, Err(e))
            case Ok(dir) =>
              if !dir.entry.isDir then (dev, Err(WrongKind))
              else
                var (s, r) := Apply(su.phone, dev[i.value], Move(target.handle, dir.handle));
                (dev[i.value := s], if r.Err? then Err(r.error) else AskInfo(su.phone, s, target.handle))
  }

  // ---------- transfers ----------

  function UploadInto(su: Setup, dev: Dev, idx: nat, parent: Handle, name: string, size: nat, stream: Bytes): (Dev, Result<Entry>)
    requires |dev| == |su.storages|
  {
    if idx >= |su.storages| then (dev, Err(InvalidArgument))
    else
      var (s, r) := UploadReport(su.phone, dev[idx], parent, name, size, stream);
      (dev[idx := s], r)
  }

  /** The bytes a download leaves in the writer; a stream that breaks or ends early is an error. */
  function Download(su: Setup, dev: Dev, target: Resolved): Result<Bytes>
    requires |dev| == |su.storages|
  {
    if target.storageIndex >= |su.storages| then Err(InvalidArgument)
    else
      var s := dev[target.storageIndex];
      if target.handle !in s.objects then Err(StaleHandle)
      else if s.objects[target.handle].isDir then Err(WrongKind)
      else
        var data := s.objects[target.handle].data;
        if su.phone.breaks(data).Some? then Err(su.phone.breaks(data).value)
        else if |Delivered(su.phone, data)| == |data| then Ok(data)
        else Err(Mtp)
  }

  function MakeDir(su: Setup, dev: Dev, idx: nat, parent: Handle, name: string): (Dev, Result<Entry>)
    requires |dev| == |su.storages|
  {
    if idx >= |su.storages| then (dev, Err(InvalidArgument))
    else
      var (s, r) := Apply(su.phone, dev[idx], Create(parent, name));
      (dev[idx := s], if r.Err? then Err(r.error) else Ok(Entry(r.value, parent, name, true, 0)))
  }

  function DeleteHandle(su: Setup, dev: Dev, idx: nat, h: Handle): (Dev, Result<()>)
    requires |dev| == |su.storages|
  {
    if idx >= |su.storages| then (dev, Err(InvalidArgument))
    else
      var (s, r) := Apply(su.phone, dev[idx], Delete(h));
      (dev[idx := s], if r.Err? then Err(r.error) else Ok(()))
  }

  function ListHandle(su: Setup, dev: Dev, idx: nat, dir: Handle): Result<seq<Entry>>
    requires |dev| == |su.storages|
  {
    if idx >= |su.storages| then Err(InvalidArgument) else ListObjects(su.phone, dev[idx], dir)
  }

  function InfoHandle(su: Setup, dev: Dev, idx: nat, h: Handle): Result<Entry>
    requires |dev| == |su.storages|
  {
    if idx >= |su.storages| then Err(InvalidArgument) else AskInfo(su.phone, dev[idx], h)
  }

  function ReadHandle(su: Setup, dev: Dev, idx: nat, h: Handle, offset: nat, count: nat): Result<Bytes>
    requires |dev| == |su.storages|
  {
    if idx >= |su.storages| then Err(InvalidArgument) else ReadRange(su.phone, dev[idx], h, offset, count)
  }
}
