/** Runs of the NFS adapter: any sequence of calls, the link changing between them.

    A session remembers, for the proof only, every view and every event since it began. What its
    calls answer and publish is what replaying those events says. */
module Sessions {
  import opened Wrappers
  import opened Names
  import opened Phones
  import opened PlainActor
  import opened Staging
  import opened ByteFiles
  import opened FileViews
  import opened Durability
  import opened AdapterFacts
  import opened Paging
  import opened DirLists
  import opened FileCalls
  import opened Adapter

  method Ask(nfs: MtpNfs, c: Call) returns (r: Nfs<Answer>, ghost e: Event)
    requires nfs.Ok() && Fair(nfs.su, nfs.V(), nfs.link, nfs.writable, c) && Asks(c)
    modifies nfs
    ensures nfs.Ok() && nfs.link == old(nfs.link)
    ensures Settles(nfs.su, old(nfs.V()), nfs.link, nfs.writable, c, r, e, nfs.V())
  {
    hide Inv, AttrsOk, Durable, Shows, Binds, SameNamesExcept, SameContentExcept, Unbound, Unseen, Content, Does,
      Ages, Progressive, DirNames, DeviceChildren, Page, Reads;
    e := Quiet;
    SameIsUnseen(nfs.su, nfs.V());
    SameAge(nfs.dev);
    match c {
      case DoLookup(dir, name) =>
        var a := nfs.Lookup(dir, name);
        BoundBefore(nfs.su, old(nfs.V()), nfs.V(), KeyOf(nfs.su, dir, name), if a.Good? then a.value else dir);
        r := if a.Good? then Good(Named(a.value)) else Bad(a.status);
      case DoGetAttr(id) =>
        if id !in nfs.staged && Content(nfs.V(), id).Some? {
          UnstagedFile(nfs.V(), id);
        }
        var a := nfs.GetAttr(id);
        r := if a.Good? then Good(Described(a.value)) else Bad(a.status);
      case DoRead(id, offset, count) =>
        var a := nfs.Read(id, offset, count);
        r := if a.Good? then Good(Data(a.value.0, a.value.1)) else Bad(a.status);
      case DoReaddir(dir, startAfter, maxEntries) =>
        var a := nfs.Readdir(dir, startAfter, maxEntries);
        r := if a.Good? then Good(Listed(Keys(nfs.su.phone.folding, a.value.0), a.value.1)) else Bad(a.status);
    }
    if Unseen(nfs.su, old(nfs.V()), nfs.V()) {
      UnseenIsQuiet(nfs.su, old(nfs.V()), nfs.V());
    }
  }

  method Create(nfs: MtpNfs, c: Call) returns (r: Nfs<Answer>, ghost e: Event)
    requires nfs.Ok() && Fair(nfs.su, nfs.V(), nfs.link, nfs.writable, c) && c.DoCreate?
    modifies nfs
    ensures nfs.Ok() && nfs.link == old(nfs.link)
    ensures Settles(nfs.su, old(nfs.V()), nfs.link, nfs.writable, c, r, e, nfs.V())
  {
    hide Inv, AttrsOk, Durable, Shows, Binds, SameNamesExcept, SameContentExcept, Unbound, Unseen, Content, Does,
      Ages, StagedUnder, Creatable, PhoneCreates, Blind;
    e := Quiet;
    SameIsUnseen(nfs.su, nfs.V());
    SameAge(nfs.dev);
    match c {
      case DoCreate(dir, name, length) =>
        var a := nfs.CreateFile(dir, name, length);
        if a.Good? {
          e := if Unbound(nfs.su, old(nfs.V()), KeyOf(nfs.su, dir, name))
               then Made(KeyOf(nfs.su, dir, name), a.value.0, Some(Zeros(SizeOr0(length))))
               else match length case Some(n) => Resized(a.value.0, n) case None => Quiet;
          StagedContent(nfs.su, nfs.V(), a.value.0);
          if Misplaces(nfs.su, old(nfs.V()), c) {
            NoDirectoryAstray(nfs.su, nfs.V(), a.value.0);
          }
        }
        r := if a.Good? then Good(NamedFile(a.value.0, a.value.1)) else Bad(a.status);
    }
    if Unseen(nfs.su, old(nfs.V()), nfs.V()) {
      UnseenIsQuiet(nfs.su, old(nfs.V()), nfs.V());
    }
  }

  method MakeFresh(nfs: MtpNfs, c: Call) returns (r: Nfs<Answer>, ghost e: Event)
    requires nfs.Ok() && Fair(nfs.su, nfs.V(), nfs.link, nfs.writable, c) && (c.DoCreateExclusive? || c.DoMkdir?)
    modifies nfs
    ensures nfs.Ok() && nfs.link == old(nfs.link)
    ensures Settles(nfs.su, old(nfs.V()), nfs.link, nfs.writable, c, r, e, nfs.V())
  {
    hide Inv, AttrsOk, Durable, Shows, Binds, SameNamesExcept, SameContentExcept, Unbound, Unseen, Content, Does,
      Ages, StagedUnder, Creatable, PhoneCreates, Blind;
    e := Quiet;
    SameIsUnseen(nfs.su, nfs.V());
    SameAge(nfs.dev);
    match c {
      case DoCreateExclusive(dir, name) =>
        var a := nfs.CreateExclusive(dir, name);
        e := if a.Good? then Made(KeyOf(nfs.su, dir, name), a.value, Some([])) else Quiet;
        if a.Good? {
          MadeBinds(nfs.su, old(nfs.V()), KeyOf(nfs.su, dir, name), a.value, nfs.V());
          if Misplaces(nfs.su, old(nfs.V()), c) {
            NoDirectoryAstray(nfs.su, nfs.V(), a.value);
          }
        }
        r := if a.Good? then Good(Named(a.value)) else Bad(a.status);
      case DoMkdir(dir, name) =>
        var a := nfs.Mkdir(dir, name);
        e := if a.Good? then Made(KeyOf(nfs.su, dir, name), a.value.0, None) else Quiet;
        r := if a.Good? then Good(NamedFile(a.value.0, a.value.1)) else Bad(a.status);
    }
    if Unseen(nfs.su, old(nfs.V()), nfs.V()) {
      UnseenIsQuiet(nfs.su, old(nfs.V()), nfs.V());
    }
  }

  method Unmake(nfs: MtpNfs, c: Call) returns (r: Nfs<Answer>, ghost e: Event)
    requires nfs.Ok() && Fair(nfs.su, nfs.V(), nfs.link, nfs.writable, c) && Unmakes(c)
    modifies nfs
    ensures nfs.Ok() && nfs.link == old(nfs.link)
    ensures Settles(nfs.su, old(nfs.V()), nfs.link, nfs.writable, c, r, e, nfs.V())
  {
    hide Inv, AttrsOk, Durable, Shows, Binds, SameNamesExcept, SameContentExcept, Unbound, Unseen, Content, Does,
      Ages, StagedUnder, NewPlace, Deletable, RenameGoes, RenameStrays;
    e := Quiet;
    SameIsUnseen(nfs.su, nfs.V());
    SameAge(nfs.dev);
    match c {
      case DoRemove(dir, name) =>
        var a, gone := nfs.Remove(dir, name);
        e := if a.Good? then Removed(KeyOf(nfs.su, dir, name), gone) else Quiet;
        r := if a.Good? then Good(Done) else Bad(a.status);
      case DoRename(dir, name, to, toName) =>
        var a, moved := nfs.Rename(dir, name, to, toName);
        if a.Good? {
          e := Renamed(KeyOf(nfs.su, dir, name), KeyOf(nfs.su, to, toName), moved);
          if Misplaces(nfs.su, old(nfs.V()), c) {
            LocalIsDirty(old(nfs.V()), moved);
            NoDirectoryAstray(nfs.su, nfs.V(), moved);
          }
        } else {
          ghost var stray := RenameStrays(nfs.su, old(nfs.V()), nfs.link, nfs.writable, dir, name, to, toName);
          if stray.Some? {
            e := Renamed(KeyOf(nfs.su, dir, name), KeyOf(nfs.su, to, stray.value), moved);
          }
        }
        r := if a.Good? then Good(Done) else Bad(a.status);
    }
    if Unseen(nfs.su, old(nfs.V()), nfs.V()) {
      UnseenIsQuiet(nfs.su, old(nfs.V()), nfs.V());
    }
  }

  method Edit(nfs: MtpNfs, c: Call) returns (r: Nfs<Answer>, ghost e: Event)
    requires nfs.Ok() && Fair(nfs.su, nfs.V(), nfs.link, nfs.writable, c) && Edits(c)
    modifies nfs
    ensures nfs.Ok() && nfs.link == old(nfs.link)
    ensures Settles(nfs.su, old(nfs.V()), nfs.link, nfs.writable, c, r, e, nfs.V())
  {
    hide Inv, AttrsOk, Durable, Shows, Binds, SameNamesExcept, SameContentExcept, Unbound, Unseen, Content, Does,
      Ages, CopyGoes, OneObject, HoldsStage, FlushTaken, FlushLeaves, PhoneCopy, Progressive;
    e := Quiet;
    SameIsUnseen(nfs.su, nfs.V());
    SameAge(nfs.dev);
    match c {
      case DoWrite(id, offset, data) =>
        var a := nfs.Write(id, offset, data);
        e := if a.Good? then Wrote(id, offset, data) else Quiet;
        r := if a.Good? then Good(Written(a.value)) else Bad(a.status);
      case DoTruncate(id, size) =>
        var a := nfs.SetAttr(id, Some(size));
        e := if a.Good? then Resized(id, size) else Quiet;
        r := if a.Good? then Good(Described(a.value)) else Bad(a.status);
      case DoCommit(id) =>
        var a := nfs.Commit(id);
        r := if a.Good? then Good(Described(a.value)) else Bad(a.status);
    }
    if Unseen(nfs.su, old(nfs.V()), nfs.V()) {
      UnseenIsQuiet(nfs.su, old(nfs.V()), nfs.V());
    }
  }

  /** Every call is one step of an ordinary file system of byte arrays, and answers as one. */
  method Perform(nfs: MtpNfs, c: Call) returns (r: Nfs<Answer>, ghost e: Event)
    requires nfs.Ok() && Fair(nfs.su, nfs.V(), nfs.link, nfs.writable, c)
    modifies nfs
    ensures nfs.Ok() && nfs.link == old(nfs.link)
    ensures Settles(nfs.su, old(nfs.V()), nfs.link, nfs.writable, c, r, e, nfs.V())
  {
    hide Inv, AttrsOk, Durable, Fair, Settles;
    if Asks(c) {
      r, e := Ask(nfs, c);
    } else if c.DoCreate? {
      r, e := Create(nfs, c);
    } else if c.DoCreateExclusive? || c.DoMkdir? {
      r, e := MakeFresh(nfs, c);
    } else if Unmakes(c) {
      r, e := Unmake(nfs, c);
    } else {
      r, e := Edit(nfs, c);
    }
  }

  /** And only those do: any other call that goes through to it breaks the invariant. A write does
      when the bytes of its file can be had. */
  method PerformUnfairly(nfs: MtpNfs, c: Call)
    requires nfs.Ok() && GivenIds(nfs.V(), c) && !Fair(nfs.su, nfs.V(), nfs.link, nfs.writable, c)
    requires c.DoWrite? ==> nfs.writable && Readable(nfs.su, nfs.V(), nfs.link, c.id)
    modifies nfs
    ensures !nfs.Ok()
  {
    hide Inv, AttrsOk, Durable, Shows, Binds, SameNamesExcept, SameContentExcept, StagedUnder, Unbound, Unseen, Content, Does,
      Ages, NewPlace, RenameGoes, RenameStrays, CopyGoes, FlushTaken, FlushLeaves, PhoneCopy, Blind, HoldsStage, OneObject;
    match c {
      case DoWrite(id, offset, data) =>
        var a := nfs.Write(id, offset, data);
      case DoCreate(dir, name, length) =>
        var a := nfs.CreateFile(dir, name, length);
      case DoCreateExclusive(dir, name) =>
        var a := nfs.CreateExclusive(dir, name);
      case DoMkdir(dir, name) =>
        var a := nfs.Mkdir(dir, name);
      case DoRename(dir, name, to, toName) =>
        var a, moved := nfs.Rename(dir, name, to, toName);
      case DoCommit(id) =>
        CleanIsNotFlushed(nfs.su, nfs.V(), id);
        if FlushLeaves(nfs.su, nfs.V(), id) {
          LeavesOrTakes(nfs.su, nfs.V(), id);
        }
        var a := nfs.Commit(id);
    }
  }

  /** What an answer says about the run so far, from its `k`-th view on: names and bytes are those
      the run's events make of what was there, and a committed file is on the phone. */
  ghost predicate TellsTheRun(su: Setup, views: seq<View>, events: seq<Event>, k: nat, c: Call, a: Answer, w: View)
    requires k <= |events| && |views| == |events| + 1
  {
    match c
    case DoLookup(dir, name) =>
      var key := KeyOf(su, dir, name);
      a.Named? && (!dir.DeviceRoot? ==>
        forall bound :: NameIs(su, views[k], key, bound) ==> NameAfter(key, bound, events[k..]) == Some(a.id))
    case DoGetAttr(id) =>
      var bytes := BytesAfter(id, Content(views[k], id), events[k..]);
      a.Described? && (Has(views, events, k, id) && bytes.Some? ==> a.attr == Attr(false, |bytes.value|))
    case DoRead(id, offset, count) =>
      var bytes := BytesAfter(id, Content(views[k], id), events[k..]);
      a.Data? && (Has(views, events, k, id) ==> bytes.Some? && Reads(bytes.value, offset, count, a.data, a.eof))
    case DoCommit(id) =>
      Has(views, events, k, id) ==> PhoneCopy(w, id) == BytesAfter(id, Content(views[k], id), events[k..])
    case _ => true
  }

  lemma AnswersTellTheRun(su: Setup, views: seq<View>, events: seq<Event>, k: nat, c: Call, a: Answer, e: Event, w: View)
    requires |views| == |events| + 1 && Trace(su, views, events) && k <= |events| && Inv(su, views[|events|])
    requires Means(su, views[|events|], c, a, e, w) && Does(su, views[|events|], e, w)
    ensures TellsTheRun(su, views, events, k, c, a, w)
  {
    hide Inv, Trace, Binds, Content, PhoneCopy, Reads, DirNames, NameIs, NameAfter, BytesAfter, Has;
    match c {
      case DoLookup(dir, name) =>
        var key := KeyOf(su, dir, name);
        forall bound | !dir.DeviceRoot? && NameIs(su, views[k], key, bound)
          ensures NameAfter(key, bound, events[k..]) == Some(a.id)
        {
          NamesSince(su, views, events, k, key, bound);
          BoundToOne(su, views[|events|], key, NameAfter(key, bound, events[k..]), a.id);
        }
      case DoGetAttr(id) => LastBytes(su, views, events, k, id, w);
      case DoRead(id, _, _) => LastBytes(su, views, events, k, id, w);
      case DoCommit(id) => LastBytes(su, views, events, k, id, w);
      case _ =>
    }
  }

  lemma BoundToOne(su: Setup, v: View, key: Key, bound: Option<Id>, id: Id)
    requires NameIs(su, v, key, bound) && Binds(su, v, key, id)
    ensures bound == Some(id)
  {
    hide Binds;
  }

  /** A quiet call leaves the bytes the run made. */
  lemma LastBytes(su: Setup, views: seq<View>, events: seq<Event>, k: nat, id: Id, w: View)
    requires Trace(su, views, events) && k <= |events| && Does(su, views[|events|], Quiet, w)
    ensures Has(views, events, k, id) ==>
        && Content(views[|events|], id) == BytesAfter(id, Content(views[k], id), events[k..])
        && Content(w, id) == Content(views[|events|], id)
  {
    hide Binds, Content;
    if Has(views, events, k, id) {
      BytesSince(su, views, events, k, id);
      KnownAtLast(su, views, events, k, id);
    }
  }

  lemma KnownAtLast(su: Setup, views: seq<View>, events: seq<Event>, k: nat, id: Id)
    requires Trace(su, views, events) && k <= |events| && Has(views, events, k, id)
    ensures id in views[|events|].known
  {
    hide Does, Content;
    TraceSince(su, views, events, k);
    BytesAreReplayed(su, views[k..], events[k..], id);
  }

  class Session {
    const nfs: MtpNfs
    ghost var views: seq<View>
    ghost var events: seq<Event>

    /** The history is one of calls, it ends in the present, and the phone has only aged since. */
    ghost predicate Valid()
      reads this, nfs
    {
      && nfs.Ok() && Trace(nfs.su, views, events) && views[|events|] == nfs.V()
      && forall k :: 0 <= k < |views| ==> Ages(views[k].dev, nfs.dev)
    }

    constructor (su: Setup, dev: Dev, writable: bool)
      requires |dev| == |su.storages| && AllValid(dev) && forall i :: 0 <= i < |dev| ==> DistinctKeys(su, i, dev[i])
      ensures Valid() && fresh(nfs) && nfs.su == su && nfs.dev == dev && nfs.writable == writable && events == []
    {
      nfs := new MtpNfs(su, dev, writable);
      new;
      views, events := [nfs.V()], [];
      SameAge(nfs.dev);
    }

    /** Any call after any run: the session goes on, and the answer tells the run. */
    method Do(c: Call) returns (r: Nfs<Answer>)
      requires Valid() && Fair(nfs.su, nfs.V(), nfs.link, nfs.writable, c)
      modifies this`views, this`events, nfs
      ensures Valid() && nfs.link == old(nfs.link)
      ensures |events| == |old(events)| + 1 && old(events) <= events && old(views) <= views
      ensures r.Good? ==> Means(nfs.su, old(nfs.V()), c, r.value, events[|old(events)|], nfs.V())
      ensures r.Good? && Misplaces(nfs.su, old(nfs.V()), c) ==> IsAstray(nfs.su, events[|old(events)|], nfs.V())
      ensures r.Good? ==> forall k :: 0 <= k <= |old(events)| ==>
          TellsTheRun(nfs.su, old(views), old(events), k, c, r.value, nfs.V())
      ensures r.Bad? ==>
          && MeansFailure(nfs.su, old(nfs.V()), nfs.link, nfs.writable, c, events[|old(events)|])
          && MayFail(nfs.su, old(nfs.V()), nfs.link, nfs.writable, c)
    {
      hide Inv, AttrsOk, Durable, Does, Means, MayFail, MeansFailure, Fair, Ages, TellsTheRun;
      ghost var e: Event;
      InvOf(nfs);
      r, e := Perform(nfs, c);
      if r.Good? {
        forall k | 0 <= k <= |events|
          ensures TellsTheRun(nfs.su, views, events, k, c, r.value, nfs.V())
        {
          AnswersTellTheRun(nfs.su, views, events, k, c, r.value, e, nfs.V());
        }
      }
      TraceGrows(nfs.su, views, events, e, nfs.V());
      AllAge(views, old(nfs.dev), nfs.dev);
      SameAge(nfs.dev);
      views, events := views + [nfs.V()], events + [e];
    }

    /** The phone goes and comes back. */
    method Unplug()
      requires Valid()
      modifies nfs
      ensures Valid() && nfs.link == Link(false, map[]) && nfs.V() == old(nfs.V())
    {
      hide Inv, AttrsOk, Durable, Does, Ages;
      nfs.Detach();
    }

    method Plug()
      requires Valid()
      modifies nfs
      ensures Valid() && nfs.link == Link(true, map[]) && nfs.V() == old(nfs.V())
    {
      hide Inv, AttrsOk, Durable, Does, Ages;
      nfs.Attach();
    }

    /** And it may refuse to list directories for a while, or stop refusing. */
    method Meet(now: Link)
      requires Valid()
      modifies nfs
      ensures Valid() && nfs.link == now && nfs.V() == old(nfs.V())
    {
      hide Inv, AttrsOk, Durable, Does, Ages;
      nfs.Meet(now);
    }

    /** After any run, reading a file to its end gives what the run's writes and truncations made
        of it, wherever in the run the client came by it. */
    method WholeFile(id: Id, counts: nat -> nat) returns (bytes: Bytes)
      requires Valid() && id in nfs.known && Content(nfs.V(), id).Some?
      requires Readable(nfs.su, nfs.V(), nfs.link, id)
      requires forall k :: 0 < counts(k)
      ensures forall k :: 0 <= k <= |events| && Has(views, events, k, id) ==>
          BytesAfter(id, Content(views[k], id), events[k..]) == Some(bytes)
    {
      hide Inv, AttrsOk, Durable, Does, Content, Progressive, Ages, Has;
      bytes := nfs.ReadWhole(id, counts);
      forall k | 0 <= k <= |events| && Has(views, events, k, id)
        ensures BytesAfter(id, Content(views[k], id), events[k..]) == Some(bytes)
      {
        BytesSince(nfs.su, views, events, k, id);
      }
    }

    /** A file whose directory was gone at some point of the run can never be published there: the
        directory does not come back under its handle. */
    lemma OrphansStay(k: nat, id: Id)
      requires Valid() && k < |views| && id in nfs.staged && DirOf(nfs.staged[id].parent).Some?
      requires var (p, d) := DirOf(nfs.staged[id].parent).value;
               p < |views[k].dev| && d < views[k].dev[p].next && !IsDirectory(views[k].dev[p], d)
      ensures !FlushTaken(nfs.su, nfs.V(), id)
    {
      hide Inv, AttrsOk, Durable, Does, Ages;
      var (p, d) := DirOf(nfs.staged[id].parent).value;
      assert Ages(views[k].dev, nfs.dev);
      GoneForGood(views[k].dev, nfs.dev, p, d);
      AgesCounts(views[k].dev, nfs.dev);
      NoFlushWithoutDirectory(nfs.su, nfs.V(), id, p, d);
    }
  }

  lemma InvOf(nfs: MtpNfs)
    requires nfs.Ok()
    ensures Inv(nfs.su, nfs.V())
  {
  }

  lemma AllAge(views: seq<View>, before: Dev, after: Dev)
    requires (forall k :: 0 <= k < |views| ==> Ages(views[k].dev, before)) && Ages(before, after)
    ensures forall k :: 0 <= k < |views| ==> Ages(views[k].dev, after)
  {
    hide Ages;
    forall k | 0 <= k < |views|
      ensures Ages(views[k].dev, after)
    {
      AgesOn(views[k].dev, before, after);
    }
  }

  lemma AgesCounts(before: Dev, after: Dev)
    requires Ages(before, after)
    ensures |before| == |after|
  {
  }
}
