/** An ordinary file system of byte arrays, and runs of it: the meaning of the NFS adapter's calls.

    An event is what one call did to the names and bytes a client can see. `Trace` is any sequence
    of calls; `NameAfter` and `BytesAfter` replay the events on a name and on a byte array. The
    calls themselves and their answers are in `FileCalls`, runs of the adapter in `Sessions`. */
module FileViews {
  import opened Wrappers
  import opened Names
  import opened Phones
  import opened PlainActor
  import opened Staging
  import opened ByteFiles

  datatype Event =
    | Quiet
    | Wrote(id: Id, offset: nat, data: Bytes)
    | Resized(id: Id, size: nat)
    | Made(key: Key, id: Id, bytes: Option<Bytes>)
    | Removed(key: Key, id: Id)
    | Renamed(key: Key, to: Key, id: Id)

  /** Event `e` leads from the view `v` to the view `w`. */
  ghost predicate Does(su: Setup, v: View, e: Event, w: View) {
    && v.known <= w.known
    && match e
       case Quiet => Unseen(su, v, w)
       case Wrote(id, offset, data) =>
         && Content(v, id).Some? && Content(w, id) == Some(Overwrite(Content(v, id).value, offset, data))
         && SameNamesExcept(su, v, w, {}) && SameContentExcept(v, w, {id})
       case Resized(id, size) =>
         && Content(v, id).Some? && Content(w, id) == Some(Resize(Content(v, id).value, size))
         && SameNamesExcept(su, v, w, {}) && SameContentExcept(v, w, {id})
       case Made(key, id, bytes) =>
         && Unbound(su, v, key) && id !in v.known && id in w.known
         && Only(su, w, key, id) && Content(w, id) == bytes
         && SameNamesExcept(su, v, w, {key}) && SameContentExcept(v, w, {id})
       case Removed(key, id) =>
         && Binds(su, v, key, id) && Unbound(su, w, key) && Content(w, id).None?
         && SameNamesExcept(su, v, w, {key}) && SameContentExcept(v, w, {id})
       case Renamed(key, to, id) =>
         && Binds(su, v, key, id) && Only(su, w, to, id) && (key != to ==> Unbound(su, v, to) && Unbound(su, w, key))
         && SameNamesExcept(su, v, w, {key, to}) && SameContentExcept(v, w, {})
  }

  ghost predicate Only(su: Setup, v: View, key: Key, id: Id) {
    forall a :: Binds(su, v, key, a) <==> a == id
  }

  ghost predicate Trace(su: Setup, views: seq<View>, events: seq<Event>) {
    && |views| == |events| + 1
    && forall k :: 0 <= k < |events| ==> Does(su, views[k], events[k], views[k + 1])
  }

  function NameAfter(key: Key, bound: Option<Id>, events: seq<Event>): Option<Id> {
    if events == [] then bound
    else
      var before := NameAfter(key, bound, events[..|events| - 1]);
      match events[|events| - 1]
      case Made(k, id, _) => if k == key then Some(id) else before
      case Removed(k, _) => if k == key then None else before
      case Renamed(from, to, id) => if to == key then Some(id) else if from == key then None else before
      case _ => before
  }

  function BytesAfter(id: Id, bytes: Option<Bytes>, events: seq<Event>): Option<Bytes> {
    if events == [] then bytes
    else
      var before := BytesAfter(id, bytes, events[..|events| - 1]);
      match events[|events| - 1]
      case Wrote(x, offset, data) => if x == id && before.Some? then Some(Overwrite(before.value, offset, data)) else before
      case Resized(x, size) => if x == id && before.Some? then Some(Resize(before.value, size)) else before
      case Made(_, x, b) => if x == id then b else before
      case Removed(_, x) => if x == id then None else before
      case _ => before
  }

  ghost predicate NameIs(su: Setup, v: View, key: Key, bound: Option<Id>) {
    match bound
    case None => Unbound(su, v, key)
    case Some(id) => Only(su, v, key, id)
  }

  /** Names: however many stages, flushes and re-uploads lie behind a run, every name is bound to
      what the creations, removals and renames of the run make of it. */
  lemma {:induction false} NamesAreReplayed(su: Setup, views: seq<View>, events: seq<Event>, key: Key, bound: Option<Id>)
    requires Trace(su, views, events) && NameIs(su, views[0], key, bound)
    ensures NameIs(su, views[|events|], key, NameAfter(key, bound, events))
  {
    hide Binds;
    if events != [] {
      var n := |events| - 1;
      NamesAreReplayed(su, views[..n + 1], events[..n], key, bound);
      assert Does(su, views[n], events[n], views[n + 1]);
    }
  }

  /** The run creates the file. */
  ghost predicate MadeIn(events: seq<Event>, id: Id) {
    exists k :: 0 <= k < |events| && events[k].Made? && events[k].id == id
  }

  /** Bytes: a file a client has at the start of the run, or creates in the run, shows what an
      ordinary byte array shows after the run's writes and truncations of it. */
  lemma {:induction false} BytesAreReplayed(su: Setup, views: seq<View>, events: seq<Event>, id: Id)
    requires Trace(su, views, events) && (id in views[0].known || MadeIn(events, id))
    ensures Content(views[|events|], id) == BytesAfter(id, Content(views[0], id), events)
    ensures id in views[|events|].known
  {
    hide Binds, Content;
    if events != [] {
      var n := |events| - 1;
      assert Does(su, views[n], events[n], views[n + 1]);
      if !(events[n].Made? && events[n].id == id) {
        assert MadeIn(events, id) ==> MadeIn(events[..n], id) by {
          assert forall k :: 0 <= k < n ==> events[k] == events[..n][k];
        }
        BytesAreReplayed(su, views[..n + 1], events[..n], id);
      }
    }
  }

  /** Counting from the view `k` on: a client has the file there, having looked it up or been given
      it, or creates it later. */
  ghost predicate Has(views: seq<View>, events: seq<Event>, k: nat, id: Id)
    requires k <= |events| && |views| == |events| + 1
  {
    id in views[k].known || MadeIn(events[k..], id)
  }

  /** The same from any point of a run on. */
  lemma BytesSince(su: Setup, views: seq<View>, events: seq<Event>, k: nat, id: Id)
    requires Trace(su, views, events) && k <= |events| && Has(views, events, k, id)
    ensures Content(views[|events|], id) == BytesAfter(id, Content(views[k], id), events[k..])
  {
    hide Does, Content;
    TraceSince(su, views, events, k);
    BytesAreReplayed(su, views[k..], events[k..], id);
  }

  lemma NamesSince(su: Setup, views: seq<View>, events: seq<Event>, k: nat, key: Key, bound: Option<Id>)
    requires Trace(su, views, events) && k <= |events| && NameIs(su, views[k], key, bound)
    ensures NameIs(su, views[|events|], key, NameAfter(key, bound, events[k..]))
  {
    hide Does, NameIs;
    TraceSince(su, views, events, k);
    NamesAreReplayed(su, views[k..], events[k..], key, bound);
  }

  lemma TraceSince(su: Setup, views: seq<View>, events: seq<Event>, k: nat)
    requires Trace(su, views, events) && k <= |events|
    ensures Trace(su, views[k..], events[k..]) && views[k..][0] == views[k] && views[k..][|events[k..]|] == views[|events|]
  {
    hide Does;
    forall j | 0 <= j < |events[k..]|
      ensures Does(su, views[k..][j], events[k..][j], views[k..][j + 1])
    {
      assert Does(su, views[k + j], events[k + j], views[k + j + 1]);
    }
  }

  /** One more call. */
  lemma TraceGrows(su: Setup, views: seq<View>, events: seq<Event>, e: Event, w: View)
    requires Trace(su, views, events) && Does(su, views[|events|], e, w)
    ensures Trace(su, views + [w], events + [e])
  {
    hide Does;
    forall j | 0 <= j < |events + [e]|
      ensures Does(su, (views + [w])[j], (events + [e])[j], (views + [w])[j + 1])
    {
      if j < |events| {
        assert Does(su, views[j], events[j], views[j + 1]);
      }
    }
  }

  // ---------- putting events together ----------

  lemma SameIsUnseen(su: Setup, v: View)
    ensures Unseen(su, v, v)
  {
  }

  lemma UnseenTwice(su: Setup, u: View, v: View, w: View)
    requires Unseen(su, u, v) && Unseen(su, v, w)
    ensures Unseen(su, u, w)
  {
    hide Binds;
  }

  /** What cannot be seen may come first. */
  lemma QuietThen(su: Setup, u: View, v: View, e: Event, w: View)
    requires Unseen(su, u, v) && Does(su, v, e, w)
    requires match e
             case Wrote(id, _, _) => id in u.known || Content(u, id) == Content(v, id)
             case Resized(id, _) => id in u.known || Content(u, id) == Content(v, id)
             case _ => true
    ensures Does(su, u, e, w)
  {
    hide Binds, Content;
  }

  lemma ThenQuiet(su: Setup, u: View, e: Event, v: View, w: View)
    requires Does(su, u, e, v) && Unseen(su, v, w)
    requires !e.Quiet? && !e.Renamed? ==> e.id in v.known
    ensures Does(su, u, e, w)
  {
    hide Binds, Content;
  }

  lemma BoundBefore(su: Setup, u: View, v: View, key: Key, id: Id)
    requires Unseen(su, u, v)
    ensures Binds(su, u, key, id) <==> Binds(su, v, key, id)
    ensures Unbound(su, u, key) <==> Unbound(su, v, key)
  {
    hide Binds;
  }

  lemma UnseenContent(su: Setup, u: View, v: View, id: Id)
    requires Unseen(su, u, v) && id in u.known
    ensures Content(u, id) == Content(v, id)
  {
    hide Content, Binds;
  }

  lemma UnseenIsQuiet(su: Setup, v: View, w: View)
    requires Unseen(su, v, w)
    ensures Does(su, v, Quiet, w)
  {
  }
}
