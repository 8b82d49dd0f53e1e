/** The actor's mailbox protocol: `DeviceHandle::call`, `close` and `force_close`, and the run loop
    (actor.rs:43-56, 386-418, 674-692), as a state machine whose steps interleave freely. */
module Protocol {
  import opened Wrappers
  import opened Phones
  import opened PlainActor
  import opened Requests

  const CAPACITY: nat := 16

  /** One call and the request it sends; `Shutdown` is not a call. */
  datatype Job = Job(id: nat, req: Request)

  datatype Message = Ask(job: Job) | Stop

  datatype Phase = Running | Closing | Ended(clean: bool) | Dead

  datatype Outcome = Answered(reply: Reply) | Closed

  /** The first `close`: not called, waiting for the teardown result, or returned. */
  datatype Closer = Unused | Waiting | Returned(result: Result<()>)

  /** `sent` is the history of accepted calls; `began` of them were taken from the queue and
      `finished` of them answered. */
  datatype State = State(
    dev: Dev,
    phase: Phase,
    queue: seq<Message>,
    current: Option<Job>,
    outcomes: map<nat, Outcome>,
    closer: Closer,
    sent: seq<Job>,
    began: nat,
    finished: nat) {
    predicate Alive() { phase.Running? || phase.Closing? }
  }

  datatype Event =
    | Call(job: Job)              // a caller sends its request
    | SendStop                    // the first `close` sends `Shutdown`
    | TakeNext                    // the run loop receives a message
    | Answer                      // a handler finishes and replies
    | HangUp                      // every handle is gone: `recv` yields nothing more
    | CloseDevice(ok: bool)       // the session is closed, the actor ends
    | Lose(dev: Dev)              // the actor is aborted or a handler panics, the device in any state
    | CloseReturns(late: bool)    // `await_teardown` yields, or its time is up

  function Asks(q: seq<Message>): seq<Job> {
    if q == [] then []
    else if q[0].Ask? then [q[0].job] + Asks(q[1..]) else Asks(q[1..])
  }

  function Reqs(jobs: seq<Job>): (rs: seq<Request>)
    ensures |rs| == |jobs| && forall i :: 0 <= i < |jobs| ==> rs[i] == jobs[i].req
  {
    seq(|jobs|, i requires 0 <= i < |jobs| => jobs[i].req)
  }

  function Started(dev: Dev): State {
    State(dev, Running, [], None, map[], Unused, [], 0, 0)
  }

  ghost predicate Enabled(su: Setup, s: State, e: Event) {
    match e
    case Call(job) =>
      && job.id !in s.outcomes && (forall j :: j in s.sent ==> j.id != job.id) && !job.req.Shutdown?
      && (s.Alive() ==> |s.queue| < CAPACITY)
    case SendStop => s.closer.Unused? && (s.Alive() ==> |s.queue| < CAPACITY)
    case TakeNext => s.phase.Running? && s.current.None? && s.queue != []
    case Answer => s.current.Some? && s.phase.Running? && |s.dev| == |su.storages| && AllValid(s.dev)
    case HangUp => s.phase.Running? && s.current.None? && s.queue == []
    case CloseDevice(_) => s.phase.Closing?
    case Lose(_) => s.Alive()
    case CloseReturns(late) => s.closer.Waiting? && (late || !s.Alive())
  }

  /** The actor is gone: whoever still waits for a reply learns that the actor is closed. */
  function Gone(s: State, phase: Phase): State {
    s.(phase := phase, queue := [], current := None,
       outcomes := s.outcomes + (map k | k in Ids(Unanswered(s)) :: Closed))
  }

  function Unanswered(s: State): seq<Job> {
    if s.finished <= |s.sent| then s.sent[s.finished..] else []
  }

  function Ids(jobs: seq<Job>): set<nat> {
    set j | j in jobs :: j.id
  }

  ghost function After(su: Setup, s: State, e: Event): State
    requires Enabled(su, s, e)
  {
    match e
    case Call(job) =>
      if s.Alive() then s.(queue := s.queue + [Ask(job)], sent := s.sent + [job])
      else s.(outcomes := s.outcomes[job.id := Closed])
    case SendStop =>
      if s.Alive() then s.(queue := s.queue + [Stop], closer := Waiting)
      else s.(closer := Returned(Err(ActorClosed)))
    case TakeNext =>
      (match s.queue[0]
       case Stop => s.(queue := s.queue[1..], phase := Closing)
       case Ask(job) => s.(queue := s.queue[1..], current := Some(job), began := s.began + 1))
    case Answer =>
      var (dev, reply) := Step(su, s.dev, s.current.value.req);
      s.(dev := dev, current := None, outcomes := s.outcomes[s.current.value.id := Answered(reply)], finished := s.finished + 1)
    case HangUp => s.(phase := Closing)
    case CloseDevice(ok) => Gone(s, Ended(ok))
    case Lose(dev) => Gone(s.(dev := dev), Dead)
    case CloseReturns(late) =>
      if s.Alive() then Gone(s, Dead).(closer := Returned(Err(Timeout)))
      else
        match s.phase
        case Ended(clean) => s.(closer := Returned(if clean then Ok(()) else Err(Mtp)))
        case _ => s.(closer := Returned(Err(ActorClosed)))
  }

  /** Where a run of events leads, as long as each is enabled. */
  ghost function Reach(su: Setup, dev: Dev, events: seq<Event>): Option<State> {
    if events == [] then Some(Started(dev))
    else
      match Reach(su, dev, events[..|events| - 1])
      case None => None
      case Some(s) => if Enabled(su, s, events[|events| - 1]) then Some(After(su, s, events[|events| - 1])) else None
  }

  // ---------- the invariant ----------

  ghost predicate Counted(s: State) {
    && s.finished <= s.began <= |s.sent| && s.began <= s.finished + 1 && |s.queue| <= CAPACITY
    && (forall i, j :: 0 <= i < j < |s.sent| ==> s.sent[i].id != s.sent[j].id)
    && (forall i :: 0 <= i < |s.sent| ==> !s.sent[i].req.Shutdown?)
  }

  /** The queue is what was sent and not yet taken, in order. */
  ghost predicate Fifo(s: State)
    requires Counted(s)
  {
    if s.Alive() then
      && Asks(s.queue) == s.sent[s.began..]
      && s.current == (if s.finished < s.began then Some(s.sent[s.finished]) else None)
      && (s.phase.Closing? ==> s.current.None?)
    else s.queue == [] && s.current.None?
  }

  /** Every call taken and finished has its own reply, the one of a run without a mailbox; every
      other call is waiting while the actor lives, and told that it is closed once it is gone. */
  ghost predicate Fair(su: Setup, dev0: Dev, s: State)
    requires Counted(s) && |dev0| == |su.storages| && AllValid(dev0)
  {
    var (dev, replies) := Run(su, dev0, Reqs(s.sent[..s.finished]));
    && |replies| == s.finished
    && (s.Alive() ==> s.dev == dev)
    && (forall k :: 0 <= k < s.finished ==> s.sent[k].id in s.outcomes && s.outcomes[s.sent[k].id] == Answered(replies[k]))
    && (forall k :: s.finished <= k < |s.sent| ==>
          if s.Alive() then s.sent[k].id !in s.outcomes else s.sent[k].id in s.outcomes && s.outcomes[s.sent[k].id] == Closed)
  }

  ghost predicate Honest(s: State) {
    s.closer == Returned(Ok(())) ==> s.phase == Ended(true)
  }

  ghost predicate Good(su: Setup, dev0: Dev, s: State) {
    |dev0| == |su.storages| && AllValid(dev0) && Counted(s) && Fifo(s) && Fair(su, dev0, s) && Honest(s)
  }

  lemma RunCons(su: Setup, dev: Dev, reqs: seq<Request>)
    requires |dev| == |su.storages| && AllValid(dev) && reqs != [] && !reqs[0].Shutdown?
    ensures var (d1, reply) := Step(su, dev, reqs[0]);
            && |d1| == |su.storages| && AllValid(d1)
            && Run(su, dev, reqs) == (Run(su, d1, reqs[1..]).0, [reply] + Run(su, d1, reqs[1..]).1)
  {
    hide AllValid, Step;
    StepKeeps(su, dev, reqs[0]);
  }

  lemma {:induction false} RunSnoc(su: Setup, dev: Dev, reqs: seq<Request>, r: Request)
    requires |dev| == |su.storages| && AllValid(dev) && !r.Shutdown? && forall i :: 0 <= i < |reqs| ==> !reqs[i].Shutdown?
    ensures var (d, replies) := Run(su, dev, reqs);
            && |d| == |su.storages| && AllValid(d) && |replies| == |reqs|
            && Run(su, dev, reqs + [r]) == (Step(su, d, r).0, replies + [Step(su, d, r).1])
    decreases |reqs|
  {
    hide Step, AllValid;
    var all := reqs + [r];
    RunCons(su, dev, all);
    if reqs == [] {
      assert all == [r] && all[1..] == [];
      var reply := Step(su, dev, r).1;
      assert [reply] + [] == [] + [reply];
    } else {
      RunCons(su, dev, reqs);
      var (d1, reply) := Step(su, dev, reqs[0]);
      assert all[0] == reqs[0] && all[1..] == reqs[1..] + [r];
      RunSnoc(su, d1, reqs[1..], r);
      var (d, replies) := Run(su, d1, reqs[1..]);
      assert [reply] + (replies + [Step(su, d, r).1]) == ([reply] + replies) + [Step(su, d, r).1];
    }
  }

  lemma StepKeeps(su: Setup, dev: Dev, r: Request)
    requires |dev| == |su.storages| && AllValid(dev)
    ensures |Step(su, dev, r).0| == |su.storages| && AllValid(Step(su, dev, r).0)
  {
    hide AllValid, Step;
    StepValid(su, dev, r);
  }

  lemma {:induction false} AsksOfSnoc(q: seq<Message>, m: Message)
    ensures Asks(q + [m]) == Asks(q) + (if m.Ask? then [m.job] else [])
  {
    if q == [] {
      assert [] + [m] == [m] && [m][1..] == [];
    } else {
      assert (q + [m])[0] == q[0] && (q + [m])[1..] == q[1..] + [m];
      AsksOfSnoc(q[1..], m);
    }
  }

  lemma StartedIsGood(su: Setup, dev: Dev)
    requires |dev| == |su.storages| && AllValid(dev)
    ensures Good(su, dev, Started(dev))
  {
    hide AllValid;
    assert Reqs([]) == [] && Run(su, dev, []) == (dev, []);
  }

  /** The end of the actor answers exactly the calls that had no answer yet. */
  lemma GoneIsGood(su: Setup, dev0: Dev, s: State, dev: Dev, phase: Phase)
    requires Good(su, dev0, s) && s.Alive() && (phase.Ended? || phase.Dead?)
    ensures Good(su, dev0, Gone(s.(dev := dev), phase))
  {
    hide AllValid, Run, Gone, Ids, Unanswered;
    GoneShape(s.(dev := dev), phase);
    forall k | 0 <= k < |s.sent|
      ensures var t := Gone(s.(dev := dev), phase); var id := s.sent[k].id;
              if s.finished <= k then id in t.outcomes && t.outcomes[id] == Closed
              else id in t.outcomes <==> id in s.outcomes
      ensures k < s.finished && s.sent[k].id in s.outcomes ==> Gone(s.(dev := dev), phase).outcomes[s.sent[k].id] == s.outcomes[s.sent[k].id]
    {
      GoneOutcome(s.(dev := dev), phase, k);
    }
  }

  lemma GoneShape(s: State, phase: Phase)
    ensures var t := Gone(s, phase); t == s.(phase := phase, queue := [], current := None, outcomes := t.outcomes)
  {
  }

  lemma GoneOutcome(s: State, phase: Phase, k: nat)
    requires Counted(s) && k < |s.sent|
    ensures var t, id := Gone(s, phase), s.sent[k].id;
            if s.finished <= k then id in t.outcomes && t.outcomes[id] == Closed
            else (id in t.outcomes <==> id in s.outcomes) && (id in s.outcomes ==> t.outcomes[id] == s.outcomes[id])
  {
    hide Ids, Unanswered;
    IsUnanswered(s, k);
  }

  lemma IsUnanswered(s: State, k: nat)
    requires Counted(s) && k < |s.sent|
    ensures s.sent[k].id in Ids(Unanswered(s)) <==> s.finished <= k
  {
    var u := Unanswered(s);
    if s.finished <= k {
      assert u[k - s.finished] == s.sent[k];
      assert s.sent[k] in u;
    }
    if s.sent[k].id in Ids(u) {
      var j :| j in u && j.id == s.sent[k].id;
      var i :| 0 <= i < |u| && u[i] == j;
      assert s.sent[s.finished + i] == j;
    }
  }

  lemma CallIsGood(su: Setup, dev0: Dev, s: State, job: Job)
    requires Good(su, dev0, s) && Enabled(su, s, Call(job))
    ensures Good(su, dev0, After(su, s, Call(job)))
  {
    hide AllValid, Run, Counted, Fifo, Fair;
    IdIsNew(s, job);
    if s.Alive() {
      QueuedCounted(s, job);
      QueuedFair(su, dev0, s, job);
    } else {
      ToldFair(su, dev0, s, job);
    }
  }

  /** The state after a call has been put into the queue. */
  function Queued(s: State, job: Job): State {
    s.(queue := s.queue + [Ask(job)], sent := s.sent + [job])
  }

  lemma IdIsNew(s: State, job: Job)
    requires forall j :: j in s.sent ==> j.id != job.id
    ensures forall k :: 0 <= k < |s.sent| ==> s.sent[k].id != job.id
  {
    forall k | 0 <= k < |s.sent|
      ensures s.sent[k].id != job.id
    {
      assert s.sent[k] in s.sent;
    }
  }

  lemma QueuedCounted(s: State, job: Job)
    requires Counted(s) && Fifo(s) && s.Alive() && |s.queue| < CAPACITY && !job.req.Shutdown?
    requires forall k :: 0 <= k < |s.sent| ==> s.sent[k].id != job.id
    ensures Counted(Queued(s, job)) && Fifo(Queued(s, job))
  {
    var t := Queued(s, job);
    AsksOfSnoc(s.queue, Ask(job));
    assert t.sent[t.began..] == s.sent[s.began..] + [job];
  }

  lemma QueuedFair(su: Setup, dev0: Dev, s: State, job: Job)
    requires Counted(s) && Counted(Queued(s, job)) && |dev0| == |su.storages| && AllValid(dev0) && Fair(su, dev0, s)
    requires s.Alive() && job.id !in s.outcomes
    ensures Fair(su, dev0, Queued(s, job))
  {
    hide AllValid, Run;
    assert Queued(s, job).sent[..s.finished] == s.sent[..s.finished];
  }

  /** A call to an actor that is gone. */
  lemma ToldFair(su: Setup, dev0: Dev, s: State, job: Job)
    requires Counted(s) && Fifo(s) && |dev0| == |su.storages| && AllValid(dev0) && Fair(su, dev0, s) && !s.Alive()
    requires forall k :: 0 <= k < |s.sent| ==> s.sent[k].id != job.id
    ensures var t := s.(outcomes := s.outcomes[job.id := Closed]); Counted(t) && Fifo(t) && Fair(su, dev0, t)
  {
    hide AllValid, Run;
  }

  lemma AnswerIsGood(su: Setup, dev0: Dev, s: State)
    requires Good(su, dev0, s) && Enabled(su, s, Answer)
    ensures Good(su, dev0, After(su, s, Answer))
  {
    hide AllValid, Run, Step;
    var t := After(su, s, Answer);
    var done, job := s.sent[..s.finished], s.current.value;
    assert t.sent[..t.finished] == done + [job];
    assert Reqs(done + [job]) == Reqs(done) + [job.req];
    RunSnoc(su, dev0, Reqs(done), job.req);
    forall k | 0 <= k < |s.sent| && k != s.finished
      ensures s.sent[k].id != job.id
    {
    }
  }

  lemma TakeNextIsGood(su: Setup, dev0: Dev, s: State)
    requires Good(su, dev0, s) && Enabled(su, s, TakeNext)
    ensures Good(su, dev0, After(su, s, TakeNext))
  {
    hide AllValid, Run;
    var t := After(su, s, TakeNext);
    assert s.sent[s.began..] == Asks(s.queue);
    if s.queue[0].Ask? {
      assert s.sent[s.began..][0] == s.queue[0].job && s.sent[s.began..][1..] == s.sent[s.began + 1..];
    }
  }

  lemma SendStopIsGood(su: Setup, dev0: Dev, s: State)
    requires Good(su, dev0, s) && Enabled(su, s, SendStop)
    ensures Good(su, dev0, After(su, s, SendStop))
  {
    hide AllValid, Run;
    AsksOfSnoc(s.queue, Stop);
  }

  lemma HangUpIsGood(su: Setup, dev0: Dev, s: State)
    requires Good(su, dev0, s) && Enabled(su, s, HangUp)
    ensures Good(su, dev0, After(su, s, HangUp))
  {
    hide AllValid, Run;
  }

  lemma EndIsGood(su: Setup, dev0: Dev, s: State, e: Event)
    requires Good(su, dev0, s) && Enabled(su, s, e) && (e.CloseDevice? || e.Lose?)
    ensures Good(su, dev0, After(su, s, e))
  {
    hide Good;
    if e.CloseDevice? {
      GoneIsGood(su, dev0, s, s.dev, Ended(e.ok));
      assert s.(dev := s.dev) == s;
    } else {
      GoneIsGood(su, dev0, s, e.dev, Dead);
    }
  }

  lemma CloseReturnsIsGood(su: Setup, dev0: Dev, s: State, late: bool)
    requires Good(su, dev0, s) && Enabled(su, s, CloseReturns(late))
    ensures Good(su, dev0, After(su, s, CloseReturns(late)))
  {
    hide Gone, Fair;
    if s.Alive() {
      GoneIsGood(su, dev0, s, s.dev, Dead);
      assert s.(dev := s.dev) == s;
      GoneShape(s, Dead);
      CloserIsApart(su, dev0, Gone(s, Dead), Returned(Err(Timeout)));
    } else {
      CloserIsApart(su, dev0, s, After(su, s, CloseReturns(late)).closer);
    }
  }

  lemma CloserIsApart(su: Setup, dev0: Dev, s: State, closer: Closer)
    requires Good(su, dev0, s) && (closer == Returned(Ok(())) ==> s.phase == Ended(true))
    ensures Good(su, dev0, s.(closer := closer))
  {
    hide AllValid, Run;
  }

  /** Every step keeps the invariant. */
  lemma StepIsGood(su: Setup, dev0: Dev, s: State, e: Event)
    requires Good(su, dev0, s) && Enabled(su, s, e)
    ensures Good(su, dev0, After(su, s, e))
  {
    hide Good, Enabled, After;
    match e {
      case Call(job) => CallIsGood(su, dev0, s, job);
      case SendStop => SendStopIsGood(su, dev0, s);
      case TakeNext => TakeNextIsGood(su, dev0, s);
      case Answer => AnswerIsGood(su, dev0, s);
      case HangUp => HangUpIsGood(su, dev0, s);
      case CloseDevice(_) => EndIsGood(su, dev0, s, e);
      case Lose(_) => EndIsGood(su, dev0, s, e);
      case CloseReturns(late) => CloseReturnsIsGood(su, dev0, s, late);
    }
  }

  lemma {:induction false} ReachableIsGood(su: Setup, dev: Dev, events: seq<Event>)
    requires |dev| == |su.storages| && AllValid(dev) && Reach(su, dev, events).Some?
    ensures Good(su, dev, Reach(su, dev, events).value)
  {
    hide AllValid, Good, Enabled, After;
    if events == [] {
      StartedIsGood(su, dev);
    } else {
      var n := |events| - 1;
      ReachableIsGood(su, dev, events[..n]);
      StepIsGood(su, dev, Reach(su, dev, events[..n]).value, events[n]);
    }
  }

  // ---------- what callers see ----------

  /** Over every interleaving: calls are begun in the order they were sent; each call that was
      answered got the reply of its own request in a run of exactly those requests in that order;
      once the actor is gone every call has exactly one outcome; and the first `close` reports
      success only if the run loop ended with the session closed. */
  lemma EveryCallIsSettled(su: Setup, dev: Dev, events: seq<Event>)
    requires |dev| == |su.storages| && AllValid(dev) && Reach(su, dev, events).Some?
    ensures var s := Reach(su, dev, events).value;
            && s.finished <= s.began <= |s.sent|
            && var replies := Run(su, dev, Reqs(s.sent[..s.finished])).1;
               && |replies| == s.finished
               && (forall k :: 0 <= k < s.finished ==> s.sent[k].id in s.outcomes && s.outcomes[s.sent[k].id] == Answered(replies[k]))
               && (!s.Alive() ==> forall k :: s.finished <= k < |s.sent| ==> s.sent[k].id in s.outcomes && s.outcomes[s.sent[k].id] == Closed)
               && (s.closer == Returned(Ok(())) ==> s.phase == Ended(true))
  {
    hide AllValid, Run;
    ReachableIsGood(su, dev, events);
  }

  /** After `Shutdown` was taken from the queue, or the actor is gone, no step begins a request,
      answers one or touches the device any more, except that an abort may interrupt the closing. */
  lemma NothingAfterShutdown(su: Setup, dev0: Dev, s: State, e: Event)
    requires Good(su, dev0, s) && Enabled(su, s, e) && !s.phase.Running?
    ensures var t := After(su, s, e);
            && !t.phase.Running? && t.began == s.began && t.finished == s.finished && (!e.Lose? ==> t.dev == s.dev)
            && (!s.Alive() ==> t.dev == s.dev && t.phase == s.phase)
  {
    hide AllValid, Run, Step;
  }

  /** An outcome, once there, is never replaced. */
  lemma OutcomesStay(su: Setup, dev0: Dev, s: State, e: Event, id: nat)
    requires Good(su, dev0, s) && Enabled(su, s, e) && id in s.outcomes
    ensures id in After(su, s, e).outcomes && After(su, s, e).outcomes[id] == s.outcomes[id]
  {
    hide AllValid, Run, Step, Ids, Unanswered;
    if s.Alive() {
      AnsweredAlready(s, id);
      if e.Lose? {
        AnsweredAlready(s.(dev := e.dev), id);
      }
    }
  }

  lemma AnsweredAlready(s: State, id: nat)
    requires Counted(s) && forall k :: s.finished <= k < |s.sent| ==> s.sent[k].id != id
    ensures id !in Ids(Unanswered(s))
  {
    var u := Unanswered(s);
    forall j | j in u
      ensures j.id != id
    {
      var i :| 0 <= i < |u| && u[i] == j;
      assert s.sent[s.finished + i] == j;
    }
  }

  // ---------- what `close` reports ----------

  /** How a run ended can be read off its events. */
  lemma {:induction false} PhaseTells(su: Setup, dev: Dev, events: seq<Event>)
    requires |dev| == |su.storages| && AllValid(dev) && Reach(su, dev, events).Some?
    ensures var s := Reach(su, dev, events).value;
            && (forall ok :: s.phase == Ended(ok) <==> CloseDevice(ok) in events)
            && (s.phase.Dead? && s.closer.Waiting? ==> exists d :: Lose(d) in events)
            && ((exists d :: Lose(d) in events) ==> s.phase.Dead?)
            && (s.Alive() ==> !s.closer.Returned?)
    decreases |events|
  {
    hide AllValid, Enabled, After;
    if events != [] {
      var n := |events| - 1;
      assert events == events[..n] + [events[n]];
      PhaseTells(su, dev, events[..n]);
      ReachableIsGood(su, dev, events[..n]);
      PhaseStep(su, dev, Reach(su, dev, events[..n]).value, events[n]);
    }
  }

  lemma PhaseStep(su: Setup, dev0: Dev, s: State, e: Event)
    requires Good(su, dev0, s) && Enabled(su, s, e)
    ensures var t := After(su, s, e);
            && (forall ok :: t.phase == Ended(ok) <==> s.phase == Ended(ok) || e == CloseDevice(ok))
            && (e.Lose? ==> t.phase.Dead?) && (s.phase.Dead? ==> t.phase.Dead?)
            && (t.phase.Dead? && !s.phase.Dead? ==> e.Lose? || t.closer.Returned?)
            && (s.phase.Dead? && t.closer.Waiting? ==> s.closer.Waiting?)
            && (t.Alive() ==> s.Alive() && t.closer.Returned? == s.closer.Returned?)
  {
    hide AllValid, Run, Step, Fair, Fifo;
  }

  /** When the first `close` returns it reports success exactly when the session had been closed
      cleanly; a failed closing, a lost actor and a time limit are told apart, and after any of the
      three the actor is gone. */
  lemma CloseTellsTheRun(su: Setup, dev: Dev, events: seq<Event>, late: bool)
    requires |dev| == |su.storages| && AllValid(dev) && Reach(su, dev, events).Some? && Enabled(su, Reach(su, dev, events).value, CloseReturns(late))
    ensures var t := After(su, Reach(su, dev, events).value, CloseReturns(late));
            && t.closer.Returned? && !t.Alive()
            && (t.closer == Returned(Ok(())) <==> CloseDevice(true) in events)
            && (t.closer == Returned(Err(Mtp)) <==> CloseDevice(false) in events)
            && (t.closer == Returned(Err(ActorClosed)) <==> exists d :: Lose(d) in events)
            && (t.closer == Returned(Err(Timeout)) <==> Reach(su, dev, events).value.Alive())
  {
    hide AllValid, Reach, Ids, Unanswered;
    PhaseTells(su, dev, events);
    var s := Reach(su, dev, events).value;
    assert s.phase.Ended? ==> s.phase == Ended(true) || s.phase == Ended(false);
  }

  /** Where further events lead. */
  ghost function Follow(su: Setup, s: State, events: seq<Event>): Option<State>
    decreases |events|
  {
    if events == [] then Some(s)
    else if Enabled(su, s, events[0]) then Follow(su, After(su, s, events[0]), events[1..])
    else None
  }

  /** While the loop runs, `Shutdown` is in the queue exactly when the first `close` waits. */
  ghost predicate StopIsAwaited(s: State) {
    s.phase.Running? ==> !s.closer.Returned? && (s.closer.Waiting? <==> Stop in s.queue) && |s.queue| <= CAPACITY
  }

  lemma {:induction false} ReachableStops(su: Setup, dev: Dev, events: seq<Event>)
    requires |dev| == |su.storages| && AllValid(dev) && Reach(su, dev, events).Some?
    ensures StopIsAwaited(Reach(su, dev, events).value)
    decreases |events|
  {
    hide AllValid, Enabled, After;
    if events != [] {
      var n := |events| - 1;
      ReachableStops(su, dev, events[..n]);
      ReachableIsGood(su, dev, events[..n]);
      StopStep(su, dev, Reach(su, dev, events[..n]).value, events[n]);
    }
  }

  lemma StopStep(su: Setup, dev0: Dev, s: State, e: Event)
    requires Good(su, dev0, s) && StopIsAwaited(s) && Enabled(su, s, e)
    ensures StopIsAwaited(After(su, s, e))
  {
    hide AllValid, Run, Step, Fair, Fifo;
    var t := After(su, s, e);
    if e.TakeNext? {
      assert s.queue == [s.queue[0]] + s.queue[1..];
    }
  }

  /** From every state in which the loop runs `close` can still succeed. */
  lemma CloseCanSucceed(su: Setup, dev: Dev, events: seq<Event>) returns (more: seq<Event>)
    requires |dev| == |su.storages| && AllValid(dev) && Reach(su, dev, events).Some? && Reach(su, dev, events).value.phase.Running?
    ensures var end := Follow(su, Reach(su, dev, events).value, more);
            end.Some? && end.value.closer == Returned(Ok(()))
  {
    ReachableIsGood(su, dev, events);
    ReachableStops(su, dev, events);
    more := Drained(su, dev, Reach(su, dev, events).value);
  }

  lemma {:induction false} Drained(su: Setup, dev0: Dev, s: State) returns (more: seq<Event>)
    requires Good(su, dev0, s) && StopIsAwaited(s) && s.phase.Running?
    ensures var end := Follow(su, s, more); end.Some? && end.value.closer == Returned(Ok(()))
    decreases 2 * |s.queue| + (if s.current.Some? then 1 else 0) + (if s.closer.Unused? then 3 else 0)
  {
    hide AllValid, Run, Step, Fair, Enabled;
    var e := if s.current.Some? then Answer else if s.queue == [] then SendStop else TakeNext;
    NextIsEnabled(su, dev0, s, e);
    StepIsGood(su, dev0, s, e);
    StopStep(su, dev0, s, e);
    var t := After(su, s, e);
    if t.phase.Running? {
      var rest := Drained(su, dev0, t);
      more := [e] + rest;
      assert more[1..] == rest;
    } else {
      ClosesCleanly(su, t);
      more := [e] + [CloseDevice(true), CloseReturns(false)];
      assert more[1..] == [CloseDevice(true), CloseReturns(false)];
    }
  }

  lemma ClosesCleanly(su: Setup, s: State)
    requires s.phase.Closing? && s.closer.Waiting?
    ensures var end := Follow(su, s, [CloseDevice(true), CloseReturns(false)]);
            end.Some? && end.value.closer == Returned(Ok(()))
  {
    hide Ids, Unanswered;
    var t := After(su, s, CloseDevice(true));
    assert [CloseDevice(true), CloseReturns(false)][1..] == [CloseReturns(false)] && [CloseReturns(false)][1..] == [];
    assert Follow(su, t, [CloseReturns(false)]) == Follow(su, After(su, t, CloseReturns(false)), []);
  }

  lemma NextIsEnabled(su: Setup, dev0: Dev, s: State, e: Event)
    requires Good(su, dev0, s) && StopIsAwaited(s) && s.phase.Running?
    requires e == if s.current.Some? then Answer else if s.queue == [] then SendStop else TakeNext
    ensures Enabled(su, s, e)
  {
    if s.current.Some? {
      ReplaysValid(su, dev0, Reqs(s.sent[..s.finished]));
    }
  }

  lemma {:induction false} ReplaysValid(su: Setup, dev: Dev, reqs: seq<Request>)
    requires |dev| == |su.storages| && AllValid(dev)
    ensures |Run(su, dev, reqs).0| == |su.storages| && AllValid(Run(su, dev, reqs).0)
    decreases |reqs|
  {
    hide AllValid, Step;
    if reqs != [] && !reqs[0].Shutdown? {
      RunCons(su, dev, reqs);
      ReplaysValid(su, Step(su, dev, reqs[0]).0, reqs[1..]);
    }
  }
}
