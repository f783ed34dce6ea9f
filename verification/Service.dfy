/**
 The Windows service (`serviceHandler.Execute`): starts the loops, answers control requests, and on
 a stop request cancels the loops and gives them ten seconds to finish before it reports Stopped.
 */
module Service {
  import opened Workers

  const GRACE: int := 10_000  // milliseconds

  datatype Status = StartPending | Running | StopPending | Stopped

  /** A control request; for an interrogation, with the status that the caller says is current. */
  datatype Request = Interrogate(current: Status) | Stop | Shutdown | Other

  /** Boot: nothing reported.  Stopping: out of the request loop.  Grace: cancelled, waiting.
      Closing and Ended remember when the wait began, and whether it ended because all loops had
      finished. */
  datatype Stage =
    | Boot | Adding | Serving | Stopping | Cancelling | Grace(since: int)
    | Closing(since: int, drained: bool) | Ended(since: int, drained: bool)

  datatype State = State(pool: Pool, stage: Stage, statuses: seq<Status>, requests: seq<Request>)

  datatype Event =
    | Report | Add | Announce | Receive(r: Request) | ReportStopping | CancelLoops
    | Drained | GraceOver | ReportStopped | Work(a: Act)

  predicate Enabled(plan: Plan, s: State, e: Event) {
    match e
    case Report => s.stage.Boot?
    case Add => s.stage.Adding? && |s.pool.workers| < |plan.intervals|
    case Announce => s.stage.Adding? && |s.pool.workers| == |plan.intervals|
    case Receive(_) => s.stage.Serving?
    case ReportStopping => s.stage.Stopping?
    case CancelLoops => s.stage.Cancelling?
    case Drained => s.stage.Grace? && s.pool.wg == 0
    case GraceOver => s.stage.Grace? && s.pool.now - s.stage.since >= GRACE
    case ReportStopped => s.stage.Closing?
    case Work(a) => Can(plan, s.pool, a)
  }

  function Next(plan: Plan, s: State, e: Event): State
    requires Enabled(plan, s, e)
  {
    match e
    case Report => s.(stage := Adding, statuses := s.statuses + [StartPending])
    case Add => s.(pool := Spawn(s.pool))
    case Announce => s.(stage := Serving, statuses := s.statuses + [Running])
    case Receive(r) =>
      s.(requests := s.requests + [r],
         statuses := if r.Interrogate? then s.statuses + [r.current] else s.statuses,
         stage := if r.Stop? || r.Shutdown? then Stopping else Serving)
    case ReportStopping => s.(stage := Cancelling, statuses := s.statuses + [StopPending])
    case CancelLoops => s.(stage := Grace(s.pool.now), pool := Cancel(s.pool))
    case Drained => s.(stage := Closing(s.stage.since, true))
    case GraceOver => s.(stage := Closing(s.stage.since, false))
    case ReportStopped => s.(stage := Ended(s.stage.since, s.stage.drained), statuses := s.statuses + [Stopped])
    case Work(a) => s.(pool := Do(plan, s.pool, a))
  }

  predicate LegalRun(plan: Plan, s: State, es: seq<Event>)
    decreases |es|
  {
    es == [] || (Enabled(plan, s, es[0]) && LegalRun(plan, Next(plan, s, es[0]), es[1..]))
  }

  function AfterRun(plan: Plan, s: State, es: seq<Event>): State
    requires LegalRun(plan, s, es)
    decreases |es|
  {
    if es == [] then s else AfterRun(plan, Next(plan, s, es[0]), es[1..])
  }

  function Init(now: int): State {
    State(Start(now), Boot, [], [])
  }

  // ----- the reported statuses

  function Echoes(rs: seq<Request>): seq<Status> {
    if rs == [] then []
    else
      var r := rs[|rs| - 1];
      Echoes(rs[..|rs| - 1]) + if r.Interrogate? then [r.current] else []
  }

  function StatusesAt(stage: Stage, rs: seq<Request>): seq<Status> {
    match stage
    case Boot => []
    case Adding => [StartPending]
    case Serving | Stopping => [StartPending, Running] + Echoes(rs)
    case Cancelling | Grace(_) | Closing(_, _) => [StartPending, Running] + Echoes(rs) + [StopPending]
    case Ended(_, _) => [StartPending, Running] + Echoes(rs) + [StopPending] + [Stopped]
  }

  predicate Asks(r: Request) {
    r.Stop? || r.Shutdown?
  }

  ghost predicate RequestsOk(stage: Stage, rs: seq<Request>) {
    match stage
    case Boot | Adding => rs == []
    case Serving => forall r | r in rs :: !Asks(r)
    case _ => rs != [] && Asks(rs[|rs| - 1]) && forall r | r in rs[..|rs| - 1] :: !Asks(r)
  }

  ghost predicate Good(plan: Plan, s: State) {
    && Inv(plan, s.pool)
    && (if s.stage.Boot? then s.pool.workers == []
        else s.stage.Adding? || |s.pool.workers| == |plan.intervals|)
    && s.statuses == StatusesAt(s.stage, s.requests)
    && RequestsOk(s.stage, s.requests)
    && (s.pool.cancelled <==> s.stage.Grace? || s.stage.Closing? || s.stage.Ended?)
    && (s.stage.Closing? || s.stage.Ended? ==>
          if s.stage.drained then s.pool.wg == 0 else s.pool.now - s.stage.since >= GRACE)
  }

  lemma DoneStays(plan: Plan, p: Pool, a: Act)
    requires Inv(plan, p) && Can(plan, p, a)
    ensures p.wg == 0 ==> Do(plan, p, a).wg == 0
  {
    CounterIsLive(plan, p);
  }

  lemma GoodReceive(plan: Plan, s: State, r: Request)
    requires Good(plan, s) && Enabled(plan, s, Receive(r))
    ensures Good(plan, Next(plan, s, Receive(r)))
  {
    hide Inv;
    var rs := s.requests + [r];
    assert rs[..|rs| - 1] == s.requests;
    assert Next(plan, s, Receive(r)).statuses
        == [StartPending, Running] + Echoes(s.requests) + (if r.Interrogate? then [r.current] else []);
  }

  lemma NoEchoes()
    ensures Echoes([]) == []
  {
  }

  lemma GoodNext(plan: Plan, s: State, e: Event)
    requires Good(plan, s) && Enabled(plan, s, e)
    ensures Good(plan, Next(plan, s, e))
  {
    hide Inv, Can, Do, Echoes;
    match e
    case Add => InvSpawn(plan, s.pool);
    case Announce => NoEchoes();
    case Receive(r) => GoodReceive(plan, s, r);
    case CancelLoops => InvCancel(plan, s.pool);
    case Work(a) =>
      InvDo(plan, s.pool, a);
      DoneStays(plan, s.pool, a);
    case _ =>
  }

  lemma {:induction false} GoodRun(plan: Plan, s: State, es: seq<Event>)
    requires Good(plan, s) && LegalRun(plan, s, es)
    ensures Good(plan, AfterRun(plan, s, es))
    decreases |es|
  {
    hide Good, Enabled, Next;
    if es != [] {
      GoodNext(plan, s, es[0]);
      GoodRun(plan, Next(plan, s, es[0]), es[1..]);
    }
  }

  lemma GoodInit(plan: Plan, now: int)
    requires PlanOk(plan)
    ensures Good(plan, Init(now))
  {
    InvStart(plan, now);
  }

  /** In every run, what the service manager has been told is exactly StartPending, Running, one
      echo per interrogation in order, and, once a stop or shutdown request has come in,
      StopPending and Stopped: as many of these as the stage has reached. */
  lemma StatusProtocol(plan: Plan, now: int, es: seq<Event>)
    requires PlanOk(plan) && LegalRun(plan, Init(now), es)
    ensures var s := AfterRun(plan, Init(now), es);
            s.statuses == StatusesAt(s.stage, s.requests) && RequestsOk(s.stage, s.requests)
  {
    hide Inv, StatusesAt, LegalRun, AfterRun;
    GoodInit(plan, now);
    GoodRun(plan, Init(now), es);
  }

  /** The manager's idea of the current status is the last one reported while serving. */
  ghost predicate Honest(rs: seq<Request>) {
    forall r | r in rs :: r.Interrogate? ==> r.current.Running?
  }

  function Order(s: Status): nat {
    match s
    case StartPending => 0
    case Running => 1
    case StopPending => 2
    case Stopped => 3
  }

  lemma {:induction false} HonestEchoes(rs: seq<Request>)
    requires Honest(rs)
    ensures forall x | x in Echoes(rs) :: x.Running?
  {
    if rs != [] {
      HonestEchoes(rs[..|rs| - 1]);
    }
  }

  /** Consequently the reported statuses never go back, and Stopped is reported at most once and
      last. */
  lemma NeverGoesBack(plan: Plan, now: int, es: seq<Event>)
    requires PlanOk(plan) && LegalRun(plan, Init(now), es)
    requires Honest(AfterRun(plan, Init(now), es).requests)
    ensures var st := AfterRun(plan, Init(now), es).statuses;
            && (forall i, j | 0 <= i < j < |st| :: Order(st[i]) <= Order(st[j]))
            && (forall i | 0 <= i < |st| :: st[i].Stopped? ==> i == |st| - 1)
  {
    hide Inv, Echoes, LegalRun, AfterRun;
    StatusProtocol(plan, now, es);
    var s := AfterRun(plan, Init(now), es);
    HonestEchoes(s.requests);
    var e := Echoes(s.requests);
    forall k | 0 <= k < |e| ensures e[k].Running? {
      assert e[k] in e;
    }
  }

  /** The request loop: it answers every interrogation up to the first stop or shutdown request,
      and leaves there. */
  method Serve(requests: seq<Request>) returns (statuses: seq<Status>, taken: nat)
    requires exists k :: 0 <= k < |requests| && Asks(requests[k])
    ensures 0 < taken <= |requests| && RequestsOk(Stopping, requests[..taken])
    ensures [StartPending, Running] + statuses == StatusesAt(Stopping, requests[..taken])
  {
    statuses, taken := [], 0;
    while !Asks(requests[taken])
      invariant taken < |requests| && statuses == Echoes(requests[..taken])
      invariant forall r | r in requests[..taken] :: !Asks(r)
      decreases |requests| - taken
    {
      assert requests[..taken + 1][..taken] == requests[..taken];
      assert requests[..taken + 1] == requests[..taken] + [requests[taken]];
      if requests[taken].Interrogate? {
        statuses := statuses + [requests[taken].current];
      }
      taken := taken + 1;
    }
    assert requests[..taken + 1][..taken] == requests[..taken];
    taken := taken + 1;
  }

  // ----- records after Stopped

  /** When the grace wait ended because all loops had finished, no record is handed to the logger
      and no status is reported ever after. */
  lemma SilentAfterDrain(plan: Plan, now: int, es: seq<Event>, more: seq<Event>)
    requires PlanOk(plan) && LegalRun(plan, Init(now), es)
    requires var stage := AfterRun(plan, Init(now), es).stage; stage.Ended? && stage.drained
    requires LegalRun(plan, AfterRun(plan, Init(now), es), more)
    ensures var s := AfterRun(plan, Init(now), es);
            && (forall i | 0 <= i < |s.pool.workers| :: s.pool.workers[i].phase.Finished?)
            && AfterRun(plan, s, more).pool.log == s.pool.log
            && AfterRun(plan, s, more).statuses == s.statuses
  {
    hide Inv, LegalRun, AfterRun, StatusesAt, RequestsOk;
    GoodInit(plan, now);
    GoodRun(plan, Init(now), es);
    var s := AfterRun(plan, Init(now), es);
    CounterIsLive(plan, s.pool);
    AllLeftIsFinal(plan, s, more);
  }

  lemma {:induction false} AllLeftIsFinal(plan: Plan, s: State, more: seq<Event>)
    requires s.stage.Ended? && AllLeft(s.pool) && LegalRun(plan, s, more)
    ensures var s' := AfterRun(plan, s, more);
            s'.pool.log == s.pool.log && s'.statuses == s.statuses
    decreases |more|
  {
    if more != [] {
      AllLeftStays(plan, s.pool, more[0].a);
      AllLeftIsFinal(plan, Next(plan, s, more[0]), more[1..]);
    }
  }

  lemma {:induction false} LiftRun(plan: Plan, s: State, acts: seq<Act>) returns (es: seq<Event>)
    requires Legal(plan, s.pool, acts)
    ensures LegalRun(plan, s, es)
    ensures AfterRun(plan, s, es) == s.(pool := After(plan, s.pool, acts))
    decreases |acts|
  {
    es := [];
    if acts != [] {
      var s' := Next(plan, s, Work(acts[0]));
      var rest := LiftRun(plan, s', acts[1..]);
      es := [Work(acts[0])] + rest;
      assert es[1..] == rest;
    }
  }

  /** Exactly when a record can still be handed over after Stopped: when some loop has not left
      runLoop, which those asleep in their select at the cancellation have; and that takes the timer,
      at least ten seconds after the cancellation. */
  lemma LateRecordIff(plan: Plan, now: int, es: seq<Event>)
    requires PlanOk(plan) && !plan.once && LegalRun(plan, Init(now), es)
    requires AfterRun(plan, Init(now), es).stage.Ended?
    ensures var s := AfterRun(plan, Init(now), es);
            && (!AllLeft(s.pool) <==>
                exists more :: LegalRun(plan, s, more) && AfterRun(plan, s, more).pool.log != s.pool.log)
            && (!AllLeft(s.pool) ==> !s.stage.drained && s.pool.now - s.stage.since >= 10_000)
  {
    hide Inv, LegalRun, AfterRun, StatusesAt, RequestsOk, Legal, After;
    GoodInit(plan, now);
    GoodRun(plan, Init(now), es);
    var s := AfterRun(plan, Init(now), es);
    CounterIsLive(plan, s.pool);
    if AllLeft(s.pool) {
      forall more | LegalRun(plan, s, more)
        ensures AfterRun(plan, s, more).pool.log == s.pool.log
      {
        AllLeftIsFinal(plan, s, more);
      }
    } else {
      var i :| 0 <= i < |s.pool.workers| && !Left(s.pool.workers[i]);
      var acts := CanStillWrite(plan, s.pool, i);
      var more := LiftRun(plan, s, acts);
      assert |After(plan, s.pool, acts).log| == |s.pool.log| + 1;
      assert LegalRun(plan, s, more) && AfterRun(plan, s, more).pool.log != s.pool.log;
    }
  }

  lemma ConsEvent(plan: Plan, s: State, e: Event, es: seq<Event>)
    requires Enabled(plan, s, e) && LegalRun(plan, Next(plan, s, e), es)
    ensures LegalRun(plan, s, [e] + es)
    ensures AfterRun(plan, s, [e] + es) == AfterRun(plan, Next(plan, s, e), es)
  {
    hide Enabled, Next;
    assert ([e] + es)[1..] == es;
  }

  lemma NoEvents(plan: Plan, s: State)
    ensures LegalRun(plan, s, []) && AfterRun(plan, s, []) == s
  {
  }

  /** This does happen: whenever a check is running while the service serves, a stop request and ten
      seconds lead to Stopped with that check still running. */
  lemma StopsLate(plan: Plan, s: State, i: nat) returns (es: seq<Event>)
    requires s.stage.Serving? && i < |s.pool.workers| && s.pool.workers[i].phase.Busy?
    ensures LegalRun(plan, s, es)
    ensures var s' := AfterRun(plan, s, es);
            && s'.stage == Ended(s.pool.now, false)
            && s'.statuses == s.statuses + [StopPending] + [Stopped]
            && |s'.pool.workers| == |s.pool.workers| && s'.pool.workers[i].phase.Busy?
  {
    hide LegalRun, AfterRun;
    var wait := Work(Advance(10_000));
    var s1 := Next(plan, s, Receive(Stop));
    var s2 := Next(plan, s1, ReportStopping);
    var s3 := Next(plan, s2, CancelLoops);
    var s4 := Next(plan, s3, wait);
    var s5 := Next(plan, s4, GraceOver);
    var s6 := Next(plan, s5, ReportStopped);
    hide Can, Do;
    NoEvents(plan, s6);
    es := [];
    ConsEvent(plan, s5, ReportStopped, es);
    es := [ReportStopped] + es;
    ConsEvent(plan, s4, GraceOver, es);
    es := [GraceOver] + es;
    ConsEvent(plan, s3, wait, es);
    es := [wait] + es;
    ConsEvent(plan, s2, CancelLoops, es);
    es := [CancelLoops] + es;
    ConsEvent(plan, s1, ReportStopping, es);
    es := [ReportStopping] + es;
    ConsEvent(plan, s, Receive(Stop), es);
    es := [Receive(Stop)] + es;
  }

  /** So it does from the start, with one check and whatever its interval. */
  lemma LateRun(interval: int, now: int) returns (es: seq<Event>)
    requires interval > 0
    ensures var plan := Plan(false, [interval]);
            && LegalRun(plan, Init(now), es)
            && var s := AfterRun(plan, Init(now), es);
            && s.stage == Ended(now, false)
            && s.statuses == [StartPending, Running, StopPending, Stopped]
            && |s.pool.workers| == 1 && s.pool.workers[0].phase.Busy? && !AllLeft(s.pool)
  {
    hide LegalRun, AfterRun;
    var plan := Plan(false, [interval]);
    var s1 := Next(plan, Init(now), Report);
    var s2 := Next(plan, s1, Add);
    var s3 := Next(plan, s2, Work(Begin(0)));
    var s4 := Next(plan, s3, Announce);
    es := StopsLate(plan, s4, 0);
    hide Can, Do;
    ConsEvent(plan, s3, Announce, es);
    es := [Announce] + es;
    ConsEvent(plan, s2, Work(Begin(0)), es);
    es := [Work(Begin(0))] + es;
    ConsEvent(plan, s1, Add, es);
    es := [Add] + es;
    ConsEvent(plan, Init(now), Report, es);
    es := [Report] + es;
  }

  lemma {:induction false} RunsJoin(plan: Plan, s: State, xs: seq<Event>, ys: seq<Event>)
    requires LegalRun(plan, s, xs) && LegalRun(plan, AfterRun(plan, s, xs), ys)
    ensures LegalRun(plan, s, xs + ys)
    ensures AfterRun(plan, s, xs + ys) == AfterRun(plan, AfterRun(plan, s, xs), ys)
    decreases |xs|
  {
    hide Enabled, Next;
    if xs == [] {
      assert xs + ys == ys;
    } else {
      assert (xs + ys)[1..] == xs[1..] + ys;
      RunsJoin(plan, Next(plan, s, xs[0]), xs[1..], ys);
    }
  }

  /** But it need not: from any serving state either request can lead to Stopped with all loops
      finished, and no time passed. */
  lemma StopsClean(plan: Plan, s: State, r: Request) returns (es: seq<Event>)
    requires Good(plan, s) && s.stage.Serving? && (r.Stop? || r.Shutdown?)
    ensures LegalRun(plan, s, es) && es != [] && es[0] == Receive(r)
    ensures var s' := AfterRun(plan, s, es);
            && s'.stage == Ended(s.pool.now, true) && s'.pool.now == s.pool.now
            && s'.statuses == s.statuses + [StopPending] + [Stopped]
  {
    hide LegalRun, AfterRun, Legal, After, Inv;
    var s1 := Next(plan, s, Receive(r));
    var s2 := Next(plan, s1, ReportStopping);
    var s3 := Next(plan, s2, CancelLoops);
    InvCancel(plan, s.pool);
    var acts := Drains(plan, s3.pool);
    var work := LiftRun(plan, s3, acts);
    var s4 := AfterRun(plan, s3, work);
    var s5 := Next(plan, s4, Drained);
    var s6 := Next(plan, s5, ReportStopped);
    NoEvents(plan, s6);
    es := [];
    ConsEvent(plan, s5, ReportStopped, es);
    es := [ReportStopped] + es;
    ConsEvent(plan, s4, Drained, es);
    es := [Drained] + es;
    RunsJoin(plan, s3, work, es);
    es := work + es;
    ConsEvent(plan, s2, CancelLoops, es);
    es := [CancelLoops] + es;
    ConsEvent(plan, s1, ReportStopping, es);
    es := [ReportStopping] + es;
    ConsEvent(plan, s, Receive(r), es);
    es := [Receive(r)] + es;
  }
}
