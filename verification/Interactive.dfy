/** `runInteractive`: starts one loop per configured check, then waits for all of them; a signal
    cancels their context. */
module Interactive {
  import opened Workers

  datatype Stage = Adding | Joining | Exited

  datatype State = State(pool: Pool, stage: Stage)

  datatype Event = Add | AllAdded | Signal | Work(a: Act) | Join

  predicate Enabled(plan: Plan, s: State, e: Event) {
    match e
    case Add => s.stage.Adding? && |s.pool.workers| < |plan.intervals|
    case AllAdded => s.stage.Adding? && |s.pool.workers| == |plan.intervals|
    case Signal => true
    case Work(a) => Can(plan, s.pool, a)
    case Join => s.stage.Joining? && s.pool.wg == 0
  }

  function Next(plan: Plan, s: State, e: Event): State
    requires Enabled(plan, s, e)
  {
    match e
    case Add => s.(pool := Spawn(s.pool))
    case AllAdded => s.(stage := Joining)
    case Signal => s.(pool := Cancel(s.pool))
    case Work(a) => s.(pool := Do(plan, s.pool, a))
    case Join => s.(stage := Exited)
  }

  predicate LegalRun(plan: Plan, s: State, es: seq<Event>)
    decreases |es|
  {
    es == [] || (Enabled(plan, s, es[0]) && LegalRun(plan, Next(plan, s, es[0]), es[1..]))
  }

  function AfterRun(plan: Plan, s: State, es: seq<Event>): State
    requires LegalRun(plan, s, es)
    decreases |es|
  {
    if es == [] then s else AfterRun(plan, Next(plan, s, es[0]), es[1..])
  }

  ghost predicate Good(plan: Plan, s: State) {
    && Inv(plan, s.pool)
    && (!s.stage.Adding? ==> |s.pool.workers| == |plan.intervals|)
    && (s.stage.Exited? ==> s.pool.wg == 0)
  }

  lemma GoodNext(plan: Plan, s: State, e: Event)
    requires Good(plan, s) && Enabled(plan, s, e)
    ensures Good(plan, Next(plan, s, e))
  {
    hide Inv, Can, Do;
    match e
    case Add => InvSpawn(plan, s.pool);
    case AllAdded =>
    case Signal => InvCancel(plan, s.pool);
    case Work(a) =>
      InvDo(plan, s.pool, a);
      if s.stage.Exited? {
        CounterIsLive(plan, s.pool);
        FinishedIsStill(plan, s.pool, a);
      }
    case Join =>
  }

  lemma FinishedIsStill(plan: Plan, p: Pool, a: Act)
    requires Can(plan, p, a)
    requires forall i | 0 <= i < |p.workers| :: p.workers[i].phase.Finished?
    ensures Do(plan, p, a).wg == p.wg && Do(plan, p, a).log == p.log
  {
  }

  lemma {:induction false} GoodRun(plan: Plan, s: State, es: seq<Event>)
    requires Good(plan, s) && LegalRun(plan, s, es)
    ensures Good(plan, AfterRun(plan, s, es))
    decreases |es|
  {
    hide Good, Enabled, Next;
    if es != [] {
      GoodNext(plan, s, es[0]);
      GoodRun(plan, Next(plan, s, es[0]), es[1..]);
    }
  }

  /** runInteractive returns only when every configured check's loop was started and has finished,
      which outside once mode needs a signal.  In once mode each check has then been executed, and
      its record handed to the logger, exactly once. */
  lemma ReturnsWhenAllFinished(plan: Plan, now: int, es: seq<Event>)
    requires Startable(plan) && LegalRun(plan, State(Start(now), Adding), es)
    requires AfterRun(plan, State(Start(now), Adding), es).stage.Exited?
    ensures var p := AfterRun(plan, State(Start(now), Adding), es).pool;
            && |p.workers| == |plan.intervals|
            && (forall i | 0 <= i < |p.workers| ::
                  p.workers[i].phase.Finished? && p.workers[i].writes == p.workers[i].runs >= 1)
            && (|plan.intervals| > 0 && !plan.once ==> p.cancelled)
            && (plan.once ==> forall i | 0 <= i < |plan.intervals| ::
                  p.workers[i].runs == 1 && multiset(p.log)[i] == 1)
  {
    hide LegalRun, AfterRun, Inv;
    var s0 := State(Start(now), Adding);
    InvStart(plan, now);
    GoodRun(plan, s0, es);
    var p := AfterRun(plan, s0, es).pool;
    CounterIsLive(plan, p);
    forall i | 0 <= i < |p.workers|
      ensures p.workers[i].writes == p.workers[i].runs >= 1
      ensures plan.once || p.cancelled
      ensures plan.once ==> p.workers[i].runs == 1 && multiset(p.log)[i] == 1
    {
      FinishedCounts(plan, p, i);
    }
    if |plan.intervals| > 0 {
      assert p.workers[0].phase.Finished?;
    }
  }

  lemma FinishedCounts(plan: Plan, p: Pool, i: nat)
    requires Inv(plan, p) && i < |p.workers| && p.workers[i].phase.Finished?
    ensures p.workers[i].writes == p.workers[i].runs >= 1
    ensures plan.once || p.cancelled
    ensures plan.once ==> p.workers[i].runs == 1 && multiset(p.log)[i] == 1
  {
    assert WorkerOk(plan, p.now, p.cancelled, plan.intervals[i], p.workers[i]);
  }

  // ----- a signal ends it

  lemma ConsEvent(plan: Plan, s: State, e: Event, es: seq<Event>)
    requires Enabled(plan, s, e) && LegalRun(plan, Next(plan, s, e), es)
    ensures LegalRun(plan, s, [e] + es)
    ensures AfterRun(plan, s, [e] + es) == AfterRun(plan, Next(plan, s, e), es)
  {
    hide Enabled, Next;
    assert ([e] + es)[1..] == es;
  }

  lemma NoEvents(plan: Plan, s: State)
    ensures LegalRun(plan, s, []) && AfterRun(plan, s, []) == s
  {
  }

  /** From a state in which all loops can still run to their end, the wait ends too. */
  lemma {:induction false} JoinsAfter(plan: Plan, s: State, acts: seq<Act>) returns (es: seq<Event>)
    requires s.stage.Joining? && Legal(plan, s.pool, acts) && After(plan, s.pool, acts).wg == 0
    ensures LegalRun(plan, s, es) && AfterRun(plan, s, es).stage.Exited?
    ensures AfterRun(plan, s, es).pool == After(plan, s.pool, acts)
    decreases |acts|
  {
    hide LegalRun, AfterRun, Can, Do;
    if acts == [] {
      NoEvents(plan, Next(plan, s, Join));
      ConsEvent(plan, s, Join, []);
      es := [Join] + [];
    } else {
      es := JoinsAfter(plan, Next(plan, s, Work(acts[0])), acts[1..]);
      ConsEvent(plan, s, Work(acts[0]), es);
      es := [Work(acts[0])] + es;
    }
  }

  lemma {:induction false} AddsAndJoins(plan: Plan, s: State) returns (es: seq<Event>)
    requires Good(plan, s) && !s.stage.Exited? && (s.pool.cancelled || plan.once)
    ensures LegalRun(plan, s, es) && AfterRun(plan, s, es).stage.Exited?
    ensures AfterRun(plan, s, es).pool.now == s.pool.now
    decreases |plan.intervals| - |s.pool.workers|, if s.stage.Adding? then 1 else 0
  {
    hide LegalRun, AfterRun, Inv, Legal, After;
    if s.stage.Joining? {
      var acts := Drains(plan, s.pool);
      es := JoinsAfter(plan, s, acts);
    } else {
      var e := if |s.pool.workers| < |plan.intervals| then Add else AllAdded;
      WithinPlan(plan, s.pool);
      GoodNext(plan, s, e);
      es := AddsAndJoins(plan, Next(plan, s, e));
      ConsEvent(plan, s, e, es);
      es := [e] + es;
    }
  }

  lemma WithinPlan(plan: Plan, p: Pool)
    requires Inv(plan, p)
    ensures |p.workers| <= |plan.intervals|
  {
  }

  /** From any reachable state a signal can bring runInteractive to its end, without waiting for any
      further tick and whatever the loops are doing. */
  lemma SignalEnds(plan: Plan, now: int, es: seq<Event>) returns (more: seq<Event>)
    requires Startable(plan) && LegalRun(plan, State(Start(now), Adding), es)
    requires !AfterRun(plan, State(Start(now), Adding), es).stage.Exited?
    ensures var s := AfterRun(plan, State(Start(now), Adding), es);
            && LegalRun(plan, s, [Signal] + more)
            && AfterRun(plan, s, [Signal] + more).stage.Exited?
            && AfterRun(plan, s, [Signal] + more).pool.now == s.pool.now
  {
    hide LegalRun, AfterRun, Inv;
    InvStart(plan, now);
    GoodRun(plan, State(Start(now), Adding), es);
    var s := AfterRun(plan, State(Start(now), Adding), es);
    GoodNext(plan, s, Signal);
    more := AddsAndJoins(plan, Next(plan, s, Signal));
    ConsEvent(plan, s, Signal, more);
  }

  /** The loops are cancelled exactly when a signal has come. */
  lemma {:induction false} CancelledIffSignalled(plan: Plan, s: State, es: seq<Event>)
    requires LegalRun(plan, s, es)
    ensures AfterRun(plan, s, es).pool.cancelled <==> s.pool.cancelled || Signal in es
    decreases |es|
  {
    hide Can, Do;
    if es != [] {
      CancelledIffSignalled(plan, Next(plan, s, es[0]), es[1..]);
    }
  }
}
