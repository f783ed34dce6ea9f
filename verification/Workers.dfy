/**
 The per-check loops (`runLoop`) under their shared cancel context and WaitGroup.  A loop runs its
 check, hands the record to the logger, and then waits for a tick or for cancellation; its ticker
 holds at most one tick and drops the rest.  The supervisors that start and stop the loops are in
 `Interactive` and `Service`.
 */
module Workers {
  import opened Options

  /** Spawned: the goroutine exists.  Busy: the check runs, or is bound to.  Wrote: its record has
      been handed to the logger.  Waiting: about to look at its select.  Parked: it found nothing
      ready there and sleeps.  Returned: runLoop has returned or is bound to, wg.Done has not run. */
  datatype Phase = Spawned | Busy | Wrote | Waiting | Parked | Returned | Finished

  /** A running ticker: when it was made, the index of the last tick it produced, and the tick that
      waits in its one-place channel. */
  datatype Ticker = Ticker(start: int, fired: nat, pending: Option<nat>)

  /** `used` lists the ticks the loop has consumed, `born` is when it was started. */
  datatype Worker = Worker(phase: Phase, ticker: Option<Ticker>, used: seq<nat>, runs: nat, writes: nat, born: int)

  function Newborn(now: int): Worker {
    Worker(Spawned, None, [], 0, 0, now)
  }

  /** The configured checks: their intervals, and whether each is to run just once. */
  datatype Plan = Plan(once: bool, intervals: seq<int>)

  /** `log` lists, per record handed to the logger, which check it came from. */
  datatype Pool = Pool(now: int, cancelled: bool, workers: seq<Worker>, wg: int, log: seq<nat>)

  datatype Act =
    | Begin(i: nat) | Write(i: nat) | Settle(i: nat) | Take(i: nat) | Leave(i: nat) | Park(i: nat) | Done(i: nat)
    | Fire(i: nat, k: nat) | Advance(t: nat)

  /** NewTicker panics on an interval that is not positive. */
  predicate PlanOk(plan: Plan) {
    forall i | 0 <= i < |plan.intervals| :: plan.intervals[i] > 0
  }

  /** In once mode no ticker is made. */
  predicate Startable(plan: Plan) {
    plan.once || PlanOk(plan)
  }

  function Start(now: int): Pool {
    Pool(now, false, [], 0, [])
  }

  // ----- steps

  function Spawn(p: Pool): Pool {
    p.(workers := p.workers + [Newborn(p.now)], wg := p.wg + 1)
  }

  /** Cancelling wakes the loops that sleep in their select, and nothing else can wake those again. */
  function Released(w: Worker): Worker {
    if w.phase.Parked? then w.(phase := Returned) else w
  }

  function Cancel(p: Pool): (p': Pool)
    ensures |p'.workers| == |p.workers|
  {
    p.(cancelled := true,
       workers := seq(|p.workers|, k requires 0 <= k < |p.workers| => Released(p.workers[k])))
  }

  /** A select with something ready takes one of those cases; otherwise the loop goes to sleep. */

  predicate CanMove(plan: Plan, p: Pool, w: Worker, a: Act) {
    match a
    case Begin(_) => w.phase.Spawned?
    case Write(_) => w.phase.Busy?
    case Settle(_) => w.phase.Wrote?
    case Take(_) => w.phase.Waiting? && w.ticker.Some? && w.ticker.value.pending.Some?
    case Leave(_) => w.phase.Waiting? && p.cancelled
    case Park(_) => w.phase.Waiting? && !p.cancelled && w.ticker.Some? && w.ticker.value.pending.None?
    case Done(_) => w.phase.Returned?
    case Fire(i, k) =>
      && i < |plan.intervals|
      && w.ticker.Some? && !w.phase.Returned? && !w.phase.Finished?
      && k > w.ticker.value.fired
      && k * plan.intervals[i] <= p.now - w.ticker.value.start
    case Advance(_) => true
  }

  function Move(plan: Plan, now: int, w: Worker, a: Act): Worker {
    match a
    case Begin(_) => w.(phase := Busy, runs := w.runs + 1)
    case Write(_) => w.(phase := Wrote, writes := w.writes + 1)
    case Settle(_) =>
      if plan.once then w.(phase := Returned)
      else if w.ticker.None? then w.(phase := Waiting, ticker := Some(Ticker(now, 0, None)))
      else w.(phase := Waiting)
    case Take(_) =>
      if w.ticker.Some? && w.ticker.value.pending.Some? then
        w.(phase := Busy, runs := w.runs + 1,
           ticker := Some(w.ticker.value.(pending := None)),
           used := w.used + [w.ticker.value.pending.value])
      else w
    case Leave(_) => w.(phase := Returned)
    case Park(_) => w.(phase := Parked)
    case Done(_) => w.(phase := Finished)
    case Fire(_, k) =>
      if w.ticker.Some? then
        var t := w.ticker.value;
        if w.phase.Parked? then
          w.(phase := Busy, runs := w.runs + 1, ticker := Some(Ticker(t.start, k, None)), used := w.used + [k])
        else
          w.(ticker := Some(Ticker(t.start, k, if t.pending.Some? then t.pending else Some(k))))
      else w
    case Advance(_) => w
  }

  predicate Can(plan: Plan, p: Pool, a: Act) {
    a.Advance? || (a.i < |p.workers| && CanMove(plan, p, p.workers[a.i], a))
  }

  function Do(plan: Plan, p: Pool, a: Act): (p': Pool)
    requires Can(plan, p, a)
    ensures |p'.workers| == |p.workers| && p'.cancelled == p.cancelled && p'.now >= p.now
  {
    if a.Advance? then p.(now := p.now + a.t)
    else
      Pool(p.now, p.cancelled,
           p.workers[a.i := Move(plan, p.now, p.workers[a.i], a)],
           if a.Done? then p.wg - 1 else p.wg,
           if a.Write? then p.log + [a.i] else p.log)
  }

  // ----- the invariant

  function Live(ws: seq<Worker>): nat {
    if ws == [] then 0 else Live(ws[..|ws| - 1]) + (if ws[|ws| - 1].phase.Finished? then 0 else 1)
  }

  ghost predicate Rising(s: seq<nat>) {
    forall i, j | 0 <= i < j < |s| :: s[i] < s[j]
  }

  ghost predicate TickerOk(now: int, interval: int, t: Ticker, used: seq<nat>) {
    && t.fired * interval <= now - t.start
    && |used| + (if t.pending.Some? then 1 else 0) <= t.fired
    && Rising(used)
    && (forall x | x in used :: x <= t.fired)
    && (t.pending.Some? ==> t.pending.value <= t.fired && forall x | x in used :: x < t.pending.value)
  }

  ghost predicate WorkerOk(plan: Plan, now: int, cancelled: bool, interval: int, w: Worker) {
    && (if w.phase.Spawned? then w.runs == 0 else w.runs == 1 + |w.used|)
    && w.runs == w.writes + (if w.phase.Busy? then 1 else 0)
    && w.born <= now && (w.ticker.Some? ==> w.born <= w.ticker.value.start <= now)
    && (w.ticker.None? ==> w.used == [] && !w.phase.Waiting? && !w.phase.Parked?)
    && (w.phase.Parked? ==> !cancelled && w.ticker.Some? && w.ticker.value.pending.None?)
    && (w.ticker.Some? ==> !plan.once && !w.phase.Spawned? && TickerOk(now, interval, w.ticker.value, w.used))
    && (w.phase.Returned? || w.phase.Finished? ==> plan.once || cancelled)
  }

  ghost predicate Inv(plan: Plan, p: Pool) {
    && Startable(plan)
    && |p.workers| <= |plan.intervals|
    && p.wg == Live(p.workers)
    && (forall i | 0 <= i < |p.workers| ::
          WorkerOk(plan, p.now, p.cancelled, plan.intervals[i], p.workers[i]))
    && Accounted(p.workers, p.log)
  }

  /** Every record handed to the logger is counted by the loop it came from. */
  ghost predicate Accounted(ws: seq<Worker>, log: seq<nat>) {
    forall i: nat :: multiset(log)[i] == if i < |ws| then ws[i].writes else 0
  }

  lemma {:induction false} LiveUpdate(ws: seq<Worker>, i: nat, w: Worker)
    requires i < |ws|
    ensures Live(ws[i := w])
         == Live(ws) - (if ws[i].phase.Finished? then 0 else 1) + (if w.phase.Finished? then 0 else 1)
  {
    var n := |ws| - 1;
    if i < n {
      assert ws[i := w][..n] == ws[..n][i := w];
      LiveUpdate(ws[..n], i, w);
    } else {
      assert ws[i := w][..n] == ws[..n];
    }
  }

  lemma {:induction false} LiveZero(ws: seq<Worker>)
    ensures Live(ws) == 0 <==> forall i | 0 <= i < |ws| :: ws[i].phase.Finished?
  {
    if ws != [] {
      LiveZero(ws[..|ws| - 1]);
      assert ws == ws[..|ws| - 1] + [ws[|ws| - 1]];
    }
  }

  lemma InvStart(plan: Plan, now: int)
    requires Startable(plan)
    ensures Inv(plan, Start(now))
  {
  }

  lemma InvSpawn(plan: Plan, p: Pool)
    requires Inv(plan, p) && |p.workers| < |plan.intervals|
    ensures Inv(plan, Spawn(p))
  {
    assert Spawn(p).workers[..|p.workers|] == p.workers;
  }

  lemma {:induction false} LiveSame(ws: seq<Worker>, ws': seq<Worker>)
    requires |ws'| == |ws| && forall i | 0 <= i < |ws| :: ws'[i].phase.Finished? <==> ws[i].phase.Finished?
    ensures Live(ws') == Live(ws)
  {
    if ws != [] { LiveSame(ws[..|ws| - 1], ws'[..|ws| - 1]); }
  }

  lemma InvCancel(plan: Plan, p: Pool)
    requires Inv(plan, p)
    ensures Inv(plan, Cancel(p))
  {
    hide Live;
    LiveSame(p.workers, Cancel(p).workers);
    forall i | 0 <= i < |p.workers|
      ensures WorkerOk(plan, p.now, true, plan.intervals[i], Released(p.workers[i]))
    {
      assert WorkerOk(plan, p.now, p.cancelled, plan.intervals[i], p.workers[i]);
    }
  }

  lemma RisingSnoc(s: seq<nat>, x: nat)
    requires Rising(s) && forall y | y in s :: y < x
    ensures Rising(s + [x])
  {
    forall i, j | 0 <= i < j < |s + [x]| ensures (s + [x])[i] < (s + [x])[j] {
      if j == |s| { assert s[i] in s; }
    }
  }

  lemma WorkerOkMove(plan: Plan, p: Pool, a: Act)
    requires Inv(plan, p) && Can(plan, p, a) && !a.Advance?
    ensures WorkerOk(plan, p.now, p.cancelled, plan.intervals[a.i],
                     Move(plan, p.now, p.workers[a.i], a))
  {
    var w := p.workers[a.i];
    assert WorkerOk(plan, p.now, p.cancelled, plan.intervals[a.i], w);
    if a.Take? {
      RisingSnoc(w.used, w.ticker.value.pending.value);
    } else if a.Fire? && w.phase.Parked? {
      RisingSnoc(w.used, a.k);
    }
  }

  lemma InvDo(plan: Plan, p: Pool, a: Act)
    requires Inv(plan, p) && Can(plan, p, a)
    ensures Inv(plan, Do(plan, p, a))
  {
    if a.Advance? {
      InvAdvance(plan, p, a.t);
    } else {
      InvMove(plan, p, a);
    }
  }

  lemma InvAdvance(plan: Plan, p: Pool, t: nat)
    requires Inv(plan, p)
    ensures Inv(plan, p.(now := p.now + t))
  {
    hide Accounted;
    forall i | 0 <= i < |p.workers|
      ensures WorkerOk(plan, p.now + t, p.cancelled, plan.intervals[i], p.workers[i])
    {
      assert WorkerOk(plan, p.now, p.cancelled, plan.intervals[i], p.workers[i]);
    }
  }

  lemma InvMove(plan: Plan, p: Pool, a: Act)
    requires Inv(plan, p) && Can(plan, p, a) && !a.Advance?
    ensures Inv(plan, Do(plan, p, a))
  {
    hide WorkerOk, Accounted, Move, CanMove, Live;
    var w, w' := p.workers[a.i], Move(plan, p.now, p.workers[a.i], a);
    WorkerOkMove(plan, p, a);
    LiveUpdate(p.workers, a.i, w');
    MoveEffect(plan, p, w, a);
    AccountedMove(p.workers, p.log, a.i, w', a.Write?);
  }

  lemma MoveEffect(plan: Plan, p: Pool, w: Worker, a: Act)
    requires CanMove(plan, p, w, a) && !a.Advance?
    ensures var w' := Move(plan, p.now, w, a);
            && w'.writes == w.writes + (if a.Write? then 1 else 0)
            && (a.Done? ==> !w.phase.Finished? && w'.phase.Finished?)
            && (!a.Done? ==> (w'.phase.Finished? <==> w.phase.Finished?))
  {
  }

  lemma AccountedMove(ws: seq<Worker>, log: seq<nat>, i: nat, w: Worker, wrote: bool)
    requires Accounted(ws, log) && i < |ws|
    requires w.writes == ws[i].writes + (if wrote then 1 else 0)
    ensures Accounted(ws[i := w], if wrote then log + [i] else log)
  {
  }

  // ----- what every reachable pool satisfies

  /** The WaitGroup counter is the number of loops that were added and have not finished, so it is
      zero exactly when all of them have. */
  lemma CounterIsLive(plan: Plan, p: Pool)
    requires Inv(plan, p)
    ensures p.wg >= 0
    ensures p.wg == 0 <==> forall i | 0 <= i < |p.workers| :: p.workers[i].phase.Finished?
  {
    LiveZero(p.workers);
  }

  /** A loop has at most one execution in flight. Its executions are its first one and one per
      consumed tick; the ticks are distinct and in order, so by time `now` there are at most
      1 + floor((now - start) / interval), where the ticker was not started before the loop. */
  lemma ExecutionBound(plan: Plan, p: Pool, i: nat)
    requires Inv(plan, p) && i < |p.workers| && p.workers[i].ticker.Some?
    ensures var w, t := p.workers[i], p.workers[i].ticker.value;
            && w.runs == 1 + |w.used| && Rising(w.used)
            && w.writes <= w.runs <= w.writes + 1
            && w.born <= t.start <= p.now
            && w.runs <= 1 + (p.now - t.start) / plan.intervals[i]
            && w.runs <= 1 + (p.now - w.born) / plan.intervals[i]
  {
    var w, t := p.workers[i], p.workers[i].ticker.value;
    assert WorkerOk(plan, p.now, p.cancelled, plan.intervals[i], w);
    QuotientBound(t.fired, plan.intervals[i], p.now - t.start);
    QuotientBound(t.fired, plan.intervals[i], p.now - w.born);
  }

  lemma QuotientBound(k: nat, d: int, n: int)
    requires d > 0 && k * d <= n
    ensures k <= n / d
  {
    var q, r := n / d, n % d;
    assert n == q * d + r && r < d;
    if q < k {
      assert (q + 1) * d <= k * d by { ScaleUp(q + 1, k, d); }
    }
  }

  lemma ScaleUp(x: int, y: int, d: int)
    requires x <= y && d > 0
    ensures x * d <= y * d
  {
  }

  /** What a pass of the select yields. */
  datatype Choice = Cancelled | Tick

  /** runLoop by itself, for the choices its select makes: it executes once, and then, unless in
      once mode, once more per tick until the first cancellation it sees. */
  method RunLoop(once: bool, choices: seq<Choice>) returns (executions: nat)
    requires Cancelled in choices
    ensures once ==> executions == 1
    ensures !once ==> 1 <= executions <= |choices| && choices[executions - 1] == Cancelled
    ensures !once ==> Cancelled !in choices[..executions - 1]
  {
    executions := 1;
    if once { return; }
    var next := 0;
    while choices[next].Tick?
      invariant next < |choices| && executions == 1 + next
      invariant Cancelled !in choices[..next]
      decreases |choices| - next
    {
      assert choices[..next + 1] == choices[..next] + [choices[next]];
      assert choices == choices[..next + 1] + choices[next + 1..];
      executions := executions + 1;
      next := next + 1;
    }
  }

  // ----- winding down

  /** How many steps a loop can still take without another tick. */
  function Rank(w: Worker): nat {
    match w.phase
    case Finished => 0
    case Returned => 1
    case Parked => 2
    case Waiting => 3 + Backlog(w)
    case Wrote => 4 + Backlog(w)
    case Busy => 5 + Backlog(w)
    case Spawned => 6 + Backlog(w)
  }

  function Backlog(w: Worker): nat {
    if w.ticker.Some? && w.ticker.value.pending.Some? then 3 else 0
  }

  function TotalRank(ws: seq<Worker>): nat {
    if ws == [] then 0 else TotalRank(ws[..|ws| - 1]) + Rank(ws[|ws| - 1])
  }

  lemma {:induction false} TotalRankUpdate(ws: seq<Worker>, i: nat, w: Worker)
    requires i < |ws|
    ensures TotalRank(ws[i := w]) == TotalRank(ws) - Rank(ws[i]) + Rank(w)
  {
    var n := |ws| - 1;
    if i < n {
      assert ws[i := w][..n] == ws[..n][i := w];
      TotalRankUpdate(ws[..n], i, w);
    } else {
      assert ws[i := w][..n] == ws[..n];
    }
  }

  /** Every step of a loop uses up rank; only a new tick adds some. */
  lemma StepUsesRank(plan: Plan, p: Pool, a: Act)
    requires Can(plan, p, a)
    ensures a.Advance? ==> TotalRank(Do(plan, p, a).workers) == TotalRank(p.workers)
    ensures a.Fire? ==> TotalRank(Do(plan, p, a).workers) <= TotalRank(p.workers) + 3
    ensures !a.Advance? && !a.Fire? ==> TotalRank(Do(plan, p, a).workers) < TotalRank(p.workers)
  {
    if !a.Advance? {
      TotalRankUpdate(p.workers, a.i, Move(plan, p.now, p.workers[a.i], a));
    }
  }

  predicate Legal(plan: Plan, p: Pool, acts: seq<Act>)
    decreases |acts|
  {
    acts == [] || (Can(plan, p, acts[0]) && Legal(plan, Do(plan, p, acts[0]), acts[1..]))
  }

  function After(plan: Plan, p: Pool, acts: seq<Act>): Pool
    requires Legal(plan, p, acts)
    decreases |acts|
  {
    if acts == [] then p else After(plan, Do(plan, p, acts[0]), acts[1..])
  }

  function Ticks(acts: seq<Act>): nat {
    if acts == [] then 0 else (if acts[0].Fire? then 1 else 0) + Ticks(acts[1..])
  }

  function Steps(acts: seq<Act>): nat {
    if acts == [] then 0
    else (if acts[0].Fire? || acts[0].Advance? then 0 else 1) + Steps(acts[1..])
  }

  /** In any run the loops take at most as many steps as their rank, plus three per tick. */
  lemma {:induction false} RunUsesRank(plan: Plan, p: Pool, acts: seq<Act>)
    requires Legal(plan, p, acts)
    ensures Steps(acts) + TotalRank(After(plan, p, acts).workers) <= TotalRank(p.workers) + 3 * Ticks(acts)
    decreases |acts|
  {
    if acts != [] {
      StepUsesRank(plan, p, acts[0]);
      RunUsesRank(plan, Do(plan, p, acts[0]), acts[1..]);
    }
  }

  /** After cancellation, or in once mode, a loop that has not finished always has a step to take:
      together with the bound above, every loop finishes. */
  lemma NeverStuck(plan: Plan, p: Pool, i: nat) returns (a: Act)
    requires Inv(plan, p) && (p.cancelled || plan.once)
    requires i < |p.workers| && !p.workers[i].phase.Finished?
    ensures !a.Advance? && !a.Fire? && a.i == i && Can(plan, p, a)
  {
    var w := p.workers[i];
    assert WorkerOk(plan, p.now, p.cancelled, plan.intervals[i], w);
    match w.phase
    case Spawned => a := Begin(i);
    case Busy => a := Write(i);
    case Wrote => a := Settle(i);
    case Waiting => a := Leave(i);
    case Parked => assert false;
    case Returned => a := Done(i);
  }

  /** So after cancellation, or in once mode, the loops can always run to their end without any
      further tick, within their rank. */
  lemma {:induction false} Drains(plan: Plan, p: Pool) returns (acts: seq<Act>)
    requires Inv(plan, p) && (p.cancelled || plan.once)
    ensures Legal(plan, p, acts) && Ticks(acts) == 0 && |acts| <= TotalRank(p.workers)
    ensures forall i | 0 <= i < |After(plan, p, acts).workers| :: After(plan, p, acts).workers[i].phase.Finished?
    ensures After(plan, p, acts).wg == 0 && After(plan, p, acts).now == p.now
    decreases TotalRank(p.workers)
  {
    acts := [];
    CounterIsLive(plan, p);
    if i :| 0 <= i < |p.workers| && !p.workers[i].phase.Finished? {
      var a := NeverStuck(plan, p, i);
      StepUsesRank(plan, p, a);
      InvDo(plan, p, a);
      hide Inv, Can, Do, TotalRank;
      var rest := Drains(plan, Do(plan, p, a));
      Cons(plan, p, a, rest);
      acts := [a] + rest;
      assert acts[1..] == rest;
    }
  }

  // ----- executions still to come

  /** The ticks that a run's ticker of loop i produces. */
  function TicksOf(acts: seq<Act>, i: nat): nat {
    if acts == [] then 0 else (if acts[0].Fire? && acts[0].i == i then 1 else 0) + TicksOf(acts[1..], i)
  }

  /** Executions begun, the first one if it is still to come, and one if a tick is waiting. */
  function Owed(w: Worker): nat {
    w.runs + (if w.phase.Spawned? then 1 else 0)
      + (if w.ticker.Some? && w.ticker.value.pending.Some? then 1 else 0)
  }

  lemma StepOwes(plan: Plan, p: Pool, a: Act, i: nat)
    requires Can(plan, p, a) && i < |p.workers|
    ensures Owed(Do(plan, p, a).workers[i]) <= Owed(p.workers[i]) + (if a.Fire? && a.i == i then 1 else 0)
  {
  }

  /** From any point on, cancellation included, a loop begins at most as many executions as it
      owes, plus one per further tick of its own ticker. */
  lemma {:induction false} ExecutionsToCome(plan: Plan, p: Pool, acts: seq<Act>, i: nat)
    requires Legal(plan, p, acts) && i < |p.workers|
    ensures |After(plan, p, acts).workers| == |p.workers|
    ensures After(plan, p, acts).workers[i].runs <= Owed(p.workers[i]) + TicksOf(acts, i)
    ensures Owed(After(plan, p, acts).workers[i]) <= Owed(p.workers[i]) + TicksOf(acts, i)
    decreases |acts|
  {
    if acts != [] {
      StepOwes(plan, p, acts[0], i);
      hide Can, Do, Owed;
      ExecutionsToCome(plan, Do(plan, p, acts[0]), acts[1..], i);
    }
  }

  /** A loop that has come to its select with no tick waiting, or has left it. */
  predicate AtRest(w: Worker) {
    || (w.phase.Waiting? && (w.ticker.None? || w.ticker.value.pending.None?))
    || w.phase.Parked? || w.phase.Returned? || w.phase.Finished?
  }

  lemma RestStep(plan: Plan, p: Pool, a: Act, i: nat)
    requires Can(plan, p, a) && i < |p.workers| && AtRest(p.workers[i]) && !(a.Fire? && a.i == i)
    ensures var w, w' := p.workers[i], Do(plan, p, a).workers[i];
            && AtRest(w') && w'.runs == w.runs && w'.writes == w.writes
            && (InSelect(w') || p.cancelled || !InSelect(w))
  {
  }

  predicate InSelect(w: Worker) {
    w.phase.Waiting? || w.phase.Parked?
  }

  /** A loop at its select with no tick waiting does nothing in any run that brings it no further
      tick: it stays there until it leaves, and it leaves only if the context is cancelled; it runs
      no check and writes no record. */
  lemma {:induction false} RestsOrLeaves(plan: Plan, p: Pool, acts: seq<Act>, i: nat)
    requires Legal(plan, p, acts) && i < |p.workers| && AtRest(p.workers[i]) && TicksOf(acts, i) == 0
    ensures |After(plan, p, acts).workers| == |p.workers|
    ensures var w, w' := p.workers[i], After(plan, p, acts).workers[i];
            && AtRest(w') && w'.runs == w.runs && w'.writes == w.writes
            && (!p.cancelled && InSelect(w) ==> InSelect(w'))
    decreases |acts|
  {
    if acts != [] {
      RestStep(plan, p, acts[0], i);
      hide Can, Do, AtRest, InSelect;
      RestsOrLeaves(plan, Do(plan, p, acts[0]), acts[1..], i);
    }
  }

  // ----- silence

  predicate Left(w: Worker) {
    w.phase.Returned? || w.phase.Finished?
  }

  predicate AllLeft(p: Pool) {
    forall i | 0 <= i < |p.workers| :: Left(p.workers[i])
  }

  lemma AllLeftStays(plan: Plan, p: Pool, a: Act)
    requires AllLeft(p) && Can(plan, p, a)
    ensures AllLeft(Do(plan, p, a)) && Do(plan, p, a).log == p.log
  {
  }

  /** A loop that has left runs and writes nothing any more, whatever ticks still come. */
  lemma {:induction false} LeftIsFinal(plan: Plan, p: Pool, acts: seq<Act>, i: nat)
    requires Legal(plan, p, acts) && i < |p.workers| && Left(p.workers[i])
    ensures |After(plan, p, acts).workers| == |p.workers|
    ensures var w, w' := p.workers[i], After(plan, p, acts).workers[i];
            Left(w') && w'.runs == w.runs && w'.writes == w.writes
    decreases |acts|
  {
    if acts != [] {
      LeftIsFinal(plan, Do(plan, p, acts[0]), acts[1..], i);
    }
  }

  /** A step that loop i takes itself. */
  predicate OwnStep(a: Act, i: nat) {
    !a.Advance? && !a.Fire? && a.i == i
  }

  /** The ticker's channel holds one tick and drops what comes while it is full: a waiting tick stays
      the same until the loop itself takes a step. */
  lemma {:induction false} WaitingTickStays(plan: Plan, p: Pool, acts: seq<Act>, i: nat)
    requires Legal(plan, p, acts) && i < |p.workers| && forall a | a in acts :: !OwnStep(a, i)
    requires p.workers[i].ticker.Some? && p.workers[i].ticker.value.pending.Some? && !p.workers[i].phase.Parked?
    ensures |After(plan, p, acts).workers| == |p.workers|
    ensures var w, w' := p.workers[i], After(plan, p, acts).workers[i];
            w'.ticker.Some? && w'.ticker.value.pending == w.ticker.value.pending
    decreases |acts|
  {
    if acts != [] {
      assert acts[0] in acts;
      TickKept(plan, p, acts[0], i);
      hide Can, Do;
      WaitingTickStays(plan, Do(plan, p, acts[0]), acts[1..], i);
    }
  }

  lemma TickKept(plan: Plan, p: Pool, a: Act, i: nat)
    requires Can(plan, p, a) && i < |p.workers| && !OwnStep(a, i)
    requires p.workers[i].ticker.Some? && p.workers[i].ticker.value.pending.Some? && !p.workers[i].phase.Parked?
    ensures var w, w' := p.workers[i], Do(plan, p, a).workers[i];
            && w'.ticker.Some? && w'.ticker.value.pending == w.ticker.value.pending
            && !w'.phase.Parked?
  {
  }

  /** After cancellation a loop leaves at its first select that finds no tick waiting: if that is
      what it does next, then whatever comes later, ticks included, it begins no further execution
      and writes no further record. */
  lemma LeavesAtEmptySelect(plan: Plan, p: Pool, acts: seq<Act>, i: nat)
    requires Legal(plan, p, acts) && acts != [] && OwnStep(acts[0], i) && i < |p.workers|
    requires var w := p.workers[i];
             p.cancelled && w.phase.Waiting? && (w.ticker.None? || w.ticker.value.pending.None?)
    ensures |After(plan, p, acts).workers| == |p.workers|
    ensures var w, w' := p.workers[i], After(plan, p, acts).workers[i];
            Left(w') && w'.runs == w.runs && w'.writes == w.writes
  {
    LeftIsFinal(plan, Do(plan, p, acts[0]), acts[1..], i);
  }

  /** And a loop that sleeps in its select when the cancellation comes begins no further execution
      and writes no further record either. */
  lemma ParkedIsReleased(plan: Plan, p: Pool, acts: seq<Act>, i: nat)
    requires i < |p.workers| && p.workers[i].phase.Parked? && Legal(plan, Cancel(p), acts)
    ensures |After(plan, Cancel(p), acts).workers| == |p.workers|
    ensures var w, w' := p.workers[i], After(plan, Cancel(p), acts).workers[i];
            Left(w') && w'.runs == w.runs && w'.writes == w.writes
  {
    LeftIsFinal(plan, Cancel(p), acts, i);
  }

  /** Any other loop can be driven, by time and ticks, to hand over one more record, cancelled or
      not: a select that finds a tick waiting may prefer it. */
  lemma CanStillWrite(plan: Plan, p: Pool, i: nat) returns (acts: seq<Act>)
    requires Inv(plan, p) && !plan.once && i < |p.workers| && !Left(p.workers[i])
    ensures Legal(plan, p, acts) && After(plan, p, acts).log == p.log + [i]
  {
    hide WorkerOk, Legal, After, Inv;
    var w := p.workers[i];
    match w.phase
    case Busy =>
      acts := FromBusy(plan, p, i);
    case Spawned =>
      acts := FromBusy(plan, Do(plan, p, Begin(i)), i);
      Cons(plan, p, Begin(i), acts);
      acts := [Begin(i)] + acts;
    case Waiting | Parked =>
      acts := FromSelect(plan, p, i);
    case Wrote =>
      InvDo(plan, p, Settle(i));
      acts := FromSelect(plan, Do(plan, p, Settle(i)), i);
      Cons(plan, p, Settle(i), acts);
      acts := [Settle(i)] + acts;
  }

  /** So a loop can still hand over a record exactly when it has not left. */
  lemma CanStillWriteIff(plan: Plan, p: Pool, i: nat)
    requires Inv(plan, p) && !plan.once && i < |p.workers|
    ensures !Left(p.workers[i])
       <==> exists acts :: Legal(plan, p, acts) && multiset(After(plan, p, acts).log)[i] > multiset(p.log)[i]
  {
    hide Inv, Legal, After;
    if Left(p.workers[i]) {
      forall acts | Legal(plan, p, acts) ensures multiset(After(plan, p, acts).log)[i] == multiset(p.log)[i] {
        LeftIsFinal(plan, p, acts, i);
        WritesAreLogged(plan, p, acts, i);
      }
    } else {
      var acts := CanStillWrite(plan, p, i);
      assert multiset(p.log + [i])[i] == multiset(p.log)[i] + 1;
    }
  }

  lemma WritesAreLogged(plan: Plan, p: Pool, acts: seq<Act>, i: nat)
    requires Inv(plan, p) && Legal(plan, p, acts) && i < |p.workers|
    ensures |After(plan, p, acts).workers| == |p.workers|
    ensures multiset(p.log)[i] == p.workers[i].writes
    ensures multiset(After(plan, p, acts).log)[i] == After(plan, p, acts).workers[i].writes
  {
    InvAfterActs(plan, p, acts);
  }

  lemma {:induction false} InvAfterActs(plan: Plan, p: Pool, acts: seq<Act>)
    requires Inv(plan, p) && Legal(plan, p, acts)
    ensures Inv(plan, After(plan, p, acts)) && |After(plan, p, acts).workers| == |p.workers|
    decreases |acts|
  {
    hide Inv, Can, Do;
    if acts != [] {
      InvDo(plan, p, acts[0]);
      InvAfterActs(plan, Do(plan, p, acts[0]), acts[1..]);
    }
  }

  lemma Cons(plan: Plan, p: Pool, a: Act, acts: seq<Act>)
    requires Can(plan, p, a) && Legal(plan, Do(plan, p, a), acts)
    ensures Legal(plan, p, [a] + acts)
    ensures After(plan, p, [a] + acts) == After(plan, Do(plan, p, a), acts)
  {
    hide Can, Do;
    assert ([a] + acts)[1..] == acts;
  }

  lemma FromBusy(plan: Plan, p: Pool, i: nat) returns (acts: seq<Act>)
    requires i < |p.workers| && p.workers[i].phase.Busy?
    ensures Legal(plan, p, acts) && After(plan, p, acts).log == p.log + [i]
  {
    acts := [Write(i)];
    assert acts[1..] == [];
  }

  lemma FromSelect(plan: Plan, p: Pool, i: nat) returns (acts: seq<Act>)
    requires Inv(plan, p) && !plan.once && i < |p.workers| && InSelect(p.workers[i])
    ensures Legal(plan, p, acts) && After(plan, p, acts).log == p.log + [i]
  {
    hide Legal, After, Accounted, Live;
    var w := p.workers[i];
    assert WorkerOk(plan, p.now, p.cancelled, plan.intervals[i], w);
    if w.ticker.value.pending.Some? {
      acts := FromPending(plan, p, i);
    } else {
      var k, d := w.ticker.value.fired + 1, plan.intervals[i];
      assert k * d == w.ticker.value.fired * d + d;
      acts := FromEmpty(plan, p, i, k, d);
    }
  }

  lemma FromPending(plan: Plan, p: Pool, i: nat) returns (acts: seq<Act>)
    requires i < |p.workers| && Can(plan, p, Take(i))
    ensures Legal(plan, p, acts) && After(plan, p, acts).log == p.log + [i]
  {
    hide Legal, After;
    acts := FromBusy(plan, Do(plan, p, Take(i)), i);
    Cons(plan, p, Take(i), acts);
    acts := [Take(i)] + acts;
  }

  lemma FromEmpty(plan: Plan, p: Pool, i: nat, k: nat, d: nat) returns (acts: seq<Act>)
    requires i < |p.workers| && InSelect(p.workers[i]) && p.workers[i].ticker.Some?
    requires var t := p.workers[i].ticker.value;
             t.pending.None? && k > t.fired && i < |plan.intervals| && k * plan.intervals[i] <= p.now + d - t.start
    ensures Legal(plan, p, acts) && After(plan, p, acts).log == p.log + [i]
  {
    hide Legal, After;
    var p1 := Do(plan, p, Advance(d));
    var p2 := Do(plan, p1, Fire(i, k));
    if p.workers[i].phase.Parked? {
      acts := FromBusy(plan, p2, i);
    } else {
      acts := FromPending(plan, p2, i);
    }
    Cons(plan, p1, Fire(i, k), acts);
    Cons(plan, p, Advance(d), [Fire(i, k)] + acts);
    acts := [Advance(d)] + ([Fire(i, k)] + acts);
  }
}
