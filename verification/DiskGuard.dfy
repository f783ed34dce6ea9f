/**
 The disk guard of the logger (`diskHasRoom`): a decision cached for thirty seconds, failing open
 when the free space cannot be read, with one message on each change it notices.
 */
module DiskGuard {
  import opened Options

  const CACHE: int := 30_000_000_000  // nanoseconds

  /** What asking the volume for its free space answers. */
  datatype Probe = Free(mb: nat) | ProbeError

  /** `lastCheck` is absent before the first probe, when the zero time lies centuries back. */
  datatype Guard = Guard(lastCheck: Option<int>, full: bool)

  /** Changes of `full`: the two that print a message, and the silent one of a failed probe. */
  datatype Change = Warn | Info | SilentClear

  datatype Outcome = Outcome(guard: Guard, room: bool, probed: bool, changes: seq<Change>)

  /** The decision that a direct probe would give. */
  predicate Room(min: nat, p: Probe) {
    p.ProbeError? || p.mb >= min
  }

  function Ask(min: nat, g: Guard, now: int, p: Probe): Outcome {
    if min == 0 then Outcome(g, true, false, [])
    else if g.lastCheck.Some? && now - g.lastCheck.value < CACHE then Outcome(g, !g.full, false, [])
    else
      var full := !Room(min, p);
      Outcome(Guard(Some(now), full), !full, true,
              if p.ProbeError? then (if g.full then [SilentClear] else [])
              else if full && !g.full then [Warn]
              else if !full && g.full then [Info]
              else [])
  }

  /** One call: when it was made, and what a probe would have answered then. */
  datatype Call = Call(now: int, probe: Probe)

  /** All that a sequence of calls has done: the guard, the calls that probed, the changes, and
      the decisions. */
  datatype Log = Log(guard: Guard, probes: seq<Call>, changes: seq<Change>, decisions: seq<bool>)

  const UNUSED := Guard(None, false)

  function Extend(min: nat, before: Log, c: Call): Log {
    var o := Ask(min, before.guard, c.now, c.probe);
    Log(o.guard,
        before.probes + (if o.probed then [c] else []),
        before.changes + o.changes,
        before.decisions + [o.room])
  }

  function Run(min: nat, calls: seq<Call>): Log {
    if calls == [] then Log(UNUSED, [], [], [])
    else Extend(min, Run(min, calls[..|calls| - 1]), calls[|calls| - 1])
  }

  /** The clock that the calls read does not go back. */
  ghost predicate InOrder(calls: seq<Call>) {
    forall i, j | 0 <= i < j < |calls| :: calls[i].now <= calls[j].now
  }

  // ----- the cache against the direct probe

  ghost predicate Spaced(probes: seq<Call>) {
    forall i | 0 < i < |probes| :: probes[i].now - probes[i - 1].now >= CACHE
  }

  /** After the calls: every call got a decision, the first one probed, and the last decision is
      that of the last probe, which is not too old. */
  ghost predicate Fresh(min: nat, calls: seq<Call>, log: Log) {
    && |log.decisions| == |calls|
    && Spaced(log.probes)
    && (if calls == [] then log.probes == [] && log.guard == UNUSED
        else
          && log.probes != [] && log.probes[0] == calls[0]
          && var last := log.probes[|log.probes| - 1];
          && last in calls
          && 0 <= calls[|calls| - 1].now - last.now < CACHE
          && log.guard == Guard(Some(last.now), !Room(min, last.probe))
          && log.decisions[|log.decisions| - 1] == Room(min, last.probe))
  }

  lemma {:induction false} RunIsFresh(min: nat, calls: seq<Call>)
    requires min > 0 && InOrder(calls)
    ensures Fresh(min, calls, Run(min, calls))
  {
    hide Fresh, Extend;
    if calls == [] {
      NothingIsFresh(min);
    } else {
      var n := |calls| - 1;
      RunIsFresh(min, calls[..n]);
      assert calls == calls[..n] + [calls[n]];
      ExtendIsFresh(min, calls[..n], Run(min, calls[..n]), calls[n]);
    }
  }

  lemma NothingIsFresh(min: nat)
    ensures Fresh(min, [], Log(UNUSED, [], [], []))
  {
  }

  lemma ExtendIsFresh(min: nat, calls: seq<Call>, log: Log, c: Call)
    requires min > 0 && InOrder(calls + [c]) && Fresh(min, calls, log)
    ensures Fresh(min, calls + [c], Extend(min, log, c))
  {
    if calls != [] {
      assert (calls + [c])[|calls| - 1] == calls[|calls| - 1];
    }
  }

  lemma {:induction false} DecisionsOfPrefix(min: nat, calls: seq<Call>, k: nat)
    requires k <= |calls|
    ensures |Run(min, calls).decisions| == |calls|
    ensures Run(min, calls[..k]).decisions == Run(min, calls).decisions[..k]
    ensures Run(min, calls[..k]).probes <= Run(min, calls).probes
  {
    var n := |calls| - 1;
    if k == |calls| {
      assert calls[..k] == calls;
      if calls != [] { DecisionsOfPrefix(min, calls[..n], n); }
    } else {
      assert calls[..n][..k] == calls[..k];
      DecisionsOfPrefix(min, calls[..n], k);
    }
  }

  /** The cache refines asking the disk: every decision is the one that some real probe gave, less
      than thirty seconds earlier and not later; a failed probe counts as room. */
  lemma EveryDecisionIsFresh(min: nat, calls: seq<Call>, k: nat) returns (p: Call)
    requires min > 0 && InOrder(calls) && k < |calls|
    ensures |Run(min, calls).decisions| == |calls|
    ensures p in Run(min, calls).probes
    ensures 0 <= calls[k].now - p.now < 30_000_000_000
    ensures Run(min, calls).decisions[k] <==> p.probe.ProbeError? || p.probe.mb >= min
  {
    DecisionsOfPrefix(min, calls, k + 1);
    RunIsFresh(min, calls[..k + 1]);
    var log := Run(min, calls[..k + 1]);
    p := log.probes[|log.probes| - 1];
    assert p in log.probes;
  }

  lemma {:induction false} SpanOfSpaced(probes: seq<Call>)
    requires probes != [] && Spaced(probes)
    ensures probes[|probes| - 1].now - probes[0].now >= (|probes| - 1) * CACHE
  {
    var n := |probes| - 1;
    if n > 0 {
      SpanOfSpaced(probes[..n]);
    }
  }

  /** Probes are at least thirty seconds apart, so calls that span T make at most 1 + T/30s. */
  lemma ProbeBudget(min: nat, calls: seq<Call>)
    requires min > 0 && InOrder(calls) && calls != []
    ensures forall i | 0 < i < |Run(min, calls).probes| ::
              Run(min, calls).probes[i].now - Run(min, calls).probes[i - 1].now >= 30_000_000_000
    ensures |Run(min, calls).probes| <= 1 + (calls[|calls| - 1].now - calls[0].now) / 30_000_000_000
  {
    RunIsFresh(min, calls);
    SpanOfSpaced(Run(min, calls).probes);
  }

  /** A zero threshold switches the guard off: always room, never a probe. */
  lemma {:induction false} ZeroThreshold(calls: seq<Call>)
    ensures Run(0, calls).probes == [] && Run(0, calls).changes == []
    ensures forall d | d in Run(0, calls).decisions :: d
  {
    if calls != [] {
      ZeroThreshold(calls[..|calls| - 1]);
    }
  }

  // ----- pausing and resuming

  function CountOf(changes: seq<Change>, x: Change): nat {
    multiset(changes)[x]
  }

  ghost predicate Alternating(changes: seq<Change>) {
    forall i | 0 <= i < |changes| :: changes[i].Warn? <==> i % 2 == 0
  }

  /** Warnings less everything that ended a pause. */
  function Balance(changes: seq<Change>): int {
    CountOf(changes, Warn) - CountOf(changes, Info) - CountOf(changes, SilentClear)
  }

  lemma {:induction false} RunAlternates(min: nat, calls: seq<Call>)
    ensures var log := Run(min, calls);
            && Alternating(log.changes)
            && (log.guard.full <==> |log.changes| % 2 == 1)
            && Balance(log.changes) == if log.guard.full then 1 else 0
  {
    hide Balance, Alternating;
    if calls == [] {
      NoChanges();
    } else {
      var n := |calls| - 1;
      RunAlternates(min, calls[..n]);
      var before := Run(min, calls[..n]);
      var o := Ask(min, before.guard, calls[n].now, calls[n].probe);
      if o.changes == [] {
        assert before.changes + o.changes == before.changes;
      } else {
        OneMoreChange(before.changes, o.changes[0]);
        assert o.changes == [o.changes[0]];
      }
    }
  }

  lemma NoChanges()
    ensures Alternating([]) && Balance([]) == 0
  {
  }

  lemma OneMoreChange(cs: seq<Change>, x: Change)
    requires Alternating(cs) && (x.Warn? <==> |cs| % 2 == 0)
    ensures Alternating(cs + [x])
    ensures Balance(cs + [x]) == Balance(cs) + (if x.Warn? then 1 else -1)
    ensures |cs + [x]| % 2 != |cs| % 2
  {
  }

  lemma BetweenTwo(cs: seq<Change>, i: nat, j: nat)
    requires Alternating(cs) && i < j < |cs| && (cs[i].Warn? <==> cs[j].Warn?)
    ensures i + 1 < j && (cs[i + 1].Warn? <==> !cs[i].Warn?)
  {
    assert i % 2 == j % 2;
  }

  /** Accounting of the messages after any calls: warnings, less resumptions, less the failed
      probes that silently cleared a pause, are one exactly while writing is paused.  Between two
      warnings there is a resumption or such a failed probe, and between two resumptions a
      warning. */
  lemma MessageAccounting(min: nat, calls: seq<Call>)
    ensures var log := Run(min, calls);
            && Balance(log.changes) == (if log.guard.full then 1 else 0)
            && (forall i, j | 0 <= i < j < |log.changes| && log.changes[i].Warn? && log.changes[j].Warn? ::
                  exists k :: i < k < j && !log.changes[k].Warn?)
            && (forall i, j | 0 <= i < j < |log.changes| && log.changes[i].Info? && log.changes[j].Info? ::
                  exists k :: i < k < j && log.changes[k].Warn?)
  {
    hide Run, Balance, Alternating;
    RunAlternates(min, calls);
    var cs := Run(min, calls).changes;
    forall i, j | 0 <= i < j < |cs| && cs[i].Warn? && cs[j].Warn?
      ensures exists k :: i < k < j && !cs[k].Warn?
    {
      BetweenTwo(cs, i, j);
      assert i < i + 1 < j && !cs[i + 1].Warn?;
    }
    forall i, j | 0 <= i < j < |cs| && cs[i].Info? && cs[j].Info?
      ensures exists k :: i < k < j && cs[k].Warn?
    {
      BetweenTwo(cs, i, j);
      assert i < i + 1 < j && cs[i + 1].Warn?;
    }
  }

  /** A pause can end without a message: a failed probe clears it, and the next full probe warns a
      second time although no resumption was announced. */
  lemma SecondWarningWithoutInfo(min: nat, t: int)
    requires min > 0
    ensures var calls := [Call(t, Free(0)), Call(t + CACHE, ProbeError), Call(t + 2 * CACHE, Free(0))];
            && Run(min, calls).changes == [Warn, SilentClear, Warn]
            && Run(min, calls).decisions == [false, true, false]
  {
    var c1, c2, c3 := Call(t, Free(0)), Call(t + CACHE, ProbeError), Call(t + 2 * CACHE, Free(0));
    assert [c1][..0] == [] && [c1, c2][..1] == [c1] && [c1, c2, c3][..2] == [c1, c2];
    assert Run(min, [c1]) == Log(Guard(Some(t), true), [c1], [Warn], [false]);
    assert Run(min, [c1, c2]) == Log(Guard(Some(t + CACHE), false), [c1, c2], [Warn, SilentClear], [false, true]);
  }

  // ----- the threshold from the configuration

  /** NewLogger's conversion of the configured number of megabytes to an unsigned 64-bit value. */
  function Threshold(configured: int): nat
    requires -U64 / 2 <= configured < U64 / 2
  {
    configured % U64
  }

  /** A negative threshold turns into one that no disk meets: as long as probes succeed, nothing is
      ever written. */
  lemma {:induction false} NegativeThresholdSilences(configured: int, calls: seq<Call>)
    requires -U64 / 2 <= configured < 0
    requires forall c | c in calls :: c.probe.Free? && c.probe.mb < U64 / (1024 * 1024)
    ensures forall d | d in Run(Threshold(configured), calls).decisions :: !d
    ensures calls != [] ==> Run(Threshold(configured), calls).guard.full
  {
    if calls != [] {
      assert calls[|calls| - 1] in calls;
      NegativeThresholdSilences(configured, calls[..|calls| - 1]);
    }
  }

  /** Exactly when the guard asks for what was configured: the conversion keeps the number, and every
      decision of a probe that reads the free space is that of the configured threshold, if and
      only if that is not negative. */
  lemma ThresholdIff(configured: int)
    requires -U64 / 2 <= configured < U64 / 2
    ensures Threshold(configured) == configured <==> configured >= 0
    ensures configured >= 0 <==>
              forall g: Guard, now: int, mb: nat
                | mb < U64 / (1024 * 1024) && Ask(Threshold(configured), g, now, Free(mb)).probed ::
                Ask(Threshold(configured), g, now, Free(mb)).room == (mb >= configured)
  {
    if configured < 0 {
      var o := Ask(Threshold(configured), UNUSED, 0, Free(0));
      assert o.probed && !o.room;
    }
  }
}
