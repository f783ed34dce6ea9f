/**
 The sticky ICMP switch shared by all ping checks (`fillPing`, `markICMPDisabledOnce`): an atomic
 flag and a once-only warning, used without any lock around the two.
 */
module Icmp {
  /** Cleared: found the flag false, no pinger made yet.  Denied: a pinger failed for lack of
      privilege.  Marked: the flag has been stored, the once-only warning is next.  Warning: inside
      the once-only function. */
  datatype Phase = Idle | Cleared | Pinging | Denied | Marked | Warning | Skipping

  datatype Once = Fresh | Running(i: nat) | Over

  /** What fillPing i reported: a successful skip, a measurement, or another failure. */
  datatype Report = Skipped(i: nat) | Measured(i: nat) | Failed(i: nat)

  datatype State = State(disabled: bool, once: Once, warnings: nat, pingers: nat,
                         phases: seq<Phase>, reports: seq<Report>)

  datatype Event =
    | Load(i: nat) | Create(i: nat) | Deny(i: nat) | Succeed(i: nat) | Break(i: nat)
    | Mark(i: nat) | EnterOnce(i: nat) | Warn(i: nat) | PassOnce(i: nat) | Skip(i: nat)

  function Start(n: nat): State {
    State(false, Fresh, 0, 0, seq(n, _ => Idle), [])
  }

  predicate Can(s: State, e: Event) {
    && e.i < |s.phases|
    && match e
       case Load(i) => s.phases[i].Idle?
       case Create(i) => s.phases[i].Cleared?
       case Deny(i) => s.phases[i].Cleared? || s.phases[i].Pinging?
       case Succeed(i) => s.phases[i].Pinging?
       case Break(i) => s.phases[i].Cleared? || s.phases[i].Pinging?
       case Mark(i) => s.phases[i].Denied?
       case EnterOnce(i) => s.phases[i].Marked? && s.once.Fresh?
       case Warn(i) => s.phases[i].Warning?
       case PassOnce(i) => s.phases[i].Marked? && s.once.Over?
       case Skip(i) => s.phases[i].Skipping?
  }

  function Do(s: State, e: Event): State
    requires Can(s, e)
  {
    var at := (p: Phase) => s.phases[e.i := p];
    match e
    case Load(i) => s.(phases := at(if s.disabled then Skipping else Cleared))
    case Create(i) => s.(phases := at(Pinging), pingers := s.pingers + 1)
    case Deny(i) => s.(phases := at(Denied))
    case Succeed(i) => s.(phases := at(Idle), reports := s.reports + [Measured(i)])
    case Break(i) => s.(phases := at(Idle), reports := s.reports + [Failed(i)])
    case Mark(i) => s.(phases := at(Marked), disabled := true)
    case EnterOnce(i) => s.(phases := at(Warning), once := Running(i))
    case Warn(i) => s.(phases := at(Skipping), warnings := s.warnings + 1, once := Over)
    case PassOnce(i) => s.(phases := at(Skipping))
    case Skip(i) => s.(phases := at(Idle), reports := s.reports + [Skipped(i)])
  }

  ghost predicate Inv(s: State) {
    && s.warnings == (if s.once.Over? then 1 else 0)
    && (!s.once.Fresh? ==> s.disabled)
    && (s.once.Running? ==> s.once.i < |s.phases| && s.phases[s.once.i].Warning?)
    && (forall i | 0 <= i < |s.phases| :: s.phases[i].Warning? ==> s.once == Running(i))
    && (forall i | 0 <= i < |s.phases| :: s.phases[i].Marked? ==> s.disabled)
    && (s.disabled && s.once.Fresh? ==> exists i :: 0 <= i < |s.phases| && s.phases[i].Marked?)
  }

  lemma InvDo(s: State, e: Event)
    requires Inv(s) && Can(s, e)
    ensures Inv(Do(s, e))
    ensures s.disabled ==> Do(s, e).disabled
  {
    var s' := Do(s, e);
    if s'.disabled && s'.once.Fresh? {
      if e.Mark? {
        assert s'.phases[e.i].Marked?;
      } else {
        var i :| 0 <= i < |s.phases| && s.phases[i].Marked?;
        assert s'.phases[i].Marked?;
      }
    }
  }

  predicate Legal(s: State, es: seq<Event>)
    decreases |es|
  {
    es == [] || (Can(s, es[0]) && Legal(Do(s, es[0]), es[1..]))
  }

  function After(s: State, es: seq<Event>): State
    requires Legal(s, es)
    decreases |es|
  {
    if es == [] then s else After(Do(s, es[0]), es[1..])
  }

  lemma {:induction false} InvAfter(s: State, es: seq<Event>)
    requires Inv(s) && Legal(s, es)
    ensures Inv(After(s, es))
    ensures s.disabled ==> After(s, es).disabled
    decreases |es|
  {
    if es != [] {
      InvDo(s, es[0]);
      InvAfter(Do(s, es[0]), es[1..]);
    }
  }

  /** Whatever the interleaving: the warning comes at most once and only when the switch is off, and
      a switch that is off while nobody is on the way to warn has been announced. */
  lemma WarnedOnce(n: nat, es: seq<Event>)
    requires Legal(Start(n), es)
    ensures var s := After(Start(n), es);
            && s.warnings <= 1
            && (s.warnings == 1 ==> s.disabled)
            && (s.disabled && (forall i | 0 <= i < |s.phases| :: !s.phases[i].Marked? && !s.phases[i].Warning?)
                ==> s.warnings == 1)
  {
    InvAfter(Start(n), es);
  }

  /** The number of checks that found the switch still on and have not made their pinger yet. */
  function Ahead(ps: seq<Phase>): nat {
    if ps == [] then 0 else Ahead(ps[..|ps| - 1]) + if ps[|ps| - 1].Cleared? then 1 else 0
  }

  lemma {:induction false} AheadUpdate(ps: seq<Phase>, i: nat, p: Phase)
    requires i < |ps|
    ensures Ahead(ps[i := p]) == Ahead(ps) - (if ps[i].Cleared? then 1 else 0) + (if p.Cleared? then 1 else 0)
  {
    var n := |ps| - 1;
    if i < n {
      assert ps[i := p][..n] == ps[..n][i := p];
      AheadUpdate(ps[..n], i, p);
    } else {
      assert ps[i := p][..n] == ps[..n];
    }
  }

  /** Sticky: once the switch is off it stays off, and over the whole rest of the run at most as
      many pingers are made as checks had found it still on before. */
  lemma {:induction false} StaysDisabled(s: State, es: seq<Event>)
    requires Inv(s) && s.disabled && Legal(s, es)
    ensures var s' := After(s, es);
            s'.disabled && s'.pingers + Ahead(s'.phases) <= s.pingers + Ahead(s.phases)
    decreases |es|
  {
    if es != [] {
      var s1 := Do(s, es[0]);
      AheadUpdate(s.phases, es[0].i, s1.phases[es[0].i]);
      InvDo(s, es[0]);
      StaysDisabled(s1, es[1..]);
    }
  }

  // ----- looking after the store

  /** From report n on, check i has reported nothing but skips. */
  ghost predicate OnlySkips(reports: seq<Report>, n: nat, i: nat) {
    forall k | n <= k < |reports| && reports[k].i == i :: reports[k].Skipped?
  }

  predicate InPing(s: State, i: nat)
    requires i < |s.phases|
  {
    s.phases[i].Cleared? || s.phases[i].Pinging?
  }

  /** With the switch off, a check that is not inside a ping reports nothing but skips from then on. */
  lemma {:induction false} SkipsFromNow(s: State, es: seq<Event>, i: nat)
    requires s.disabled && i < |s.phases| && !InPing(s, i) && Legal(s, es)
    ensures s.reports <= After(s, es).reports && OnlySkips(After(s, es).reports, |s.reports|, i)
    decreases |es|
  {
    if es != [] {
      var s1 := Do(s, es[0]);
      assert OnlySkips(s1.reports, |s.reports|, i);
      SkipsFromNow(s1, es[1..], i);
    }
  }

  /** With the switch off, a check that has not just found it on makes no pinger any more. */
  lemma {:induction false} NoPingerFromNow(s: State, es: seq<Event>, i: nat)
    requires s.disabled && i < |s.phases| && !s.phases[i].Cleared? && Legal(s, es)
    ensures Create(i) !in es
    decreases |es|
  {
    if es != [] {
      NoPingerFromNow(Do(s, es[0]), es[1..], i);
    }
  }

  lemma OneEvent(s: State, e: Event)
    requires Can(s, e)
    ensures Legal(s, [e]) && After(s, [e]) == Do(s, e)
  {
    assert [e][1..] == [];
  }

  /** Both exactly: with the switch off, a check can still report something else than a skip if and
      only if it is inside a ping, and can still make a pinger if and only if it has found the switch
      on and not made it yet. */
  lemma LateChecksIff(s: State, i: nat)
    requires s.disabled && i < |s.phases|
    ensures (forall es | Legal(s, es) :: OnlySkips(After(s, es).reports, |s.reports|, i)) <==> !InPing(s, i)
    ensures (forall es | Legal(s, es) :: Create(i) !in es) <==> !s.phases[i].Cleared?
  {
    hide Legal, After;
    if InPing(s, i) {
      OneEvent(s, Break(i));
      assert After(s, [Break(i)]).reports[|s.reports|] == Failed(i);
      assert !OnlySkips(After(s, [Break(i)]).reports, |s.reports|, i);
    } else {
      forall es | Legal(s, es) ensures OnlySkips(After(s, es).reports, |s.reports|, i) {
        SkipsFromNow(s, es, i);
      }
    }
    if s.phases[i].Cleared? {
      OneEvent(s, Create(i));
      assert Create(i) in [Create(i)];
    } else {
      forall es | Legal(s, es) ensures Create(i) !in es {
        NoPingerFromNow(s, es, i);
      }
    }
  }

  lemma {:induction false} Splits(s: State, es: seq<Event>, k: nat)
    requires Legal(s, es) && k <= |es|
    ensures Legal(s, es[..k]) && Legal(After(s, es[..k]), es[k..])
    ensures After(After(s, es[..k]), es[k..]) == After(s, es)
    ensures |After(s, es[..k]).phases| == |s.phases|
    decreases k
  {
    hide Can, Do;
    if k == 0 {
      assert es[..0] == [] && es[0..] == es;
    } else {
      assert es[..k][1..] == es[1..][..k - 1] && es[1..][k - 1..] == es[k..];
      KeepsChecks(s, es[0]);
      Splits(Do(s, es[0]), es[1..], k - 1);
    }
  }

  lemma KeepsChecks(s: State, e: Event)
    requires Can(s, e)
    ensures |Do(s, e).phases| == |s.phases| && (s.disabled || e.Mark? ==> Do(s, e).disabled)
  {
  }

  lemma {:induction false} StoreShows(s: State, es: seq<Event>)
    requires Legal(s, es) && (s.disabled || exists m :: 0 <= m < |es| && es[m].Mark?)
    ensures After(s, es).disabled
    decreases |es|
  {
    hide Can, Do;
    if es != [] {
      KeepsChecks(s, es[0]);
      if m :| 0 <= m < |es| && es[m].Mark? && m > 0 && !s.disabled {
        assert es[1..][m - 1].Mark?;
      }
      StoreShows(Do(s, es[0]), es[1..]);
    }
  }

  /** In any run, a check whose load of the flag comes after some store of it makes no pinger from
      there on, and reports nothing but successful skips. */
  lemma LoadAfterStore(n: nat, es: seq<Event>, m: nat, l: nat, i: nat)
    requires Legal(Start(n), es) && m < l < |es| && es[m].Mark? && es[l] == Load(i)
    ensures Create(i) !in es[l..]
    ensures Legal(Start(n), es[..l])
         && var before, after := After(Start(n), es[..l]).reports, After(Start(n), es).reports;
            before <= after && OnlySkips(after, |before|, i)
  {
    Splits(Start(n), es, l);
    assert es[..l][m].Mark?;
    StoreShows(Start(n), es[..l]);
    var s := After(Start(n), es[..l]);
    assert es[l..][0] == Load(i);
    NoPingerFromNow(s, es[l..], i);
    SkipsFromNow(s, es[l..], i);
  }

  // ----- a skip before the warning

  ghost predicate Skips(s: State) {
    exists r :: r in s.reports && r.Skipped?
  }

  /** A single check never reports a skip before its own warning is out. */
  ghost predicate WarnsFirst(s: State) {
    && |s.phases| == 1
    && (s.phases[0].Skipping? || Skips(s) ==> s.warnings == 1)
  }

  lemma {:induction false} WarnsFirstAfter(s: State, es: seq<Event>)
    requires Inv(s) && WarnsFirst(s) && Legal(s, es)
    ensures WarnsFirst(After(s, es))
    decreases |es|
  {
    if es != [] {
      InvDo(s, es[0]);
      WarnsFirstStep(s, es[0]);
      hide Inv, Can, Do, WarnsFirst;
      WarnsFirstAfter(Do(s, es[0]), es[1..]);
    }
  }

  lemma WarnsFirstStep(s: State, e: Event)
    requires Inv(s) && WarnsFirst(s) && Can(s, e)
    ensures WarnsFirst(Do(s, e))
  {
    var s' := Do(s, e);
    if Skips(s') {
      var r :| r in s'.reports && r.Skipped?;
      assert r in s.reports || e.Skip?;
    }
  }

  /** One check stores the flag, another finds it set and reports its skip, and the warning is still
      to come. */
  lemma SkipBeforeWarning(n: nat)
    requires n >= 2
    ensures var es := [Load(0), Deny(0), Mark(0), Load(1), Skip(1)];
            && Legal(Start(n), es)
            && After(Start(n), es).warnings == 0
            && After(Start(n), es).reports == [Skipped(1)]
  {
    var s0 := Start(n);
    var s1 := Do(s0, Load(0));
    var s2 := Do(s1, Deny(0));
    var s3 := Do(s2, Mark(0));
    var s4 := Do(s3, Load(1));
    var s5 := Do(s4, Skip(1));
    hide Can, Do;
    OneEvent(s4, Skip(1));
    assert [Load(0), Deny(0), Mark(0), Load(1), Skip(1)][1..] == [Deny(0), Mark(0), Load(1), Skip(1)];
    assert [Deny(0), Mark(0), Load(1), Skip(1)][1..] == [Mark(0), Load(1), Skip(1)];
    assert [Mark(0), Load(1), Skip(1)][1..] == [Load(1), Skip(1)];
    assert [Load(1), Skip(1)][1..] == [Skip(1)];
  }

  lemma NobodyRuns(es: seq<Event>)
    requires Legal(Start(0), es)
    ensures es == []
  {
  }

  /** Exactly when: some run reports a skip before the warning if and only if there are at least two
      ping checks. */
  lemma SkipBeforeWarningIff(n: nat)
    ensures (exists es :: Legal(Start(n), es) && After(Start(n), es).warnings == 0 && Skips(After(Start(n), es)))
       <==> n >= 2
  {
    if n >= 2 {
      SkipBeforeWarning(n);
      var es := [Load(0), Deny(0), Mark(0), Load(1), Skip(1)];
      assert Skipped(1) in After(Start(n), es).reports;
    } else {
      forall es | Legal(Start(n), es) ensures After(Start(n), es).warnings == 0 ==> !Skips(After(Start(n), es)) {
        if n == 1 {
          WarnsFirstAfter(Start(n), es);
        } else {
          NobodyRuns(es);
        }
      }
    }
  }

  /** And whenever a check is about to report a skip before the warning is out, another check has
      stored the flag and is on its way to warn. */
  lemma AnnouncedSoon(n: nat, es: seq<Event>, i: nat) returns (j: nat)
    requires Legal(Start(n), es)
    requires var s := After(Start(n), es);
             i < |s.phases| && s.phases[i].Skipping? && s.warnings == 0
    ensures var s := After(Start(n), es);
            s.disabled && j < |s.phases| && j != i && (s.phases[j].Marked? || s.phases[j].Warning?)
  {
    InvAfter(Start(n), es);
    SkippersKnowAfter(Start(n), es);
    var s := After(Start(n), es);
    if s.once.Running? {
      j := s.once.i;
    } else {
      j :| 0 <= j < |s.phases| && s.phases[j].Marked?;
    }
  }

  predicate SkippersKnow(s: State) {
    forall k | 0 <= k < |s.phases| :: s.phases[k].Skipping? ==> s.disabled
  }

  lemma {:induction false} SkippersKnowAfter(s: State, es: seq<Event>)
    requires Inv(s) && SkippersKnow(s) && Legal(s, es)
    ensures SkippersKnow(After(s, es))
    decreases |es|
  {
    if es != [] {
      InvDo(s, es[0]);
      SkippersKnowStep(s, es[0]);
      hide Inv, SkippersKnow, Can, Do;
      SkippersKnowAfter(Do(s, es[0]), es[1..]);
    }
  }

  lemma SkippersKnowStep(s: State, e: Event)
    requires Inv(s) && SkippersKnow(s) && Can(s, e)
    ensures SkippersKnow(Do(s, e))
  {
  }

  // ----- one report per ping

  function Loads(es: seq<Event>): nat {
    if es == [] then 0 else (if es[0].Load? then 1 else 0) + Loads(es[1..])
  }

  function Creates(es: seq<Event>): nat {
    if es == [] then 0 else (if es[0].Create? then 1 else 0) + Creates(es[1..])
  }

  function UnderWay(ps: seq<Phase>): nat {
    if ps == [] then 0 else UnderWay(ps[..|ps| - 1]) + if ps[|ps| - 1].Idle? then 0 else 1
  }

  lemma {:induction false} UnderWayUpdate(ps: seq<Phase>, i: nat, p: Phase)
    requires i < |ps|
    ensures UnderWay(ps[i := p]) == UnderWay(ps) - (if ps[i].Idle? then 0 else 1) + (if p.Idle? then 0 else 1)
  {
    var n := |ps| - 1;
    if i < n {
      assert ps[i := p][..n] == ps[..n][i := p];
      UnderWayUpdate(ps[..n], i, p);
    } else {
      assert ps[i := p][..n] == ps[..n];
    }
  }

  /** Every ping that has looked at the switch is under way or has made exactly one report, and the
      pingers are those that were made. */
  lemma {:induction false} EveryPingReports(s: State, es: seq<Event>)
    requires Legal(s, es)
    ensures var s' := After(s, es);
            && |s'.reports| + UnderWay(s'.phases) == |s.reports| + UnderWay(s.phases) + Loads(es)
            && s'.pingers == s.pingers + Creates(es)
    decreases |es|
  {
    if es != [] {
      var s1 := Do(s, es[0]);
      UnderWayUpdate(s.phases, es[0].i, s1.phases[es[0].i]);
      EveryPingReports(s1, es[1..]);
    }
  }

  /** What the pings of a run have to tell: a measurement, another failure, or a skip. */
  function Told(es: seq<Event>): seq<Report> {
    if es == [] then []
    else
      (match es[0]
       case Succeed(i) => [Measured(i)]
       case Break(i) => [Failed(i)]
       case Skip(i) => [Skipped(i)]
       case _ => []) + Told(es[1..])
  }

  /** The reports are those of the pings that ended, in order: only a pinger that ran gives a
      measurement, only a check that found or set the switch gives a skip. */
  lemma {:induction false} ReportsTell(s: State, es: seq<Event>)
    requires Legal(s, es)
    ensures After(s, es).reports == s.reports + Told(es)
    decreases |es|
  {
    if es != [] {
      ReportsTell(Do(s, es[0]), es[1..]);
    }
  }
}
