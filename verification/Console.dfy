/** What the logger prints, for records of any representation. */
module Console {
  import opened DiskGuard

  datatype Out<R> = Status(record: R) | Message(change: Change) | MarshalError | WriteError

  /** The changes that print a message: a failed probe clears a pause silently. */
  function Printed(changes: seq<Change>): seq<Change> {
    if changes == [] then []
    else
      var c := changes[|changes| - 1];
      Printed(changes[..|changes| - 1]) + if c.SilentClear? then [] else [c]
  }

  function Messages<R>(changes: seq<Change>): (ms: seq<Out<R>>)
    ensures |ms| == |Printed(changes)|
  {
    var ps := Printed(changes);
    seq(|ps|, k requires 0 <= k < |ps| => Message(ps[k]))
  }

  lemma OneMessage<R>(c: Change)
    ensures Messages<R>([c]) == if c.SilentClear? then [] else [Message(c)]
  {
    assert [c][..0] == [];
    assert Printed([c]) == if c.SilentClear? then [] else [c];
  }

  // ----- two warnings in a row

  /** Two warnings are printed one right after the other. */
  ghost predicate WarnsTwice(printed: seq<Change>) {
    exists j :: WarnPairAt(printed, j)
  }

  predicate WarnPairAt(printed: seq<Change>, j: nat) {
    j + 1 < |printed| && printed[j].Warn? && printed[j + 1].Warn?
  }

  /** A pause was cleared silently, and something changed again afterwards. */
  ghost predicate ClearedThenChanged(changes: seq<Change>) {
    exists i :: ClearAt(changes, i)
  }

  predicate ClearAt(changes: seq<Change>, i: nat) {
    i + 1 < |changes| && changes[i].SilentClear?
  }

  lemma PrintedOneMore(cs: seq<Change>, x: Change)
    ensures Printed(cs + [x]) == Printed(cs) + if x.SilentClear? then [] else [x]
  {
    assert (cs + [x])[..|cs|] == cs;
  }

  /** What is printed last tells how the last change came about. */
  lemma LastPrinted(cs: seq<Change>)
    requires Alternating(cs) && cs != []
    ensures var ps := Printed(cs); ps != [] && (ps[|ps| - 1].Warn? <==> !cs[|cs| - 1].Info?)
  {
    var n := |cs| - 1;
    assert cs == cs[..n] + [cs[n]];
    PrintedOneMore(cs[..n], cs[n]);
    if cs[n].SilentClear? {
      assert n % 2 == 1 && cs[n - 1].Warn?;
      assert cs[..n] == cs[..n - 1] + [cs[n - 1]];
      PrintedOneMore(cs[..n - 1], cs[n - 1]);
    }
  }

  lemma ClearOneMore(cs: seq<Change>, x: Change)
    ensures ClearedThenChanged(cs + [x])
       <==> ClearedThenChanged(cs) || (cs != [] && cs[|cs| - 1].SilentClear?)
  {
    forall i | ClearAt(cs, i) ensures ClearAt(cs + [x], i) {
    }
    forall i | ClearAt(cs + [x], i) ensures ClearAt(cs, i) || i == |cs| - 1 {
    }
    if cs != [] && cs[|cs| - 1].SilentClear? {
      assert ClearAt(cs + [x], |cs| - 1);
    }
  }

  lemma WarnOneMore(ps: seq<Change>, x: Change)
    ensures WarnsTwice(ps + [x])
       <==> WarnsTwice(ps) || (ps != [] && ps[|ps| - 1].Warn? && x.Warn?)
  {
    forall j | WarnPairAt(ps, j) ensures WarnPairAt(ps + [x], j) {
    }
    forall j | WarnPairAt(ps + [x], j) ensures WarnPairAt(ps, j) || j == |ps| - 1 {
    }
    if ps != [] && ps[|ps| - 1].Warn? && x.Warn? {
      assert WarnPairAt(ps + [x], |ps| - 1);
    }
  }

  lemma NothingPrinted()
    ensures Printed([]) == [] && !WarnsTwice([]) && !ClearedThenChanged([])
  {
  }

  lemma {:induction false} AlternatingWarnsTwiceIff(cs: seq<Change>)
    requires Alternating(cs)
    ensures WarnsTwice(Printed(cs)) <==> ClearedThenChanged(cs)
  {
    hide Printed, WarnsTwice, ClearedThenChanged;
    if cs == [] {
      NothingPrinted();
    } else {
      var n := |cs| - 1;
      var before, x := cs[..n], cs[n];
      assert cs == before + [x];
      AlternatingWarnsTwiceIff(before);
      PrintedOneMore(before, x);
      ClearOneMore(before, x);
      WarnOneMore(Printed(before), x);
      assert Printed(before) + [] == Printed(before);
      if before != [] {
        LastPrinted(before);
        OneOfTwoWarns(cs, n);
      } else {
        NothingPrinted();
      }
    }
  }

  lemma OneOfTwoWarns(cs: seq<Change>, n: nat)
    requires Alternating(cs) && 0 < n < |cs|
    ensures cs[n].Warn? <==> !cs[n - 1].Warn?
  {
  }

  // ----- the probes behind them

  /** Probe i found too little space and the next one failed. */
  predicate ClearsAt(min: nat, probes: seq<Call>, i: nat) {
    i + 1 < |probes| && !Room(min, probes[i].probe) && probes[i + 1].probe.ProbeError?
  }

  ghost predicate Cleared(min: nat, probes: seq<Call>) {
    exists i: nat :: ClearsAt(min, probes, i)
  }

  /** Later still, a probe found too little space again. */
  ghost predicate ClearedThenFull(min: nat, probes: seq<Call>) {
    exists i: nat, j: nat :: ClearsAt(min, probes, i) && i + 1 < j < |probes| && !Room(min, probes[j].probe)
  }

  lemma ClearedOneMore(min: nat, probes: seq<Call>, c: Call)
    ensures Cleared(min, probes + [c])
       <==> Cleared(min, probes)
            || (probes != [] && !Room(min, probes[|probes| - 1].probe) && c.probe.ProbeError?)
    ensures ClearedThenFull(min, probes + [c])
       <==> ClearedThenFull(min, probes) || (Cleared(min, probes) && !Room(min, c.probe))
    ensures ClearedThenFull(min, probes) ==> Cleared(min, probes)
  {
    var more := probes + [c];
    forall i: nat | ClearsAt(min, probes, i) ensures ClearsAt(min, more, i) {
    }
    forall i: nat | ClearsAt(min, more, i) ensures ClearsAt(min, probes, i) || i == |probes| - 1 {
    }
    if probes != [] && !Room(min, probes[|probes| - 1].probe) && c.probe.ProbeError? {
      assert ClearsAt(min, more, |probes| - 1);
    }
    if ClearedThenFull(min, probes) {
      var i: nat, j: nat :| ClearsAt(min, probes, i) && i + 1 < j < |probes| && !Room(min, probes[j].probe);
      assert ClearsAt(min, more, i) && i + 1 < j < |more| && !Room(min, more[j].probe);
    }
    if Cleared(min, probes) && !Room(min, c.probe) {
      var i: nat :| ClearsAt(min, probes, i);
      assert ClearsAt(min, more, i) && i + 1 < |probes| < |more| && !Room(min, more[|probes|].probe);
    }
    if ClearedThenFull(min, more) {
      var i: nat, j: nat :| ClearsAt(min, more, i) && i + 1 < j < |more| && !Room(min, more[j].probe);
      assert ClearsAt(min, probes, i);
      if j < |probes| { assert !Room(min, probes[j].probe); }
    }
  }

  /** Some change was a silent one: the last, or one before it. */
  predicate SilentEver(cs: seq<Change>) {
    SilentClear in cs
  }

  lemma SilentOneMore(cs: seq<Change>, x: Change)
    ensures SilentEver(cs + [x]) <==> SilentEver(cs) || x.SilentClear?
    ensures ClearedThenChanged(cs + [x]) <==> SilentEver(cs)
  {
    ClearOneMore(cs, x);
    if SilentEver(cs) {
      var i :| 0 <= i < |cs| && cs[i].SilentClear?;
      assert ClearAt(cs + [x], i);
    }
  }

  /** The guard's state and its changes, from the probes it has made. */
  ghost predicate Explained(min: nat, log: Log) {
    && (log.guard.full <==> log.probes != [] && !Room(min, log.probes[|log.probes| - 1].probe))
    && (SilentEver(log.changes) <==> Cleared(min, log.probes))
    && (ClearedThenChanged(log.changes) <==> ClearedThenFull(min, log.probes))
  }

  lemma ExplainedOneMore(min: nat, log: Log, c: Call)
    requires Explained(min, log) && Alternating(log.changes)
    requires log.guard.full <==> |log.changes| % 2 == 1
    ensures Explained(min, Extend(min, log, c))
  {
    hide Cleared, ClearedThenFull, ClearedThenChanged, SilentEver;
    var o := Ask(min, log.guard, c.now, c.probe);
    assert log.probes + [] == log.probes && log.changes + [] == log.changes;
    if o.probed {
      ClearedOneMore(min, log.probes, c);
      if o.changes != [] {
        assert o.changes == [o.changes[0]];
        SilentOneMore(log.changes, o.changes[0]);
      }
      if log.guard.full {
        LastIsWarn(log.changes);
      }
    }
  }

  /** While writing is paused, the last change was the warning. */
  lemma LastIsWarn(cs: seq<Change>)
    requires Alternating(cs) && |cs| % 2 == 1
    ensures SilentEver(cs) <==> ClearedThenChanged(cs)
  {
    var n := |cs| - 1;
    assert cs == cs[..n] + [cs[n]] && cs[n].Warn?;
    SilentOneMore(cs[..n], cs[n]);
  }

  lemma {:induction false} RunIsExplained(min: nat, calls: seq<Call>)
    ensures Explained(min, Run(min, calls))
  {
    hide Explained, Extend, Alternating, Balance;
    if calls == [] {
      NothingExplained(min);
    } else {
      var n := |calls| - 1;
      RunIsExplained(min, calls[..n]);
      RunAlternates(min, calls[..n]);
      ExplainedOneMore(min, Run(min, calls[..n]), calls[n]);
    }
  }

  lemma NothingExplained(min: nat)
    ensures Explained(min, Log(UNUSED, [], [], []))
  {
  }

  /** Exactly when the console shows two warnings with no resumption between them: some probe found
      too little space, the next one failed, and a later one found too little space again. */
  lemma SecondWarningIff(min: nat, calls: seq<Call>)
    ensures WarnsTwice(Printed(Run(min, calls).changes)) <==> ClearedThenFull(min, Run(min, calls).probes)
  {
    hide Run, ClearedThenFull, Cleared, ClearedThenChanged, WarnsTwice, Printed, Alternating, Balance;
    RunAlternates(min, calls);
    AlternatingWarnsTwiceIff(Run(min, calls).changes);
    RunIsExplained(min, calls);
  }
}
