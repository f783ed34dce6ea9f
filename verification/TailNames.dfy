/**
 What sharing a name does to log_tail checks.  The cursor table is keyed by name, and loading does
 not make names distinct.  Checks are independent exactly when their names are; to be given every
 byte at most once, exactly those that may open a common file need different names.
 */
module TailNames {
  import opened Lines
  import opened Options
  import opened LogTail
  import opened TailProtocol
  import opened TailSystem
  import opened TailFiles

  // ----- a run of one check, as a run of all

  function Lift(evs: seq<SoloEvent>, i: nat): seq<Event> {
    if evs == [] then []
    else [if evs[0].FileEv? then File(evs[0].e) else Act(i, evs[0].a)] + Lift(evs[1..], i)
  }

  predicate NoCut(evs: seq<SoloEvent>) {
    forall k | 0 <= k < |evs| :: evs[k].FileEv? ==> evs[k].e.Append?
  }

  /** Nothing of the other checks' own state changes. */
  ghost predicate OthersSame(w: World, w': World, i: nat) {
    |w'.locals| == |w.locals| && forall k | 0 <= k < |w.locals| && k != i :: w'.locals[k] == w.locals[k]
  }

  lemma StepLifted(names: seq<string>, w: World, ev: SoloEvent, i: nat)
    requires i < |names| == |w.locals| && EnabledAlone(Alone(names, w, i), ev)
    ensures var e := if ev.FileEv? then File(ev.e) else Act(i, ev.a);
            && Enabled(names, w, e)
            && Alone(names, Step(names, w, e), i) == StepAlone(Alone(names, w, i), ev)
            && ((ev.FileEv? ==> ev.e.Append?) ==> OthersSame(w, Step(names, w, e), i))
  {
    hide Can, Happens;
    if ev.Own? {
      KeepsCursor(w.disk, View(names, w, i), ev.a);
    }
  }

  /** While only check i acts, it runs as it would alone, whatever the names. */
  lemma {:induction false} RunLifted(names: seq<string>, w: World, evs: seq<SoloEvent>, i: nat)
    requires i < |names| == |w.locals| && LegalAlone(Alone(names, w, i), evs) && NoCut(evs)
    ensures Legal(names, w, Lift(evs, i))
    ensures var w' := After(names, w, Lift(evs, i));
            Alone(names, w', i) == AfterAlone(Alone(names, w, i), evs) && OthersSame(w, w', i)
    decreases |evs|
  {
    hide EnabledAlone, StepAlone, Enabled, Step, Alone;
    if evs != [] {
      var e := if evs[0].FileEv? then File(evs[0].e) else Act(i, evs[0].a);
      StepLifted(names, w, evs[0], i);
      RunLifted(names, Step(names, w, e), evs[1..], i);
      assert ([e] + Lift(evs[1..], i))[1..] == Lift(evs[1..], i);
    }
  }

  lemma {:induction false} RunsJoin(names: seq<string>, w: World, xs: seq<Event>, ys: seq<Event>)
    requires Legal(names, w, xs) && Legal(names, After(names, w, xs), ys)
    ensures Legal(names, w, xs + ys)
    ensures After(names, w, xs + ys) == After(names, After(names, w, xs), ys)
    decreases |xs|
  {
    hide Enabled, Step;
    if xs == [] {
      assert xs + ys == ys;
    } else {
      assert (xs + ys)[1..] == xs[1..] + ys;
      RunsJoin(names, Step(names, w, xs[0]), xs[1..], ys);
    }
  }

  /** An empty file, should there be none at p yet. */
  function Creation(p: string): FileEvent {
    Append(p, [])
  }

  lemma FileFirst(names: seq<string>, d: Disk, p: string, evs: seq<Event>)
    requires Legal(names, Start(names, Happens(d, Creation(p))), evs)
    ensures var run := [File(Creation(p))] + evs;
            && Legal(names, Start(names, d), run)
            && After(names, Start(names, d), run) == After(names, Start(names, Happens(d, Creation(p))), evs)
  {
    var e := File(Creation(p));
    assert Step(names, Start(names, d), e).locals == Start(names, d).locals;
    assert ([e] + evs)[1..] == evs;
  }

  predicate OpensOnly(evs: seq<SoloEvent>, p: string) {
    forall ev | ev in evs :: ev.Own? && ev.a.Open? ==> ev.a.path == p
  }

  lemma {:induction false} LiftConfined(may: seq<iset<string>>, evs: seq<SoloEvent>, p: string, i: nat)
    requires i < |may| && p in may[i] && OpensOnly(evs, p)
    ensures Confined(may, Lift(evs, i))
  {
    if evs != [] {
      assert evs[0] in evs;
      LiftConfined(may, evs[1..], p, i);
    }
  }

  // ----- one file, two checks, one name

  /** The first three steps of a scanning tick, and what comes after them. */
  function Begin(p: string, evs: seq<SoloEvent>): seq<SoloEvent> {
    [Own(Open(p))] + ([Own(Look)] + ([Own(Seek)] + evs))
  }

  lemma BeginRun(s: Solo, p: string, offset: nat, evs: seq<SoloEvent>)
    requires p in s.disk.files && s.check.phase.Idle?
    requires s.check.cursor == Some(TailState(p, offset)) && offset <= |FileAt(s.disk, p)|
    requires LegalAlone(Solo(s.disk, s.check.(phase := Reading(p, offset, []))), evs)
    ensures LegalAlone(s, Begin(p, evs))
    ensures AfterAlone(s, Begin(p, evs)) == AfterAlone(Solo(s.disk, s.check.(phase := Reading(p, offset, []))), evs)
  {
    hide LegalAlone, AfterAlone;
    var s1 := StepAlone(s, Own(Open(p)));
    var s2 := StepAlone(s1, Own(Look));
    ConsRun(s2, Own(Seek), evs);
    ConsRun(s1, Own(Look), [Own(Seek)] + evs);
    ConsRun(s, Own(Open(p)), [Own(Look)] + ([Own(Seek)] + evs));
  }

  /** Check i takes its baseline of file p and is about to read; check j has not run yet. */
  lemma SlowReader(names: seq<string>, may: seq<iset<string>>, d: Disk, p: string, i: nat, j: nat)
    returns (evs: seq<Event>)
    requires p in d.files && i < |names| && j < |names| && i != j && names[i] == names[j]
    requires |may| == |names| && p in may[i]
    ensures Legal(names, Start(names, d), evs) && Confined(may, evs)
    ensures var w, n := After(names, Start(names, d), evs), |d.files[p]|;
            && w.disk == d
            && View(names, w, i).phase == Reading(p, n, [])
            && View(names, w, j) == Check(Some(TailState(p, n)), Idle, FRESH.hist)
  {
    hide LegalAlone, AfterAlone, Legal, After, Do, Can;
    var w, s, n := Start(names, d), Solo(d, Baselined(d, p)), |d.files[p]|;
    EmptyRun(Solo(d, s.check.(phase := Reading(p, n, []))));
    BeginRun(s, p, n, []);
    BaselineRun(d, p, Begin(p, []));
    var run := [Own(Open(p))] + ([Own(Look)] + ([Own(Rebaseline)] + Begin(p, [])));
    assert Alone(names, w, i) == Solo(d, FRESH);
    RunLifted(names, w, run, i);
    LiftConfined(may, run, p, i);
    evs := Lift(run, i);
  }

  /** The file grows, and a check that had read it to the end scans the new bytes and stores its
      cursor. */
  lemma GrowAndScan(s: Solo, p: string, data: seq<byte>) returns (run: seq<SoloEvent>)
    requires p in s.disk.files && data != [] && Fits(data, MAX_LINE)
    requires s.check == Check(Some(TailState(p, |FileAt(s.disk, p)|)), Idle, FRESH.hist)
    ensures NoCut(run) && OpensOnly(run, p) && LegalAlone(s, run)
    ensures var s' := AfterAlone(s, run);
            && s'.disk == Happens(s.disk, Append(p, data))
            && s'.check.phase.Idle?
            && s'.check.hist.delivered == Ids(Written(data, s.disk.nextId))
  {
    hide LegalAlone, AfterAlone, Lines.Scan, Lines.IndexLF;
    var grow, read := FileEv(Append(p, data)), Own(Read(|data|));
    var n := |FileAt(s.disk, p)|;
    var s1 := StepAlone(s, grow);
    AppendedSlice(s.disk, p, data);
    var s2 := Solo(s1.disk, s1.check.(phase := Reading(p, n, [])));
    var s3 := StepAlone(s2, read);
    EmptyRun(StepAlone(s3, Own(Finish)));
    ConsRun(s3, Own(Finish), []);
    ConsRun(s2, read, [Own(Finish)] + []);
    BeginRun(s1, p, n, [read] + ([Own(Finish)] + []));
    ConsRun(s, grow, Begin(p, [read] + ([Own(Finish)] + [])));
    run := [grow] + Begin(p, [read] + ([Own(Finish)] + []));
  }

  /** Meanwhile check j does that. */
  lemma FastReader(names: seq<string>, may: seq<iset<string>>, w: World, p: string, data: seq<byte>, j: nat)
    returns (evs: seq<Event>)
    requires j < |names| == |w.locals| && p in w.disk.files && data != [] && Fits(data, MAX_LINE)
    requires View(names, w, j) == Check(Some(TailState(p, |FileAt(w.disk, p)|)), Idle, FRESH.hist)
    requires |may| == |names| && p in may[j]
    ensures Legal(names, w, evs) && Confined(may, evs)
    ensures var w' := After(names, w, evs);
            && w'.disk == Happens(w.disk, Append(p, data))
            && View(names, w', j).phase.Idle?
            && View(names, w', j).hist.delivered == Ids(Written(data, w.disk.nextId))
            && OthersSame(w, w', j)
  {
    hide LegalAlone, AfterAlone, Legal, After, Happens, Written, Fits, NoCut, OpensOnly;
    var run := GrowAndScan(Alone(names, w, j), p, data);
    RunLifted(names, w, run, j);
    LiftConfined(may, run, p, j);
    evs := Lift(run, j);
  }

  /** The bytes just appended are what a reader at the old end of the file gets. */
  lemma AppendedSlice(d: Disk, p: string, data: seq<byte>)
    requires Fits(data, MAX_LINE)
    ensures var f, n := FileAt(Happens(d, Append(p, data)), p), |FileAt(d, p)|;
            && |f| == n + |data| && f[n..n + |data|] == Written(data, d.nextId)
            && Bytes([] + f[n..n + |data|]) == data
    ensures WithinBuffer(data) && Fits([], MAX_LINE) && Bytes([]) == []
  {
    hide Lines.Scan, Lines.IndexLF;
    ConsumedBounds(data, MAX_LINE);
    ScanNothing(MAX_LINE);
    assert [] + Written(data, d.nextId) == Written(data, d.nextId);
  }

  /** Then check i stores its own cursor, which moves the shared one back; check j begins its next
      tick there. */
  lemma CursorMovesBack(names: seq<string>, may: seq<iset<string>>, w: World, p: string, n: nat, i: nat, j: nat)
    returns (evs: seq<Event>)
    requires i < |names| == |w.locals| && j < |names| && i != j && names[i] == names[j]
    requires p in w.disk.files && n <= |FileAt(w.disk, p)|
    requires View(names, w, i).phase == Reading(p, n, []) && View(names, w, j).phase.Idle?
    requires |may| == |names| && p in may[i] && p in may[j]
    ensures Legal(names, w, evs) && Confined(may, evs)
    ensures var w' := After(names, w, evs);
            && w'.disk == w.disk
            && View(names, w', j) == Check(Some(TailState(p, n)), Reading(p, n, []), View(names, w, j).hist)
  {
    hide LegalAlone, AfterAlone, Legal, After, Lines.Scan, Lines.IndexLF;
    assert Bytes([]) == [];
    var s := Alone(names, w, i);
    EmptyRun(StepAlone(s, Own(Finish)));
    ConsRun(s, Own(Finish), []);
    var store := [Own(Finish)] + [];
    RunLifted(names, w, store, i);
    var w1 := After(names, w, Lift(store, i));
    var t := Alone(names, w1, j);
    EmptyRun(Solo(t.disk, t.check.(phase := Reading(p, n, []))));
    BeginRun(t, p, n, []);
    RunLifted(names, w1, Begin(p, []), j);
    RunsJoin(names, w, Lift(store, i), Lift(Begin(p, []), j));
    LiftConfined(may, store, p, i);
    LiftConfined(may, Begin(p, []), p, j);
    evs := Lift(store, i) + Lift(Begin(p, []), j);
  }

  /** Two checks under one name on one file, as two unnamed log_tail checks with different patterns
      are: whatever the file holds and whatever is appended to it, in this run check j is about to
      be given a second time exactly the bytes that it has been given already. */
  lemma SharedFileIsReread(names: seq<string>, may: seq<iset<string>>, d: Disk, p: string, data: seq<byte>,
                           i: nat, j: nat) returns (evs: seq<Event>)
    requires p in d.files && i < |names| && j < |names| && i != j && names[i] == names[j]
    requires data != [] && Fits(data, MAX_LINE)
    requires |may| == |names| && p in may[i] && p in may[j]
    ensures Legal(names, Start(names, d), evs) && Confined(may, evs)
    ensures var w := After(names, Start(names, d), evs);
            var c := View(names, w, j);
            && Can(w.disk, c, Read(|data|))
            && c.hist.delivered == Ids(Written(data, d.nextId))
            && Do(w.disk, c, Read(|data|)).hist.delivered == c.hist.delivered + c.hist.delivered
            && Ids(FileAt(w.disk, c.phase.path)[Front(c)..Front(c) + |data|]) == c.hist.delivered
  {
    hide Legal, After, Lines.Scan, Lines.IndexLF, Allowed;
    var n := |d.files[p]|;
    var a := SlowReader(names, may, d, p, i, j);
    var w1 := After(names, Start(names, d), a);
    var b := FastReader(names, may, w1, p, data, j);
    var w2 := After(names, w1, b);
    AppendedSlice(d, p, data);
    var c := CursorMovesBack(names, may, w2, p, n, i, j);
    RunsJoin(names, w1, b, c);
    RunsJoin(names, Start(names, d), a, b + c);
    evs := a + (b + c);
  }

  // ----- independence, exactly

  /** Check i has lived through the run as it would have alone against the same file changes. */
  ghost predicate OnItsOwn(names: seq<string>, d: Disk, evs: seq<Event>, i: nat)
    requires i < |names| && Legal(names, Start(names, d), evs)
  {
    var w := Start(names, d);
    && LegalAlone(Alone(names, w, i), Project(evs, i))
    && AfterAlone(Alone(names, w, i), Project(evs, i)) == Alone(names, After(names, w, evs), i)
  }

  /** A baseline of check j is a cursor of check i, which has not run at all. */
  lemma SharedNameInterferes(names: seq<string>, may: seq<iset<string>>, d: Disk, p: string, i: nat, j: nat)
    returns (evs: seq<Event>)
    requires i < |names| && j < |names| && i != j && names[i] == names[j]
    requires |may| == |names| && p in may[j]
    ensures Legal(names, Start(names, d), evs) && Confined(may, evs) && !OnItsOwn(names, d, evs, i)
  {
    hide LegalAlone, AfterAlone, Legal, After, Do, Can, Allowed;
    var d' := Happens(d, Creation(p));
    var w := Start(names, d');
    var run := [Own(Open(p))] + ([Own(Look)] + ([Own(Rebaseline)] + []));
    EmptyRun(Solo(d', Baselined(d', p)));
    BaselineRun(d', p, []);
    assert Alone(names, w, j) == Solo(d', FRESH);
    RunLifted(names, w, run, j);
    LiftConfined(may, run, p, j);
    FileFirst(names, d, p, Lift(run, j));
    evs := [File(Creation(p))] + Lift(run, j);
    CreationAllowed(may, p);
    OnlyOthersAct(names, d, p, run, i, j);
  }

  lemma CreationAllowed(may: seq<iset<string>>, p: string)
    ensures Allowed(may, File(Creation(p)))
  {
  }

  lemma {:induction false} ProjectOthers(run: seq<SoloEvent>, i: nat, j: nat)
    requires i != j && forall k | 0 <= k < |run| :: run[k].Own?
    ensures Project(Lift(run, j), i) == []
  {
    if run != [] { ProjectOthers(run[1..], i, j); }
  }

  lemma OnlyOthersAct(names: seq<string>, d: Disk, p: string, run: seq<SoloEvent>, i: nat, j: nat)
    requires i < |names| && i != j && forall k | 0 <= k < |run| :: run[k].Own?
    ensures var w, es := Start(names, d), Project([File(Creation(p))] + Lift(run, j), i);
            && LegalAlone(Alone(names, w, i), es)
            && AfterAlone(Alone(names, w, i), es).check == FRESH
  {
    hide LegalAlone, AfterAlone;
    var e := FileEv(Creation(p));
    ProjectOthers(run, i, j);
    assert Project([File(Creation(p))] + Lift(run, j), i) == [e] + [];
    var s := Alone(names, Start(names, d), i);
    EmptyRun(StepAlone(s, e));
    ConsRun(s, e, []);
  }

  /** Non-interference, exactly: whatever files each check may open, as long as there are any, every
      check lives through every run as it would have alone if and only if no two checks share a
      name. */
  lemma IndependentIff(names: seq<string>, may: seq<iset<string>>, d: Disk)
    requires |may| == |names| && forall k | 0 <= k < |may| :: may[k] != iset{}
    ensures Distinct(names)
       <==> forall evs: seq<Event>, i: nat
              | i < |names| && Legal(names, Start(names, d), evs) && Confined(may, evs) ::
              OnItsOwn(names, d, evs, i)
  {
    hide LegalAlone, AfterAlone, Legal, After, Confined;
    if Distinct(names) {
      forall evs: seq<Event>, i: nat | i < |names| && Legal(names, Start(names, d), evs)
        ensures OnItsOwn(names, d, evs, i)
      {
        NonInterference(names, Start(names, d), evs, i);
      }
    } else {
      var i, j :| 0 <= i < j < |names| && names[i] == names[j];
      var p :| p in may[j];
      var evs := SharedNameInterferes(names, may, d, p, i, j);
    }
  }

  // ----- at most once, exactly

  /** Two checks of one name that may both open file p: a run in which the second is about to be
      given, and then is given, a byte for the second time. */
  lemma SharedNameRereads(names: seq<string>, may: seq<iset<string>>, d: Disk, p: string, i: nat, j: nat)
    returns (evs: seq<Event>, more: seq<Event>)
    requires i < |names| && j < |names| && i != j && names[i] == names[j]
    requires |may| == |names| && p in may[i] && p in may[j]
    ensures Legal(names, Start(names, d), evs) && Confined(may, evs) && !NextReadIsNew(names, d, evs, j)
    ensures Legal(names, Start(names, d), more) && Confined(may, more) && !NoDup(DeliveredTo(names, d, more, j))
  {
    hide Legal, After, LegalAlone, AfterAlone, Lines.Scan, Lines.IndexLF, Allowed;
    var d' := Happens(d, Creation(p));
    FitsOne();
    evs := SharedFileIsReread(names, may, d', p, [LF], i, j);
    var w := After(names, Start(names, d'), evs);
    var c := View(names, w, j);
    var ids := Ids(Written([LF], d'.nextId));
    assert ids == [d'.nextId] && (ids + ids)[0] == (ids + ids)[1];
    assert ids[0] in c.hist.delivered;
    OneStep(Alone(names, w, j), Own(Read(1)));
    RunLifted(names, w, [Own(Read(1))], j);
    LiftConfined(may, [Own(Read(1))], p, j);
    RunsJoin(names, Start(names, d'), evs, Lift([Own(Read(1))], j));
    more := evs + Lift([Own(Read(1))], j);
    FileFirst(names, d, p, evs);
    FileFirst(names, d, p, more);
    CreationAllowed(may, p);
    evs, more := [File(Creation(p))] + evs, [File(Creation(p))] + more;
  }

  lemma OneStep(s: Solo, ev: SoloEvent)
    requires EnabledAlone(s, ev)
    ensures LegalAlone(s, [ev]) && AfterAlone(s, [ev]) == StepAlone(s, ev)
  {
    hide EnabledAlone, StepAlone;
    EmptyRun(StepAlone(s, ev));
    ConsRun(s, ev, []);
    assert [ev] + [] == [ev];
  }

  lemma FitsOne()
    ensures Fits([LF], MAX_LINE)
  {
    assert [] + [LF] + [] == [LF];
    ScanLine([], [], MAX_LINE);
    ScanNothing(MAX_LINE);
  }

  /** At most once, exactly: for checks that may open the files `may`, in every run every check is
      given every written byte at most once if and only if no two checks share both their name and
      some file. */
  lemma AtMostOnceIff(names: seq<string>, may: seq<iset<string>>, d: Disk)
    requires DiskOk(d) && |may| == |names|
    ensures Apart(names, may)
       <==> forall evs: seq<Event>, i: nat
              | i < |names| && Legal(names, Start(names, d), evs) && Confined(may, evs) ::
              NoDup(DeliveredTo(names, d, evs, i))
  {
    hide Legal, After, Confined, DeliveredTo, NextReadIsNew;
    if Apart(names, may) {
      forall evs: seq<Event>, i: nat | i < |names| && Legal(names, Start(names, d), evs) && Confined(may, evs)
        ensures NoDup(DeliveredTo(names, d, evs, i))
      {
        ApartIsSafe(names, may, d, evs, i);
      }
    } else {
      var i, j :| 0 <= i < j < |names| && names[i] == names[j] && !(may[i] !! may[j]);
      var p :| p in may[i] && p in may[j];
      var _, evs := SharedNameRereads(names, may, d, p, i, j);
    }
  }

  /** Nothing old is scanned, exactly: under the same condition every read in every run brings bytes
      that the check has neither been given before nor passed over with a baseline. */
  lemma NothingOldIff(names: seq<string>, may: seq<iset<string>>, d: Disk)
    requires DiskOk(d) && |may| == |names|
    ensures Apart(names, may)
       <==> forall evs: seq<Event>, i: nat
              | i < |names| && Legal(names, Start(names, d), evs) && Confined(may, evs) ::
              NextReadIsNew(names, d, evs, i)
  {
    hide Legal, After, Confined, DeliveredTo, NextReadIsNew;
    if Apart(names, may) {
      forall evs: seq<Event>, i: nat | i < |names| && Legal(names, Start(names, d), evs) && Confined(may, evs)
        ensures NextReadIsNew(names, d, evs, i)
      {
        ApartIsSafe(names, may, d, evs, i);
      }
    } else {
      var i, j :| 0 <= i < j < |names| && names[i] == names[j] && !(may[i] !! may[j]);
      var p :| p in may[i] && p in may[j];
      var evs, _ := SharedNameRereads(names, may, d, p, i, j);
    }
  }

  // ----- one name, two files

  /** The results of ticks that share one cursor, in order. */
  function SharedTicks(st: Option<TailState>, oses: seq<Os>, hit: Line -> bool): seq<LogTail.Result>
    decreases |oses|
  {
    if oses == [] then []
    else
      var (res, st') := Tick(st, oses[0], hit);
      [res] + SharedTicks(st', oses[1..], hit)
  }

  predicate Answers(os: Os, path: string) {
    os.patternOk && os.path == Some(path) && os.opens && os.size.Some?
  }

  /** Two checks of the same name on different files, taking turns, never scan a line: each finds
      the other's path under its name and takes a fresh baseline, and every result is a success,
      whatever the files contain. */
  lemma {:induction false} SharedNameNeverScans(st: Option<TailState>, oses: seq<Os>, p: string, q: string,
                                                hit: Line -> bool)
    requires p != q
    requires st.None? || st.value.path != p
    requires forall k | 0 <= k < |oses| :: Answers(oses[k], if k % 2 == 0 then p else q)
    ensures forall r | r in SharedTicks(st, oses, hit) :: r.outcome.BaselineAt? && r.success
    decreases |oses|
  {
    if oses != [] {
      assert Answers(oses[0], p);
      forall k | 0 <= k < |oses[1..]|
        ensures Answers(oses[1..][k], if k % 2 == 0 then q else p)
      {
        assert Answers(oses[k + 1], if (k + 1) % 2 == 0 then p else q);
      }
      SharedNameNeverScans(Tick(st, oses[0], hit).1, oses[1..], q, p, hit);
    }
  }
}
