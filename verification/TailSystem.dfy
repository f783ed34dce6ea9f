/**
 All log_tail checks of a process together.  They share the files and the cursor table, and their
 steps interleave freely; only the two table accesses of a tick are under a lock.
 */
module TailSystem {
  import opened Lines
  import opened Options
  import opened LogTail
  import opened TailProtocol

  // ----- one check on its own

  datatype Solo = Solo(disk: Disk, check: Check)

  datatype SoloEvent = FileEv(e: FileEvent) | Own(a: Act)

  predicate EnabledAlone(s: Solo, ev: SoloEvent) {
    ev.Own? ==> Can(s.disk, s.check, ev.a)
  }

  function StepAlone(s: Solo, ev: SoloEvent): Solo
    requires EnabledAlone(s, ev)
  {
    match ev
    case FileEv(e) => Solo(Happens(s.disk, e), Witness(s.check, e))
    case Own(a) => Solo(s.disk, Do(s.disk, s.check, a))
  }

  predicate LegalAlone(s: Solo, evs: seq<SoloEvent>)
    decreases |evs|
  {
    evs == [] || (EnabledAlone(s, evs[0]) && LegalAlone(StepAlone(s, evs[0]), evs[1..]))
  }

  function AfterAlone(s: Solo, evs: seq<SoloEvent>): Solo
    requires LegalAlone(s, evs)
    decreases |evs|
  {
    if evs == [] then s else AfterAlone(StepAlone(s, evs[0]), evs[1..])
  }

  lemma {:induction false} InvAlone(s: Solo, evs: seq<SoloEvent>)
    requires Inv(s.disk, s.check) && LegalAlone(s, evs)
    ensures Inv(AfterAlone(s, evs).disk, AfterAlone(s, evs).check)
    decreases |evs|
  {
    hide Inv, Can, Do, Witness, Happens;
    if evs != [] {
      if evs[0].Own? {
        InvAfterAct(s.disk, s.check, evs[0].a);
      } else {
        InvAfterFileEvent(s.disk, s.check, evs[0].e);
      }
      InvAlone(StepAlone(s, evs[0]), evs[1..]);
    }
  }

  lemma InvFresh(d: Disk)
    requires DiskOk(d)
    ensures Inv(d, FRESH)
  {
    assert Bytes([]) == [] && Flatten([]) == [] && PieceLines([], MAX_LINE) == [];
  }

  // ----- all of them

  datatype Local = Local(phase: Phase, hist: History)

  datatype World = World(disk: Disk, states: map<string, TailState>, locals: seq<Local>)

  datatype Event = File(e: FileEvent) | Act(i: nat, a: Act)

  /** What check i can see of the world: its cursor is whatever the table holds under its name. */
  function View(names: seq<string>, w: World, i: nat): Check
    requires i < |names| == |w.locals|
  {
    Check(Cursor(w.states, names[i]), w.locals[i].phase, w.locals[i].hist)
  }

  predicate Enabled(names: seq<string>, w: World, ev: Event) {
    && |names| == |w.locals|
    && (ev.Act? ==> ev.i < |names| && Can(w.disk, View(names, w, ev.i), ev.a))
  }

  function Step(names: seq<string>, w: World, ev: Event): (w': World)
    requires Enabled(names, w, ev)
    ensures |w'.locals| == |w.locals|
  {
    match ev
    case File(e) =>
      World(Happens(w.disk, e), w.states,
            seq(|w.locals|, j requires 0 <= j < |w.locals| =>
              var c := Witness(View(names, w, j), e);
              Local(c.phase, c.hist)))
    case Act(i, a) =>
      var c := Do(w.disk, View(names, w, i), a);
      World(w.disk,
            if c.cursor.Some? then w.states[names[i] := c.cursor.value] else w.states,
            w.locals[i := Local(c.phase, c.hist)])
  }

  predicate Legal(names: seq<string>, w: World, evs: seq<Event>)
    decreases |evs|
  {
    evs == [] || (Enabled(names, w, evs[0]) && Legal(names, Step(names, w, evs[0]), evs[1..]))
  }

  function After(names: seq<string>, w: World, evs: seq<Event>): (w': World)
    requires Legal(names, w, evs)
    ensures |w'.locals| == |w.locals|
    decreases |evs|
  {
    if evs == [] then w else After(names, Step(names, w, evs[0]), evs[1..])
  }

  function Start(names: seq<string>, d: Disk): World {
    World(d, map[], seq(|names|, _ => Local(FRESH.phase, FRESH.hist)))
  }

  ghost predicate Distinct(names: seq<string>) {
    forall i, j | 0 <= i < j < |names| :: names[i] != names[j]
  }

  // ----- non-interference

  function Project(evs: seq<Event>, i: nat): seq<SoloEvent> {
    if evs == [] then []
    else
      var rest := Project(evs[1..], i);
      match evs[0]
      case File(e) => [FileEv(e)] + rest
      case Act(j, a) => if j == i then [Own(a)] + rest else rest
  }

  function Alone(names: seq<string>, w: World, i: nat): Solo
    requires i < |names| == |w.locals|
  {
    Solo(w.disk, View(names, w, i))
  }

  lemma StepSeenBy(names: seq<string>, w: World, ev: Event, i: nat)
    requires Distinct(names) && Enabled(names, w, ev) && i < |names|
    ensures var s, s' := Alone(names, w, i), Alone(names, Step(names, w, ev), i);
            match ev
            case File(e) => s' == StepAlone(s, FileEv(e))
            case Act(j, a) => if j == i then EnabledAlone(s, Own(a)) && s' == StepAlone(s, Own(a)) else s' == s
  {
    hide Can, Happens;
    if ev.Act? && ev.i != i {
      assert names[ev.i] != names[i];
    }
    if ev.Act? && ev.i == i {
      KeepsCursor(w.disk, View(names, w, i), ev.a);
    }
  }

  /** A check that has a cursor never loses it. */
  lemma KeepsCursor(d: Disk, c: Check, a: TailProtocol.Act)
    requires Can(d, c, a)
    ensures c.cursor.Some? ==> Do(d, c, a).cursor.Some?
  {
  }

  /** Non-interference: whatever the interleaving, a check whose name is its own sees exactly the
      run it would have had alone against the same file changes, and its cursor, its lines and all
      else it has done are the same. */
  lemma {:induction false} NonInterference(names: seq<string>, w: World, evs: seq<Event>, i: nat)
    requires Distinct(names) && i < |names| == |w.locals| && Legal(names, w, evs)
    ensures LegalAlone(Alone(names, w, i), Project(evs, i))
    ensures AfterAlone(Alone(names, w, i), Project(evs, i)) == Alone(names, After(names, w, evs), i)
    decreases |evs|
  {
    hide Can, Do, Happens, Witness, Step, StepAlone, View;
    if evs != [] {
      var w' := Step(names, w, evs[0]);
      StepSeenBy(names, w, evs[0], i);
      NonInterference(names, w', evs[1..], i);
      if evs[0].File? || evs[0].i == i {
        var head := if evs[0].File? then FileEv(evs[0].e) else Own(evs[0].a);
        var rest := Project(evs[1..], i);
        assert Project(evs, i) == [head] + rest;
        assert ([head] + rest)[0] == head && ([head] + rest)[1..] == rest;
      } else {
        assert Project(evs, i) == Project(evs[1..], i);
      }
    }
  }

  /** A run of all checks from the start of the process, with a name of its own for each. */
  ghost predicate Reachable(names: seq<string>, d: Disk, evs: seq<Event>) {
    DiskOk(d) && Distinct(names) && Legal(names, Start(names, d), evs)
  }

  lemma InvReachable(names: seq<string>, d: Disk, evs: seq<Event>, i: nat)
    requires Reachable(names, d, evs) && i < |names|
    ensures var w := After(names, Start(names, d), evs);
            Inv(w.disk, View(names, w, i))
  {
    hide Inv, Legal, After, LegalAlone, AfterAlone;
    var w := Start(names, d);
    InvFresh(d);
    assert Alone(names, w, i) == Solo(d, FRESH);
    NonInterference(names, w, evs, i);
    InvAlone(Alone(names, w, i), Project(evs, i));
  }

  // ----- a tick whose file stands still

  lemma {:induction false} StopsAtOverlong(x: seq<byte>, y: seq<byte>, max: nat)
    requires !Fits(x, max)
    ensures Lines.Scan(x + y, max) == Lines.Scan(x, max)
    decreases |x|
  {
    hide Lines.Scan, Lines.IndexLF;
    FitsUnfolds(x, max);
    IndexOfAppend(x, y);
    var i := IndexLF(x);
    if i < |x| && i < max {
      SplitFirst(x);
      var l, rest := x[..i], x[i + 1..];
      assert x + y == l + [LF] + (rest + y);
      ScanLine(l, rest, max);
      ScanLine(l, rest + y, max);
      StopsAtOverlong(rest, y, max);
    } else {
      StopsAtOnce(x, max);
      StopsAtOnce(x + y, max);
    }
  }

  lemma ReadingIsOver(got: seq<byte>, left: seq<byte>)
    requires WithinBuffer(got) && (left == [] || !Fits(got, MAX_LINE))
    ensures Lines.Scan(got + left, MAX_LINE).lines == Lines.Scan(got, MAX_LINE).lines
    ensures Lines.Scan(got + left, MAX_LINE).consumed == |got|
  {
    hide Lines.Scan, Lines.IndexLF;
    if left == [] {
      assert got + left == got;
    } else {
      StopsAtOverlong(got, left, MAX_LINE);
    }
  }

  /** When a reading check has reached the end of its file, or a full buffer, storing its cursor
      does what the one-piece `Tick` does: the piecewise reading is not visible. */
  lemma FinishIsTick(d: Disk, c: Check, hit: Line -> bool)
    requires c.phase.Reading? && c.cursor == Some(TailState(c.phase.path, c.phase.from))
    requires WithinBuffer(Bytes(c.phase.got))
    requires var f := FileAt(d, c.phase.path);
             && Front(c) <= |f|
             && c.phase.got == f[c.phase.from..Front(c)]
             && (Front(c) == |f| || !Fits(Bytes(c.phase.got), MAX_LINE))
    ensures var f := FileAt(d, c.phase.path);
            var os := Os(true, Some(c.phase.path), true, Some(|f|), true, Bytes(f[c.phase.from..]), true);
            var (res, cursor) := Tick(c.cursor, os, hit);
            && cursor == Do(d, c, Finish).cursor
            && res.outcome.Tailed?
            && Do(d, c, Finish).hist.lines == c.hist.lines + Lines.Scan(os.delivered, MAX_LINE).lines
  {
    hide Lines.Scan, Lines.IndexLF, Fits, Matching;
    var f := FileAt(d, c.phase.path);
    var got, left := c.phase.got, f[Front(c)..];
    assert f[c.phase.from..] == got + left;
    BytesAppend(got, left);
    ReadingIsOver(Bytes(got), Bytes(left));
  }

  /** And storing a baseline does what the one-piece tick does on a file of the measured size. */
  lemma RebaselineIsTick(d: Disk, c: Check, hit: Line -> bool)
    requires c.phase.Looked? && c.phase.seen == c.cursor && Can(d, c, Rebaseline)
    ensures var os := Os(true, Some(c.phase.path), true, Some(c.phase.size), true, [], true);
            var (res, cursor) := Tick(c.cursor, os, hit);
            && cursor == Do(d, c, Rebaseline).cursor == Some(TailState(c.phase.path, c.phase.size))
            && res.outcome.BaselineAt? && res.outcome.offset == c.phase.size
  {
  }

  // ----- building runs

  lemma ConsRun(s: Solo, ev: SoloEvent, evs: seq<SoloEvent>)
    requires EnabledAlone(s, ev) && LegalAlone(StepAlone(s, ev), evs)
    ensures LegalAlone(s, [ev] + evs)
    ensures AfterAlone(s, [ev] + evs) == AfterAlone(StepAlone(s, ev), evs)
  {
    hide EnabledAlone, StepAlone;
    assert ([ev] + evs)[1..] == evs;
  }

  /** A full baseline tick of a check that has never run. */
  function Baselined(d: Disk, p: string): Check {
    Check(Some(TailState(p, |FileAt(d, p)|)), Idle,
          History([], set id | id in Ids(FileAt(d, p)), |FileAt(d, p)|, [], [], [], true))
  }

  lemma BaselineRun(d: Disk, p: string, evs: seq<SoloEvent>)
    requires p in d.files && LegalAlone(Solo(d, Baselined(d, p)), evs)
    ensures var run := [Own(Open(p))] + ([Own(Look)] + ([Own(Rebaseline)] + evs));
            && LegalAlone(Solo(d, FRESH), run)
            && AfterAlone(Solo(d, FRESH), run) == AfterAlone(Solo(d, Baselined(d, p)), evs)
  {
    hide LegalAlone, AfterAlone;
    var s0 := Solo(d, FRESH);
    var s1 := StepAlone(s0, Own(Open(p)));
    var s2 := StepAlone(s1, Own(Look));
    assert {} + s2.check.phase.present == s2.check.phase.present;
    assert FileAt(d, p)[..|FileAt(d, p)|] == FileAt(d, p);
    assert StepAlone(s2, Own(Rebaseline)) == Solo(d, Baselined(d, p));
    ConsRun(s2, Own(Rebaseline), evs);
    ConsRun(s1, Own(Look), [Own(Rebaseline)] + evs);
    ConsRun(s0, Own(Open(p)), [Own(Look)] + ([Own(Rebaseline)] + evs));
  }

  lemma EmptyRun(s: Solo)
    ensures LegalAlone(s, []) && AfterAlone(s, []) == s
  {
  }
}
