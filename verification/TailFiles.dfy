/**
 All log_tail checks together, when each may open certain files only, whatever their names.  As long
 as checks that share a name share no file, each is given every written byte at most once.
 */
module TailFiles {
  import opened Lines
  import opened Options
  import opened LogTail
  import opened TailProtocol
  import opened TailSystem

  /** In the run, check i opens only files in may[i]. */
  ghost predicate Confined(may: seq<iset<string>>, evs: seq<Event>) {
    forall ev | ev in evs :: Allowed(may, ev)
  }

  ghost predicate Allowed(may: seq<iset<string>>, ev: Event) {
    ev.Act? && ev.a.Open? && ev.i < |may| ==> ev.a.path in may[ev.i]
  }

  /** Checks of one name have no file in common. */
  ghost predicate Apart(names: seq<string>, may: seq<iset<string>>)
    requires |may| == |names|
  {
    forall i, j | 0 <= i < j < |names| && names[i] == names[j] :: may[i] !! may[j]
  }

  // ----- one check, whose cursor others may overwrite

  ghost predicate PhaseSafe(d: Disk, c: Check, files: iset<string>) {
    match c.phase
    case Idle => true
    case Opened(p, size, present, _) =>
      p in files && Behind(d, p, size, c.hist) && PresentBehind(d, p, size, present)
    case Looked(p, size, present, _, seen) =>
      && p in files && Behind(d, p, size, c.hist) && PresentBehind(d, p, size, present)
      && (seen.Some? && seen.value.path == p ==> Behind(d, p, seen.value.offset, c.hist))
      && (c.cursor.Some? && c.cursor.value.path in files ==> seen == c.cursor)
    case Reading(p, from, got) =>
      && p in files && Behind(d, p, from + |got|, c.hist)
      && (c.cursor.Some? && c.cursor.value.path in files ==> c.cursor == Some(TailState(p, from)))
  }

  /** A cursor into one of its own files is the check's own; all it has handled lies behind it. */
  ghost predicate CursorSafe(d: Disk, c: Check, files: iset<string>) {
    c.cursor.Some? && c.cursor.value.path in files && !c.phase.Reading? ==>
      Behind(d, c.cursor.value.path, c.cursor.value.offset, c.hist)
  }

  ghost predicate Safe(d: Disk, c: Check, files: iset<string>) {
    DiskOk(d) && Serials(d, c) && PhaseSafe(d, c, files) && CursorSafe(d, c, files) && NoDup(c.hist.delivered)
  }

  lemma SafeAfterFileEvent(d: Disk, c: Check, e: FileEvent, files: iset<string>)
    requires Safe(d, c, files)
    ensures Safe(Happens(d, e), Witness(c, e), files)
  {
    BehindAfterFileEvent(d, c, e);
    SerialsAfterFileEvent(d, c, e);
    hide Happens, DiskOk, Serials, Behind, PresentBehind, NoDup;
  }

  /** Another check overwrites the cursor with one into a file of its own. */
  lemma SafeAfterOther(d: Disk, c: Check, cursor: TailState, files: iset<string>)
    requires Safe(d, c, files) && cursor.path !in files
    ensures Safe(d, c.(cursor := Some(cursor)), files)
  {
    hide Behind, PresentBehind, DiskOk, NoDup;
  }

  lemma SafeAfterOpen(d: Disk, c: Check, p: string, files: iset<string>)
    requires Safe(d, c, files) && Can(d, c, Open(p)) && p in files
    ensures Safe(d, Do(d, c, Open(p)), files)
  {
    hide Lines.Scan, Lines.IndexLF;
    var f := FileAt(d, p);
    forall id | id in Ids(f) ensures exists k :: At(d, p, k, id) {
      var k :| 0 <= k < |f| && Ids(f)[k] == id;
      assert At(d, p, k, id);
    }
  }

  lemma SafeAfterRebaseline(d: Disk, c: Check, files: iset<string>)
    requires Safe(d, c, files) && Can(d, c, Rebaseline)
    ensures Safe(d, Do(d, c, Rebaseline), files)
  {
    hide Lines.Scan, Lines.IndexLF, At;
    var c' := Do(d, c, Rebaseline);
    forall id: nat | Settled(c'.hist, id) ensures Settled(c.hist, id) || id in c.phase.present {
    }
  }

  lemma SafeAfterRead(d: Disk, c: Check, n: nat, files: iset<string>)
    requires Safe(d, c, files) && Can(d, c, Read(n))
    ensures Safe(d, Do(d, c, Read(n)), files)
  {
    hide Lines.Scan, Lines.IndexLF, At;
    ReadIsNew(d, c, n);
    NoDupAppend(c.hist.delivered, Ids(FileAt(d, c.phase.path)[Front(c)..Front(c) + n]));
    BehindAfterRead(d, c, n);
  }

  lemma SafeAfterFinish(d: Disk, c: Check, files: iset<string>)
    requires Safe(d, c, files) && Can(d, c, Finish)
    ensures Safe(d, Do(d, c, Finish), files)
  {
    hide Lines.Scan, Lines.IndexLF, At;
    var c' := Do(d, c, Finish);
    forall id: nat | Settled(c'.hist, id) ensures Settled(c.hist, id) {
    }
  }

  lemma SafeAfterAct(d: Disk, c: Check, a: Act, files: iset<string>)
    requires Safe(d, c, files) && Can(d, c, a) && (a.Open? ==> a.path in files)
    ensures Safe(d, Do(d, c, a), files)
  {
    match a
    case Open(p) => SafeAfterOpen(d, c, p, files);
    case Rebaseline => SafeAfterRebaseline(d, c, files);
    case Read(n) => SafeAfterRead(d, c, n, files);
    case Finish => SafeAfterFinish(d, c, files);
    case _ => SafeAfterOthers(d, c, a, files);
  }

  lemma SafeAfterOthers(d: Disk, c: Check, a: Act, files: iset<string>)
    requires Safe(d, c, files) && Can(d, c, a) && (a.Look? || a.Seek? || a.Abort?)
    ensures Safe(d, Do(d, c, a), files)
  {
    hide Lines.Scan, Lines.IndexLF, Behind, PresentBehind, DiskOk, NoDup, Settled;
  }

  // ----- all of them

  ghost predicate AllSafe(names: seq<string>, may: seq<iset<string>>, w: World) {
    && |names| == |may| == |w.locals|
    && forall i | 0 <= i < |names| :: Safe(w.disk, View(names, w, i), may[i])
  }

  /** What an act stores is the cursor that was there or one into a file of the check. */
  lemma StoresOwnFile(d: Disk, c: Check, a: TailProtocol.Act, files: iset<string>)
    requires PhaseSafe(d, c, files) && Can(d, c, a)
    ensures var cursor := Do(d, c, a).cursor;
            cursor == c.cursor || (cursor.Some? && cursor.value.path in files)
  {
    hide Lines.Scan, Lines.IndexLF, Behind, PresentBehind;
  }

  lemma SafeStepAct(names: seq<string>, may: seq<iset<string>>, w: World, ev: Event, i: nat)
    requires AllSafe(names, may, w) && Apart(names, may) && ev.Act?
    requires Enabled(names, w, ev) && Allowed(may, ev) && i < |names|
    ensures Safe(w.disk, View(names, Step(names, w, ev), i), may[i])
  {
    var j, c := ev.i, View(names, w, ev.i);
    assert Safe(w.disk, c, may[j]) && Safe(w.disk, View(names, w, i), may[i]);
    hide Safe, Can, Do;
    KeepsCursor(w.disk, c, ev.a);
    if i == j {
      SafeAfterAct(w.disk, c, ev.a, may[i]);
    } else if names[i] == names[j] {
      assert PhaseSafe(w.disk, c, may[j]) by { SafeHasPhase(w.disk, c, may[j]); }
      StoresOwnFile(w.disk, c, ev.a, may[j]);
      assert may[i] !! may[j];
      var cursor := Do(w.disk, c, ev.a).cursor;
      if cursor != c.cursor {
        SafeAfterOther(w.disk, View(names, w, i), cursor.value, may[i]);
      }
    }
  }

  lemma SafeHasPhase(d: Disk, c: Check, files: iset<string>)
    requires Safe(d, c, files)
    ensures PhaseSafe(d, c, files)
  {
  }

  lemma AllSafeAfterStep(names: seq<string>, may: seq<iset<string>>, w: World, ev: Event)
    requires AllSafe(names, may, w) && Apart(names, may) && Enabled(names, w, ev) && Allowed(may, ev)
    ensures AllSafe(names, may, Step(names, w, ev))
  {
    hide Safe, Can, Do, Happens, Witness;
    forall i | 0 <= i < |names|
      ensures Safe(Step(names, w, ev).disk, View(names, Step(names, w, ev), i), may[i])
    {
      if ev.Act? {
        SafeStepAct(names, may, w, ev, i);
      } else {
        SafeAfterFileEvent(w.disk, View(names, w, i), ev.e, may[i]);
        FileStepView(names, w, ev.e, i);
      }
    }
  }

  lemma FileStepView(names: seq<string>, w: World, e: FileEvent, i: nat)
    requires i < |names| == |w.locals|
    ensures View(names, Step(names, w, File(e)), i) == Witness(View(names, w, i), e)
  {
  }

  lemma {:induction false} AllSafeAfter(names: seq<string>, may: seq<iset<string>>, w: World, evs: seq<Event>)
    requires AllSafe(names, may, w) && Apart(names, may) && Legal(names, w, evs) && Confined(may, evs)
    ensures AllSafe(names, may, After(names, w, evs))
    decreases |evs|
  {
    hide AllSafe, Enabled, Step, Allowed;
    if evs != [] {
      AllSafeAfterStep(names, may, w, evs[0]);
      AllSafeAfter(names, may, Step(names, w, evs[0]), evs[1..]);
    }
  }

  // ----- what every run keeps

  function DeliveredTo(names: seq<string>, d: Disk, evs: seq<Event>, i: nat): seq<nat>
    requires i < |names| && Legal(names, Start(names, d), evs)
  {
    View(names, After(names, Start(names, d), evs), i).hist.delivered
  }

  ghost predicate NewBytes(d: Disk, c: Check, n: nat)
    requires Can(d, c, Read(n))
  {
    forall id | id in Ids(FileAt(d, c.phase.path)[Front(c)..Front(c) + n]) ::
      id !in c.hist.delivered && id !in c.hist.skipped
  }

  /** A read that check i can make next brings only bytes that it has neither been given before nor
      passed over with a baseline. */
  ghost predicate NextReadIsNew(names: seq<string>, d: Disk, evs: seq<Event>, i: nat)
    requires i < |names| && Legal(names, Start(names, d), evs)
  {
    var w := After(names, Start(names, d), evs);
    var c := View(names, w, i);
    forall n: nat | Can(w.disk, c, Read(n)) :: NewBytes(w.disk, c, n)
  }

  /** Checks that share a name but no file are, in every run, given every written byte at most once,
      and each read brings new bytes only, whatever is appended, truncated and rotated, forth and
      back, and at whatever points of the ticks. */
  lemma ApartIsSafe(names: seq<string>, may: seq<iset<string>>, d: Disk, evs: seq<Event>, i: nat)
    requires DiskOk(d) && |may| == |names| && Apart(names, may)
    requires Legal(names, Start(names, d), evs) && Confined(may, evs) && i < |names|
    ensures NoDup(DeliveredTo(names, d, evs, i)) && NextReadIsNew(names, d, evs, i)
  {
    hide Legal, After, Can, Apart;
    assert AllSafe(names, may, Start(names, d));
    AllSafeAfter(names, may, Start(names, d), evs);
    var w := After(names, Start(names, d), evs);
    assert Safe(w.disk, View(names, w, i), may[i]);
    SafeReadsAreNew(w.disk, View(names, w, i), may[i]);
  }

  lemma SafeReadsAreNew(d: Disk, c: Check, files: iset<string>)
    requires Safe(d, c, files)
    ensures forall n: nat | Can(d, c, Read(n)) :: NewBytes(d, c, n)
  {
    hide DiskOk, Behind, Do, Lines.Scan, Lines.IndexLF;
    forall n: nat | Can(d, c, Read(n)) ensures NewBytes(d, c, n) {
      ReadIsNew(d, c, n);
      forall id | id in Ids(FileAt(d, c.phase.path)[Front(c)..Front(c) + n]) ensures !Settled(c.hist, id) {
      }
    }
  }

  // ----- cursors name files

  /** Every file that a check is in, or has a cursor into, has come into being. */
  ghost predicate AllExist(w: World) {
    && (forall name | name in w.states :: w.states[name].path in w.disk.files)
    && (forall i | 0 <= i < |w.locals| ::
          !w.locals[i].phase.Idle? ==> w.locals[i].phase.path in w.disk.files)
  }

  lemma ExistAfterAct(d: Disk, c: Check, a: TailProtocol.Act)
    requires Can(d, c, a)
    requires (c.cursor.Some? ==> c.cursor.value.path in d.files) && (!c.phase.Idle? ==> c.phase.path in d.files)
    ensures var c' := Do(d, c, a);
            (c'.cursor.Some? ==> c'.cursor.value.path in d.files) && (!c'.phase.Idle? ==> c'.phase.path in d.files)
  {
    hide Lines.Scan, Lines.IndexLF, WithinBuffer;
  }

  lemma AllExistAfterStep(names: seq<string>, w: World, ev: Event)
    requires AllExist(w) && Enabled(names, w, ev)
    ensures AllExist(Step(names, w, ev))
  {
    hide Can, Do;
    if ev.Act? {
      ExistAfterAct(w.disk, View(names, w, ev.i), ev.a);
    }
  }

  /** A check only ever opens files that exist, so every cursor in every run names one, whatever the
      names of the checks; a path without a file fails before the table is looked at. */
  lemma {:induction false} EveryCursorNamesAFile(names: seq<string>, w: World, evs: seq<Event>)
    requires AllExist(w) && Legal(names, w, evs)
    ensures AllExist(After(names, w, evs))
    decreases |evs|
  {
    hide AllExist, Enabled, Step;
    if evs != [] {
      AllExistAfterStep(names, w, evs[0]);
      EveryCursorNamesAFile(names, Step(names, w, evs[0]), evs[1..]);
    }
  }
}
