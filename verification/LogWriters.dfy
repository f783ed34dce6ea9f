/**
 Many loops calling `Logger.Write` at once.  Marshalling happens outside the mutex; the guard, the
 append (which the operating system may split into pieces) and the status line happen inside it.
 */
module LogWriters {
  import opened Options
  import opened Lines
  import opened DiskGuard
  import opened Console
  import Logger

  /** What became of a record: passed over by the guard, or n of its bytes appended, with or
      without the writer reporting an error. */
  datatype Fate = Suppressed | Put(n: nat, failed: bool)

  /** Ready: marshalled, waiting for the mutex.  The last three hold it. */
  datatype Phase =
    | Idle
    | Ready(line: Line)
    | Locked(line: Line)
    | Appending(line: Line, n: nat)
    | Reporting(line: Line, fate: Fate)

  /** `ledger` lists the records whose status line has been printed, in that order. */
  datatype Entry = Entry(line: Line, fate: Fate)

  datatype State = State(now: int, guard: Guard, holder: Option<nat>, writers: seq<Phase>,
                         file: seq<byte>, console: seq<Out<Line>>,
                         accepted: nat, ledger: seq<Entry>, calls: seq<Call>)

  datatype Event =
    | Submit(i: nat, line: Line) | Reject(i: nat) | Lock(i: nat) | Consult(i: nat, probe: Probe)
    | Append(i: nat, n: nat) | Fail(i: nat) | Complete(i: nat) | Report(i: nat)
    | Pass(t: nat)

  function Start(now: int, n: nat): State {
    State(now, UNUSED, None, seq(n, _ => Idle), [], [], 0, [], [])
  }

  function Record(line: Line): seq<byte> {
    line + [LF]
  }

  predicate Can(s: State, e: Event) {
    match e
    case Pass(_) => true
    case Submit(i, _) => i < |s.writers| && s.writers[i].Idle?
    case Reject(i) => i < |s.writers| && s.writers[i].Idle?
    case Lock(i) => i < |s.writers| && s.writers[i].Ready? && s.holder.None?
    case Consult(i, _) => i < |s.writers| && s.writers[i].Locked?
    case Append(i, n) =>
      && i < |s.writers| && s.writers[i].Appending? && n > 0
      && s.writers[i].n + n <= |Record(s.writers[i].line)|
    case Fail(i) =>
      i < |s.writers| && s.writers[i].Appending? && s.writers[i].n < |Record(s.writers[i].line)|
    case Complete(i) =>
      i < |s.writers| && s.writers[i].Appending? && s.writers[i].n == |Record(s.writers[i].line)|
    case Report(i) => i < |s.writers| && s.writers[i].Reporting?
  }

  function Do(min: nat, s: State, e: Event): State
    requires Can(s, e)
  {
    match e
    case Pass(t) => s.(now := s.now + t)
    case Submit(i, line) => s.(writers := s.writers[i := Ready(line)], accepted := s.accepted + 1)
    case Reject(i) => s.(console := s.console + [MarshalError])
    case Lock(i) => s.(writers := s.writers[i := Locked(s.writers[i].line)], holder := Some(i))
    case Consult(i, probe) =>
      var o := Ask(min, s.guard, s.now, probe);
      var line := s.writers[i].line;
      s.(guard := o.guard,
         console := s.console + Messages(o.changes),
         calls := s.calls + [Call(s.now, probe)],
         writers := s.writers[i := if o.room then Appending(line, 0) else Reporting(line, Suppressed)])
    case Append(i, n) =>
      var w := s.writers[i];
      s.(file := s.file + Record(w.line)[w.n..w.n + n],
         writers := s.writers[i := Appending(w.line, w.n + n)])
    case Fail(i) =>
      var w := s.writers[i];
      s.(console := s.console + [WriteError],
         writers := s.writers[i := Reporting(w.line, Put(w.n, true))])
    case Complete(i) =>
      var w := s.writers[i];
      s.(writers := s.writers[i := Reporting(w.line, Put(w.n, false))])
    case Report(i) =>
      var w := s.writers[i];
      s.(console := s.console + [Status(w.line)],
         ledger := s.ledger + [Entry(w.line, w.fate)],
         writers := s.writers[i := Idle], holder := None)
  }

  // ----- what the console and the ledger say

  function StatusLines(console: seq<Out<Line>>): seq<Line> {
    if console == [] then []
    else
      var o := console[|console| - 1];
      StatusLines(console[..|console| - 1]) + if o.Status? then [o.record] else []
  }

  function Changes(console: seq<Out<Line>>): seq<Change> {
    if console == [] then []
    else
      var o := console[|console| - 1];
      Changes(console[..|console| - 1]) + if o.Message? then [o.change] else []
  }

  function LinesOf(ledger: seq<Entry>): seq<Line> {
    if ledger == [] then [] else LinesOf(ledger[..|ledger| - 1]) + [ledger[|ledger| - 1].line]
  }

  function BytesOf(line: Line, fate: Fate): seq<byte> {
    if fate.Put? && fate.n <= |Record(line)| then Record(line)[..fate.n] else []
  }

  function FileOf(ledger: seq<Entry>): seq<byte> {
    if ledger == [] then []
    else FileOf(ledger[..|ledger| - 1]) + BytesOf(ledger[|ledger| - 1].line, ledger[|ledger| - 1].fate)
  }

  function Decisions(ledger: seq<Entry>): seq<bool> {
    if ledger == [] then []
    else Decisions(ledger[..|ledger| - 1]) + [ledger[|ledger| - 1].fate.Put?]
  }

  /** The records that went to the file, in order. */
  function WrittenOf(ledger: seq<Entry>): seq<Line> {
    if ledger == [] then []
    else
      var e := ledger[|ledger| - 1];
      WrittenOf(ledger[..|ledger| - 1]) + if e.fate.Put? then [e.line] else []
  }

  function SuppressedCount(ledger: seq<Entry>): nat {
    if ledger == [] then 0
    else SuppressedCount(ledger[..|ledger| - 1]) + if ledger[|ledger| - 1].fate.Suppressed? then 1 else 0
  }

  // ----- the invariant

  predicate Critical(w: Phase) {
    w.Locked? || w.Appending? || w.Reporting?
  }

  ghost predicate Exclusive(s: State) {
    && (s.holder.Some? ==> s.holder.value < |s.writers|)
    && forall i | 0 <= i < |s.writers| :: Critical(s.writers[i]) <==> s.holder == Some(i)
  }

  /** The holder's own state: what it has appended, and what the guard told it. */
  function Current(s: State): Phase
    requires Exclusive(s)
  {
    if s.holder.None? then Idle else s.writers[s.holder.value]
  }

  function Partial(w: Phase): seq<byte> {
    match w
    case Appending(line, n) => BytesOf(line, Put(n, true))
    case Reporting(line, fate) => BytesOf(line, fate)
    case _ => []
  }

  function Pending(w: Phase): seq<bool> {
    match w
    case Appending(_, _) => [true]
    case Reporting(_, fate) => [fate.Put?]
    case _ => []
  }

  predicate FateOk(line: Line, fate: Fate) {
    fate.Put? ==> if fate.failed then fate.n < |Record(line)| else fate.n == |Record(line)|
  }

  predicate PhaseOk(w: Phase) {
    match w
    case Appending(line, n) => n <= |Record(line)|
    case Reporting(line, fate) => FateOk(line, fate)
    case _ => true
  }

  ghost predicate FileOk(s: State)
    requires Exclusive(s)
  {
    && s.file == FileOf(s.ledger) + Partial(Current(s))
    && PhaseOk(Current(s))
    && forall e | e in s.ledger :: FateOk(e.line, e.fate)
  }

  ghost predicate GuardOk(min: nat, s: State)
    requires Exclusive(s)
  {
    && s.guard == Run(min, s.calls).guard
    && Run(min, s.calls).decisions == Decisions(s.ledger) + Pending(Current(s))
    && Changes(s.console) == Printed(Run(min, s.calls).changes)
    && InOrder(s.calls)
    && (s.calls != [] ==> s.calls[|s.calls| - 1].now <= s.now)
  }

  function Busy(ws: seq<Phase>): nat {
    if ws == [] then 0 else Busy(ws[..|ws| - 1]) + if ws[|ws| - 1].Idle? then 0 else 1
  }

  ghost predicate Inv(min: nat, s: State) {
    && Exclusive(s)
    && FileOk(s)
    && GuardOk(min, s)
    && StatusLines(s.console) == LinesOf(s.ledger)
    && s.accepted == |s.ledger| + Busy(s.writers)
  }

  lemma {:induction false} BusyUpdate(ws: seq<Phase>, i: nat, w: Phase)
    requires i < |ws|
    ensures Busy(ws[i := w]) == Busy(ws) - (if ws[i].Idle? then 0 else 1) + (if w.Idle? then 0 else 1)
  {
    var n := |ws| - 1;
    if i < n {
      assert ws[i := w][..n] == ws[..n][i := w];
      BusyUpdate(ws[..n], i, w);
    } else {
      assert ws[i := w][..n] == ws[..n];
    }
  }

  lemma {:induction false} NoticesShow(console: seq<Out<Line>>, changes: seq<Change>)
    ensures Changes(console + Messages(changes)) == Changes(console) + Printed(changes)
    ensures StatusLines(console + Messages(changes)) == StatusLines(console)
    requires |changes| <= 1
  {
    var ms := Messages(changes);
    if ms == [] {
      assert console + ms == console;
    } else {
      assert |ms| <= 1 by { PrintedShrinks(changes); }
      assert (console + ms)[..|console|] == console;
      assert ms[0] == Message(Printed(changes)[0]);
      assert Printed(changes) == [Printed(changes)[0]];
    }
  }

  lemma {:induction false} PrintedShrinks(changes: seq<Change>)
    ensures |Printed(changes)| <= |changes|
  {
    if changes != [] { PrintedShrinks(changes[..|changes| - 1]); }
  }

  lemma PrintedAppend(changes: seq<Change>, more: seq<Change>)
    requires |more| <= 1
    ensures Printed(changes + more) == Printed(changes) + Printed(more)
  {
    if more == [] {
      assert changes + more == changes;
    } else {
      assert (changes + more)[..|changes|] == changes;
      assert more[..0] == [];
    }
  }

  lemma OneMoreOut(console: seq<Out<Line>>, o: Out<Line>)
    ensures StatusLines(console + [o]) == StatusLines(console) + if o.Status? then [o.record] else []
    ensures Changes(console + [o]) == Changes(console) + if o.Message? then [o.change] else []
  {
    assert (console + [o])[..|console|] == console;
  }

  lemma OneMoreEntry(ledger: seq<Entry>, e: Entry)
    ensures LinesOf(ledger + [e]) == LinesOf(ledger) + [e.line]
    ensures FileOf(ledger + [e]) == FileOf(ledger) + BytesOf(e.line, e.fate)
    ensures Decisions(ledger + [e]) == Decisions(ledger) + [e.fate.Put?]
  {
    assert (ledger + [e])[..|ledger|] == ledger;
  }

  lemma OneMoreCall(min: nat, calls: seq<Call>, c: Call)
    ensures var before, o := Run(min, calls), Ask(min, Run(min, calls).guard, c.now, c.probe);
            var after := Run(min, calls + [c]);
            && after.guard == o.guard
            && after.changes == before.changes + o.changes
            && after.decisions == before.decisions + [o.room]
  {
    assert (calls + [c])[..|calls|] == calls;
  }

  lemma InvStart(min: nat, now: int, n: nat)
    ensures Inv(min, Start(now, n))
  {
    NoneBusy(n);
  }

  lemma {:induction false} NoneBusy(n: nat)
    ensures Busy(seq(n, _ => Idle)) == 0
  {
    if n > 0 {
      NoneBusy(n - 1);
      assert seq(n, _ => Idle)[..n - 1] == seq(n - 1, _ => Idle);
    }
  }

  lemma InvConsult(min: nat, s: State, i: nat, probe: Probe)
    requires Inv(min, s) && Can(s, Consult(i, probe))
    ensures Inv(min, Do(min, s, Consult(i, probe)))
  {
    hide Run, Ask, Printed, Changes, StatusLines, LinesOf, FileOf, Decisions, Busy;
    var e := Consult(i, probe);
    var s' := Do(min, s, e);
    var c := Call(s.now, probe);
    var o := Ask(min, s.guard, s.now, probe);
    AskChanges(min, s.guard, s.now, probe);
    BusyUpdate(s.writers, i, s'.writers[i]);
    OneMoreCall(min, s.calls, c);
    NoticesShow(s.console, o.changes);
    PrintedAppend(Run(min, s.calls).changes, o.changes);
    assert s.file + [] == s.file;
    assert Decisions(s.ledger) + [] == Decisions(s.ledger);
  }

  lemma AskChanges(min: nat, g: Guard, now: int, p: Probe)
    ensures |Ask(min, g, now, p).changes| <= 1
  {
  }

  lemma InvReport(min: nat, s: State, i: nat)
    requires Inv(min, s) && Can(s, Report(i))
    ensures Inv(min, Do(min, s, Report(i)))
  {
    hide Run, Printed, Changes, StatusLines, LinesOf, FileOf, Decisions, Busy, BytesOf;
    var w := s.writers[i];
    assert s.holder == Some(i);
    BusyUpdate(s.writers, i, Idle);
    OneMoreOut(s.console, Status(w.line));
    OneMoreEntry(s.ledger, Entry(w.line, w.fate));
    var s' := Do(min, s, Report(i));
    assert s'.file + [] == s'.file;
    assert Decisions(s'.ledger) + [] == Decisions(s'.ledger);
  }

  lemma InvAppend(min: nat, s: State, i: nat, n: nat)
    requires Inv(min, s) && Can(s, Append(i, n))
    ensures Inv(min, Do(min, s, Append(i, n)))
  {
    hide Run, Printed, Changes, StatusLines, LinesOf, FileOf, Decisions, Busy;
    hide Partial;
    var w := s.writers[i];
    assert s.holder == Some(i);
    BusyUpdate(s.writers, i, Appending(w.line, w.n + n));
    PartialGrows(w.line, w.n, n);
    ConcatAssoc(FileOf(s.ledger), Partial(w), Record(w.line)[w.n..w.n + n]);
  }

  lemma PartialGrows(line: Line, n: nat, more: nat)
    requires n + more <= |Record(line)|
    ensures Partial(Appending(line, n)) + Record(line)[n..n + more] == Partial(Appending(line, n + more))
  {
  }

  lemma InvOther(min: nat, s: State, e: Event)
    requires Inv(min, s) && Can(s, e)
    requires e.Pass? || e.Submit? || e.Reject? || e.Lock? || e.Fail? || e.Complete?
    ensures Inv(min, Do(min, s, e))
  {
    hide Run, Printed, Changes, StatusLines, LinesOf, FileOf, Decisions, Busy;
    var s' := Do(min, s, e);
    if e.Submit? || e.Lock? || e.Fail? || e.Complete? {
      BusyUpdate(s.writers, e.i, s'.writers[e.i]);
    }
    if e.Reject? { OneMoreOut(s.console, MarshalError); }
    if e.Fail? { OneMoreOut(s.console, WriteError); }
    assert StatusLines(s.console) + [] == StatusLines(s.console);
    assert Changes(s.console) + [] == Changes(s.console);
  }

  lemma InvDo(min: nat, s: State, e: Event)
    requires Inv(min, s) && Can(s, e)
    ensures Inv(min, Do(min, s, e))
  {
    hide Inv, Do;
    match e
    case Consult(i, probe) => InvConsult(min, s, i, probe);
    case Append(i, n) => InvAppend(min, s, i, n);
    case Report(i) => InvReport(min, s, i);
    case _ => InvOther(min, s, e);
  }

  // ----- runs

  predicate Legal(min: nat, s: State, es: seq<Event>)
    decreases |es|
  {
    es == [] || (Can(s, es[0]) && Legal(min, Do(min, s, es[0]), es[1..]))
  }

  function After(min: nat, s: State, es: seq<Event>): State
    requires Legal(min, s, es)
    decreases |es|
  {
    if es == [] then s else After(min, Do(min, s, es[0]), es[1..])
  }

  lemma {:induction false} InvAfter(min: nat, s: State, es: seq<Event>)
    requires Inv(min, s) && Legal(min, s, es)
    ensures Inv(min, After(min, s, es))
    decreases |es|
  {
    hide Inv, Can, Do;
    if es != [] {
      InvDo(min, s, es[0]);
      InvAfter(min, Do(min, s, es[0]), es[1..]);
    }
  }

  predicate NoErrors(ledger: seq<Entry>) {
    forall e | e in ledger :: !(e.fate.Put? && e.fate.failed)
  }

  lemma {:induction false} UnlinesSnoc(ls: seq<Line>, l: Line)
    ensures Unlines(ls + [l]) == Unlines(ls) + Record(l)
  {
    if ls == [] {
      assert ls + [l] == [l];
      assert Unlines([l]) == l + [LF] + Unlines([]);
    } else {
      assert (ls + [l])[1..] == ls[1..] + [l];
      UnlinesSnoc(ls[1..], l);
      ConcatAssoc(ls[0] + [LF], Unlines(ls[1..]), Record(l));
    }
  }

  lemma {:induction false} CleanFile(ledger: seq<Entry>)
    requires NoErrors(ledger)
    requires forall e | e in ledger :: FateOk(e.line, e.fate)
    ensures FileOf(ledger) == Unlines(WrittenOf(ledger))
  {
    if ledger != [] {
      var n := |ledger| - 1;
      CleanFile(ledger[..n]);
      var e := ledger[n];
      assert e in ledger;
      if e.fate.Put? {
        UnlinesSnoc(WrittenOf(ledger[..n]), e.line);
        assert Record(e.line)[..|Record(e.line)|] == Record(e.line);
      } else {
        assert FileOf(ledger[..n]) + [] == FileOf(ledger[..n]);
        assert WrittenOf(ledger[..n]) + [] == WrittenOf(ledger[..n]);
      }
    }
  }

  /** Whatever a writer has appended so far is the beginning of its own record. */
  lemma PartialIsPrefix(w: Phase)
    requires Critical(w)
    ensures Partial(w) <= Record(w.line)
  {
  }

  lemma {:induction false} UnlinesAligned(ls: seq<Line>)
    ensures Aligned(Unlines(ls))
  {
    if ls != [] {
      var rest := Unlines(ls[1..]);
      UnlinesAligned(ls[1..]);
      assert Unlines(ls) == ls[0] + [LF] + rest;
    }
  }

  /** JSON Lines under any interleaving: as long as no finished write has failed, the file is at
      every moment whole newline-terminated records, none split or mixed, in the order of their
      status lines, followed by a beginning of the record of the writer in the critical section, if
      there is one.  Reading it line by line yields first exactly those records, and nothing else
      while the mutex is free. */
  lemma FileIsWholeRecords(min: nat, now: int, n: nat, es: seq<Event>, max: nat) returns (torn: seq<byte>)
    requires Legal(min, Start(now, n), es)
    requires NoErrors(After(min, Start(now, n), es).ledger)
    ensures var s := After(min, Start(now, n), es);
            && s.file == Unlines(WrittenOf(s.ledger)) + torn
            && (if s.holder.None? then torn == []
                else s.holder.value < |s.writers| && Critical(s.writers[s.holder.value])
                     && torn <= Record(s.writers[s.holder.value].line))
            && StatusLines(s.console) == LinesOf(s.ledger)
            && ((forall l | l in WrittenOf(s.ledger) :: Printable(l, max)) ==>
                  Lines.Scan(s.file, max).lines == WrittenOf(s.ledger) + Lines.Scan(torn, max).lines)
  {
    hide Lines.Scan, Lines.IndexLF, Can, Do, Legal, After, Partial, FileOf, Decisions, Run, WrittenOf;
    InvStart(min, now, n);
    InvAfter(min, Start(now, n), es);
    var s := After(min, Start(now, n), es);
    torn := Partial(Current(s));
    CleanFile(s.ledger);
    if s.holder.None? {
      NothingPartial();
    } else {
      PartialIsPrefix(Current(s));
    }
    if forall l | l in WrittenOf(s.ledger) :: Printable(l, max) {
      ScanUnlines(WrittenOf(s.ledger), max);
      UnlinesAligned(WrittenOf(s.ledger));
      ScanAfterBoundary(Unlines(WrittenOf(s.ledger)), torn, max);
    }
  }

  lemma NothingPartial()
    ensures Partial(Idle) == []
  {
  }

  /** `at` lists, in order, the status lines of the written records. */
  ghost predicate ListsWritten(ledger: seq<Entry>, at: seq<nat>) {
    && |at| == |WrittenOf(ledger)|
    && (forall k | 0 <= k < |at| ::
          at[k] < |ledger| && ledger[at[k]].fate.Put? && WrittenOf(ledger)[k] == ledger[at[k]].line)
    && (forall j, k | 0 <= j < k < |at| :: at[j] < at[k])
  }

  /** The written records are an in-order subsequence of the status lines, and those that were not
      written were suppressed. */
  lemma {:induction false} WrittenPositions(ledger: seq<Entry>) returns (at: seq<nat>)
    ensures ListsWritten(ledger, at)
    ensures |WrittenOf(ledger)| + SuppressedCount(ledger) == |ledger| == |LinesOf(ledger)|
  {
    hide ListsWritten, WrittenOf, SuppressedCount, LinesOf;
    at := [];
    if ledger == [] {
      NothingLocated();
    } else {
      var n := |ledger| - 1;
      at := WrittenPositions(ledger[..n]);
      ListsNext(ledger, n, at);
      CountsNext(ledger, n);
      if ledger[n].fate.Put? {
        at := at + [n];
      }
    }
  }

  lemma NothingLocated()
    ensures ListsWritten([], [])
    ensures |WrittenOf([])| == SuppressedCount([]) == |LinesOf([])| == 0
  {
  }

  lemma CountsNext(ledger: seq<Entry>, n: nat)
    requires |ledger| == n + 1
    ensures |LinesOf(ledger)| == |LinesOf(ledger[..n])| + 1
    ensures |WrittenOf(ledger)| + SuppressedCount(ledger)
         == |WrittenOf(ledger[..n])| + SuppressedCount(ledger[..n]) + 1
  {
  }

  lemma ListsNext(ledger: seq<Entry>, n: nat, at: seq<nat>)
    requires |ledger| == n + 1 && ListsWritten(ledger[..n], at)
    ensures ListsWritten(ledger, if ledger[n].fate.Put? then at + [n] else at)
  {
  }

  /** Conservation, and what decided each record's fate: every record that was marshalled is
      written, passed over by the guard, or still with its writer; the k-th status line was passed
      over exactly when the k-th decision of the guard was "no room"; and the pause and resume
      messages on the console are those of the guard. */
  lemma RecordsAreConserved(min: nat, now: int, n: nat, es: seq<Event>)
    requires Legal(min, Start(now, n), es)
    ensures var s := After(min, Start(now, n), es);
            && s.accepted == |WrittenOf(s.ledger)| + SuppressedCount(s.ledger) + Busy(s.writers)
            && |StatusLines(s.console)| == |WrittenOf(s.ledger)| + SuppressedCount(s.ledger)
            && (s.holder.None? ==> Run(min, s.calls).decisions == Decisions(s.ledger))
            && Changes(s.console) == Printed(Run(min, s.calls).changes)
            && InOrder(s.calls)
  {
    hide Can, Do, Legal, After, Run, Printed, Changes, StatusLines, LinesOf, FileOf, Decisions, Busy;
    InvStart(min, now, n);
    InvAfter(min, Start(now, n), es);
    var s := After(min, Start(now, n), es);
    var at := WrittenPositions(s.ledger);
    assert Decisions(s.ledger) + [] == Decisions(s.ledger);
  }

  lemma {:induction false} DecisionAt(ledger: seq<Entry>, k: nat)
    requires k < |ledger|
    ensures |Decisions(ledger)| == |ledger| && Decisions(ledger)[k] == ledger[k].fate.Put?
  {
    var n := |ledger| - 1;
    if n > 0 { DecisionAt(ledger[..n], if k < n then k else 0); }
  }

  /** No record is passed over without cause: when the k-th status line's record is missing from
      the file, a probe less than thirty seconds before its turn had really found too little space. */
  lemma SuppressedOnlyWhenFull(min: nat, now: int, n: nat, es: seq<Event>, k: nat) returns (p: Call)
    requires min > 0 && Legal(min, Start(now, n), es)
    requires var s := After(min, Start(now, n), es);
             s.holder.None? && k < |s.ledger| && s.ledger[k].fate.Suppressed?
    ensures var s := After(min, Start(now, n), es);
            && k < |s.calls|
            && p in Run(min, s.calls).probes
            && 0 <= s.calls[k].now - p.now < 30_000_000_000
            && p.probe.Free? && p.probe.mb < min
  {
    hide Can, Do, Legal, After, Run, Decisions;
    RecordsAreConserved(min, now, n, es);
    var s := After(min, Start(now, n), es);
    DecisionAt(s.ledger, k);
    DecisionsOfPrefix(min, s.calls, |s.calls|);
    p := EveryDecisionIsFresh(min, s.calls, k);
  }

  // ----- one call by itself

  /** The steps of a writer that gets the mutex and is not interrupted. */
  function Section(i: nat, line: Line, probe: Probe, room: bool, fault: Option<nat>): seq<Event> {
    var put :=
      if !room then []
      else if fault.None? then [Append(i, |Record(line)|), Complete(i)]
      else if fault.value == 0 then [Fail(i)]
      else [Append(i, fault.value), Fail(i)];
    [Lock(i), Consult(i, probe)] + put + [Report(i)]
  }

  lemma ThenRuns(min: nat, s: State, e: Event, es: seq<Event>)
    requires Can(s, e) && Legal(min, Do(min, s, e), es)
    ensures Legal(min, s, [e] + es) && After(min, s, [e] + es) == After(min, Do(min, s, e), es)
  {
    hide Can, Do;
    assert ([e] + es)[1..] == es;
  }

  lemma ReportLast(min: nat, s: State, i: nat)
    requires Can(s, Report(i))
    ensures Legal(min, s, [Report(i)]) && After(min, s, [Report(i)]) == Do(min, s, Report(i))
  {
    assert [Report(i)][1..] == [];
  }

  /** An uninterrupted critical section does to the file, the guard and the console what the
      `Write` method of `Logger` promises. */
  lemma SectionIsWrite(min: nat, s: State, i: nat, probe: Probe, fault: Option<nat>)
    requires i < |s.writers| && s.writers[i].Ready? && s.holder.None?
    requires fault.Some? ==> fault.value < |Record(s.writers[i].line)|
    ensures var line, o := s.writers[i].line, Ask(min, s.guard, s.now, probe);
            var es := Section(i, line, probe, o.room, fault);
            && Legal(min, s, es)
            && var s' := After(min, s, es);
            && s'.guard == o.guard && s'.holder.None?
            && s'.file == s.file + (if o.room then Logger.Landed(Record(line), fault) else [])
            && s'.console == s.console + Messages(o.changes)
                             + (if o.room && fault.Some? then [WriteError] else [])
                             + [Status(line)]
  {
    hide Legal, After, Ask;
    var line, o := s.writers[i].line, Ask(min, s.guard, s.now, probe);
    var s1 := Do(min, s, Lock(i));
    var s2 := Do(min, s1, Consult(i, probe));
    var es: seq<Event> := [Report(i)];
    if !o.room {
      ReportLast(min, s2, i);
      assert [Lock(i), Consult(i, probe)] + [] + es == [Lock(i)] + ([Consult(i, probe)] + es);
      assert s.console + Messages(o.changes) + [] == s.console + Messages(o.changes);
    } else {
      es := PutRuns(min, s2, i, fault);
      assert Section(i, line, probe, o.room, fault) == [Lock(i)] + ([Consult(i, probe)] + es);
      assert s.console + Messages(o.changes) + [] == s.console + Messages(o.changes);
    }
    ThenRuns(min, s1, Consult(i, probe), es);
    ThenRuns(min, s, Lock(i), [Consult(i, probe)] + es);
  }

  /** A record that cannot be marshalled leaves one line on the console and touches nothing else. */
  lemma RejectIsWrite(min: nat, s: State, i: nat)
    requires Can(s, Reject(i))
    ensures Do(min, s, Reject(i)) == s.(console := s.console + [MarshalError])
  {
  }

  lemma PutRuns(min: nat, s: State, i: nat, fault: Option<nat>) returns (es: seq<Event>)
    requires i < |s.writers| && s.writers[i].Appending? && s.writers[i].n == 0
    requires fault.Some? ==> fault.value < |Record(s.writers[i].line)|
    ensures var line := s.writers[i].line;
            && es == (if fault.None? then [Append(i, |Record(line)|), Complete(i)]
                      else if fault.value == 0 then [Fail(i)]
                      else [Append(i, fault.value), Fail(i)]) + [Report(i)]
            && Legal(min, s, es)
            && var s' := After(min, s, es);
            && s'.guard == s.guard && s'.holder.None?
            && s'.file == s.file + Logger.Landed(Record(line), fault)
            && s'.console == s.console + (if fault.Some? then [WriteError] else []) + [Status(line)]
  {
    hide Legal, After;
    var line := s.writers[i].line;
    var n := if fault.None? then |Record(line)| else fault.value;
    var last := if fault.None? then Complete(i) else Fail(i);
    var s1 := if n == 0 then s else Do(min, s, Append(i, n));
    var s2 := Do(min, s1, last);
    ReportLast(min, s2, i);
    ThenRuns(min, s1, last, [Report(i)]);
    es := [last] + [Report(i)];
    assert Record(line)[0..n] == Logger.Landed(Record(line), fault);
    if n > 0 {
      ThenRuns(min, s, Append(i, n), es);
      es := [Append(i, n)] + es;
    } else {
      assert s.file + [] == s.file;
    }
    assert s.console + [] == s.console;
  }

  // ----- every record keeps its text

  function LineOf(w: Phase): multiset<Line> {
    if w.Idle? then multiset{} else multiset{w.line}
  }

  function Held(ws: seq<Phase>): multiset<Line> {
    if ws == [] then multiset{} else Held(ws[..|ws| - 1]) + LineOf(ws[|ws| - 1])
  }

  function Submitted(es: seq<Event>): multiset<Line> {
    if es == [] then multiset{}
    else (if es[0].Submit? then multiset{es[0].line} else multiset{}) + Submitted(es[1..])
  }

  lemma HeldOneMore(ws: seq<Phase>, w: Phase)
    ensures Held(ws + [w]) == Held(ws) + LineOf(w)
  {
    assert (ws + [w])[..|ws|] == ws;
  }

  lemma {:induction false} HeldUpdate(ws: seq<Phase>, i: nat, w: Phase)
    requires i < |ws|
    ensures Held(ws[i := w]) + LineOf(ws[i]) == Held(ws) + LineOf(w)
  {
    hide Held, LineOf;
    var n := |ws| - 1;
    HeldOneMore(ws[..n], ws[n]);
    assert ws == ws[..n] + [ws[n]];
    if i < n {
      HeldUpdate(ws[..n], i, w);
      HeldOneMore(ws[..n][i := w], ws[n]);
      assert ws[i := w] == ws[..n][i := w] + [ws[n]];
      Beside(Held(ws[..n]), Held(ws[..n][i := w]), LineOf(ws[i]), LineOf(w), LineOf(ws[n]));
    } else {
      HeldOneMore(ws[..n], w);
      assert ws[i := w] == ws[..n] + [w];
    }
  }

  lemma Moves(held: multiset<Line>, held': multiset<Line>, before: multiset<Line>, after: multiset<Line>)
    requires held' + before == held + after
    ensures before == after ==> held' == held
    ensures before == multiset{} ==> held' == held + after
    ensures after == multiset{} ==> held == held' + before
  {
    forall x ensures held'[x] + before[x] == held[x] + after[x] {
      assert (held' + before)[x] == (held + after)[x];
    }
  }

  lemma Beside(held: multiset<Line>, held': multiset<Line>, before: multiset<Line>, after: multiset<Line>,
               l: multiset<Line>)
    requires held' + before == held + after
    ensures held' + l + before == held + l + after
  {
    assert held' + l + before == (held' + before) + l;
  }

  lemma {:induction false} NothingHeld(n: nat)
    ensures Held(seq(n, _ => Idle)) == multiset{}
  {
    if n > 0 {
      NothingHeld(n - 1);
      assert seq(n, _ => Idle)[..n - 1] == seq(n - 1, _ => Idle);
    }
  }

  /** What a step does to the text that its writer holds, and to the ledger. */
  lemma StepMovesText(min: nat, s: State, e: Event)
    requires Can(s, e)
    ensures var s' := Do(min, s, e);
            if e.Pass? || e.Reject? then s'.writers == s.writers && s'.ledger == s.ledger
            else
              && e.i < |s.writers| && s'.writers == s.writers[e.i := s'.writers[e.i]]
              && var w, w' := s.writers[e.i], s'.writers[e.i];
              && (e.Submit? ==> w.Idle? && w' == Ready(e.line))
              && (e.Report? ==> w.Reporting? && w'.Idle? && s'.ledger == s.ledger + [Entry(w.line, w.fate)])
              && (!e.Report? ==> s'.ledger == s.ledger)
              && (!e.Submit? && !e.Report? ==> LineOf(w') == LineOf(w))
  {
    hide Ask, Messages, Printed, Record;
  }

  lemma StepKeepsText(min: nat, s: State, e: Event)
    requires Can(s, e)
    ensures var s' := Do(min, s, e);
            multiset(LinesOf(s'.ledger)) + Held(s'.writers)
            == multiset(LinesOf(s.ledger)) + Held(s.writers)
               + (if e.Submit? then multiset{e.line} else multiset{})
  {
    hide LinesOf, Held, Can, Do;
    var s' := Do(min, s, e);
    StepMovesText(min, s, e);
    if !e.Pass? && !e.Reject? {
      HeldUpdate(s.writers, e.i, s'.writers[e.i]);
      Moves(Held(s.writers), Held(s'.writers), LineOf(s.writers[e.i]), LineOf(s'.writers[e.i]));
    }
    if e.Report? {
      OneMoreEntry(s.ledger, Entry(s.writers[e.i].line, s.writers[e.i].fate));
    }
  }

  lemma {:induction false} RunKeepsText(min: nat, s: State, es: seq<Event>)
    requires Legal(min, s, es)
    ensures var s' := After(min, s, es);
            multiset(LinesOf(s'.ledger)) + Held(s'.writers)
            == multiset(LinesOf(s.ledger)) + Held(s.writers) + Submitted(es)
    decreases |es|
  {
    hide Can, Do, LinesOf, Held;
    if es != [] {
      StepKeepsText(min, s, es[0]);
      RunKeepsText(min, Do(min, s, es[0]), es[1..]);
    }
  }

  /** The status lines, and what the writers still hold, are exactly the submitted records, each as
      often and with the same text. */
  lemma EveryRecordKeepsItsText(min: nat, now: int, n: nat, es: seq<Event>)
    requires Legal(min, Start(now, n), es)
    ensures var s := After(min, Start(now, n), es);
            multiset(StatusLines(s.console)) + Held(s.writers) == Submitted(es)
  {
    hide Can, Do, Legal, After, LinesOf, Held, Submitted, StatusLines;
    InvStart(min, now, n);
    InvAfter(min, Start(now, n), es);
    RunKeepsText(min, Start(now, n), es);
    NothingHeld(n);
    NoLines();
  }

  lemma NoLines()
    ensures LinesOf([]) == []
  {
  }

  function Elapsed(es: seq<Event>): nat {
    if es == [] then 0 else (if es[0].Pass? then es[0].t else 0) + Elapsed(es[1..])
  }

  /** Time passes by itself, and the guard is asked with the time of its own turn: all calls lie in
      the span of the run. */
  lemma {:induction false} CallsAreTimed(min: nat, s: State, es: seq<Event>)
    requires Legal(min, s, es)
    ensures var s' := After(min, s, es);
            && s'.now == s.now + Elapsed(es)
            && s.calls <= s'.calls
            && forall k | |s.calls| <= k < |s'.calls| :: s.now <= s'.calls[k].now <= s'.now
    decreases |es|
  {
    hide Ask, Messages, Printed, Record;
    if es != [] {
      CallsAreTimed(min, Do(min, s, es[0]), es[1..]);
    }
  }
}
