/**
 What a log_tail check has and has not been given: the exact condition under which nothing before
 its cursor was missed, the lines of its ticks against one scan, and the runs that show the limits.
 */
module TailCoverage {
  import opened Lines
  import opened Options
  import opened LogTail
  import opened TailProtocol
  import opened TailSystem

  // ----- a cut file stays visible

  /** Position k lies before the check's front, and the byte there is gone or was never handled. */
  predicate Lost(d: Disk, c: Check, k: nat) {
    && c.cursor.Some? && k < Front(c)
    && var f := FileAt(d, c.cursor.value.path);
       k < |f| ==> !Settled(c.hist, f[k].id)
  }

  /** Once the file has been cut below the cursor, there is always such a position. */
  ghost predicate Missing(d: Disk, c: Check) {
    c.cursor.Some? && !c.hist.intact ==> exists k: nat :: Lost(d, c, k)
  }

  /** While a check has measured its file but not decided yet, every byte it has handled and that
      is still in the file was in it when it was measured. */
  ghost predicate Recorded(d: Disk, c: Check) {
    c.phase.Opened? || c.phase.Looked? ==>
      forall k: nat, id: nat :: At(d, c.phase.path, k, id) && Settled(c.hist, id) ==> id in c.phase.present
  }

  lemma MissingAfterAppend(d: Disk, c: Check, p: string, data: seq<byte>)
    requires DiskOk(d) && Serials(d, c) && Missing(d, c)
    ensures Missing(Happens(d, Append(p, data)), c)
  {
    var d' := Happens(d, Append(p, data));
    if c.cursor.Some? && !c.hist.intact {
      var k: nat :| Lost(d, c, k);
      assert Lost(d', c, k);
    }
  }

  lemma MissingAfterTruncate(d: Disk, c: Check, p: string, keep: nat)
    requires Missing(d, c)
    ensures Missing(Happens(d, Truncate(p, keep)), Witness(c, Truncate(p, keep)))
  {
    var e := Truncate(p, keep);
    var d', c' := Happens(d, e), Witness(c, e);
    if c'.cursor.Some? && !c'.hist.intact {
      var n := |FileAt(d, p)|;
      if p == c.cursor.value.path && keep < Front(c) {
        assert Lost(d', c', if keep <= n then keep else n);
      } else {
        var k: nat :| Lost(d, c, k);
        assert Lost(d', c', k);
      }
    }
  }

  lemma RecordedAfterFileEvent(d: Disk, c: Check, e: FileEvent)
    requires DiskOk(d) && Serials(d, c) && Recorded(d, c)
    ensures Recorded(Happens(d, e), Witness(c, e))
  {
    if e.Append? { AppendKeepsDisk(d, e); } else { TruncateKeepsDisk(d, e); }
    hide Happens, At, DiskOk;
    var c' := Witness(c, e);
    forall id: nat | Settled(c'.hist, id) ensures Settled(c.hist, id) {
    }
  }

  lemma MissingAfterRebaseline(d: Disk, c: Check)
    requires PhaseOk(d, c) && Recorded(d, c) && Can(d, c, Rebaseline)
    ensures Missing(d, Do(d, c, Rebaseline))
  {
    hide Lines.Scan, Lines.IndexLF;
    var c' := Do(d, c, Rebaseline);
    var f, n := FileAt(d, c.phase.path), c.phase.size;
    if !c'.hist.intact {
      if n > |f| {
        assert Lost(d, c', |f|);
      } else {
        var id :| id in Ids(f[..n]) && id !in c.phase.present;
        var k :| 0 <= k < n && Ids(f[..n])[k] == id;
        assert At(d, c.phase.path, k, id);
        assert Lost(d, c', k);
      }
    }
  }

  lemma MissingAfterRead(d: Disk, c: Check, n: nat)
    requires DiskOk(d) && PhaseOk(d, c) && Missing(d, c) && Can(d, c, Read(n))
    ensures Missing(d, Do(d, c, Read(n)))
  {
    hide Lines.Scan, Lines.IndexLF, WithinBuffer;
    var c' := Do(d, c, Read(n));
    var p, f := c.phase.path, FileAt(d, c.phase.path);
    if !c'.hist.intact {
      var k: nat :| Lost(d, c, k);
      var more := Ids(f[Front(c)..Front(c) + n]);
      assert At(d, p, k, f[k].id);
      forall i | 0 <= i < n ensures more[i] != f[k].id {
        assert At(d, p, Front(c) + i, more[i]);
      }
      assert Lost(d, c', k);
    }
  }

  lemma RecordedAfterOpen(d: Disk, c: Check, p: string)
    requires Can(d, c, Open(p))
    ensures Recorded(d, Do(d, c, Open(p)))
  {
    forall k: nat, id: nat | At(d, p, k, id) ensures id in Ids(FileAt(d, p)) {
      assert Ids(FileAt(d, p))[k] == id;
    }
  }

  /** The steps that neither move the front nor hand over bytes. */
  lemma MissingAfterOther(d: Disk, c: Check, a: Act)
    requires PhaseOk(d, c) && Missing(d, c) && Can(d, c, a) && !a.Rebaseline? && !a.Read?
    ensures Missing(d, Do(d, c, a))
  {
    hide Lines.Scan, Lines.IndexLF, WithinBuffer, Behind, PresentBehind;
    var c' := Do(d, c, a);
    if c'.cursor.Some? && !c'.hist.intact {
      assert Front(c') == Front(c) && c'.cursor.value.path == c.cursor.value.path;
      var k: nat :| Lost(d, c, k);
      assert Lost(d, c', k);
    }
  }

  ghost predicate Exact(d: Disk, c: Check) {
    Inv(d, c) && Missing(d, c) && Recorded(d, c)
  }

  lemma ExactAfterFileEvent(d: Disk, c: Check, e: FileEvent)
    requires Exact(d, c)
    ensures Exact(Happens(d, e), Witness(c, e))
  {
    InvAfterFileEvent(d, c, e);
    RecordedAfterFileEvent(d, c, e);
    match e
    case Append(p, data) => MissingAfterAppend(d, c, p, data);
    case Truncate(p, keep) => MissingAfterTruncate(d, c, p, keep);
  }

  lemma ExactAfterAct(d: Disk, c: Check, a: Act)
    requires Exact(d, c) && Can(d, c, a)
    ensures Exact(d, Do(d, c, a))
  {
    InvAfterAct(d, c, a);
    if a.Open? { RecordedAfterOpen(d, c, a.path); }
    if a.Rebaseline? {
      MissingAfterRebaseline(d, c);
    } else if a.Read? {
      MissingAfterRead(d, c, a.n);
    } else {
      MissingAfterOther(d, c, a);
    }
    hide Missing, DiskOk, Serials, CursorOk, PhaseOk, Mirrors, Gapless, Tiles, NoDup, WithinBuffer, Lines.Scan;
  }

  lemma {:induction false} ExactAlone(s: Solo, evs: seq<SoloEvent>)
    requires Exact(s.disk, s.check) && LegalAlone(s, evs)
    ensures Exact(AfterAlone(s, evs).disk, AfterAlone(s, evs).check)
    decreases |evs|
  {
    hide Exact, Can, Do, Witness, Happens;
    if evs != [] {
      if evs[0].Own? {
        ExactAfterAct(s.disk, s.check, evs[0].a);
      } else {
        ExactAfterFileEvent(s.disk, s.check, evs[0].e);
      }
      ExactAlone(StepAlone(s, evs[0]), evs[1..]);
    }
  }

  lemma ExactReachable(names: seq<string>, d: Disk, evs: seq<Event>, i: nat)
    requires Reachable(names, d, evs) && i < |names|
    ensures var w := After(names, Start(names, d), evs);
            Exact(w.disk, View(names, w, i))
  {
    hide Legal, After, LegalAlone, AfterAlone;
    var w := Start(names, d);
    InvFresh(d);
    assert Exact(d, FRESH);
    hide Exact;
    assert Alone(names, w, i) == Solo(d, FRESH);
    NonInterference(names, w, evs, i);
    ExactAlone(Alone(names, w, i), Project(evs, i));
  }

  // ----- what a check has been given

  /** Exactly when nothing was missed: whatever the run, the cursor of an idle check is within its
      file and every byte before it was delivered, or was there at a baseline, if and only if the
      file has not been cut below the cursor since it was measured for the latest baseline.  What
      the check was given since then is in that case the file from the baseline to the cursor; and
      in every case the windows of its ticks tile it. */
  lemma CoverageIff(names: seq<string>, d: Disk, evs: seq<Event>, i: nat)
    requires Reachable(names, d, evs) && i < |names|
    requires var c := View(names, After(names, Start(names, d), evs), i);
             c.phase.Idle? && c.cursor.Some?
    ensures var w := After(names, Start(names, d), evs);
            var c := View(names, w, i);
            var file, offset := FileAt(w.disk, c.cursor.value.path), c.cursor.value.offset;
            && (c.hist.intact <==>
                  offset <= |file| && forall k | 0 <= k < offset :: Settled(c.hist, file[k].id))
            && (c.hist.intact ==> c.hist.base <= offset <= |file| && c.hist.epoch == file[c.hist.base..offset])
            && Flatten(c.hist.ticks) == Bytes(c.hist.epoch)
            && c.hist.base + |c.hist.epoch| == offset
  {
    hide Legal, After;
    ExactReachable(names, d, evs, i);
    var w := After(names, Start(names, d), evs);
    ExactIsCoverage(w.disk, View(names, w, i));
  }

  lemma ExactIsCoverage(d: Disk, c: Check)
    requires Exact(d, c) && c.phase.Idle? && c.cursor.Some?
    ensures var file, offset := FileAt(d, c.cursor.value.path), c.cursor.value.offset;
            && (c.hist.intact <==>
                  offset <= |file| && forall k | 0 <= k < offset :: Settled(c.hist, file[k].id))
            && (c.hist.intact ==> c.hist.base <= offset <= |file| && c.hist.epoch == file[c.hist.base..offset])
            && Flatten(c.hist.ticks) == Bytes(c.hist.epoch)
            && c.hist.base + |c.hist.epoch| == offset
  {
    hide Lines.Scan, Lines.IndexLF, DiskOk, Serials, CursorOk, PhaseOk, NoDup;
    assert Flatten(c.hist.ticks) + [] == Flatten(c.hist.ticks);
    var file, offset := FileAt(d, c.cursor.value.path), c.cursor.value.offset;
    if c.hist.intact {
      forall k | 0 <= k < offset ensures Settled(c.hist, file[k].id) {
        assert At(d, c.cursor.value.path, k, file[k].id);
      }
    } else {
      var k: nat :| Lost(d, c, k);
    }
  }

  /** Incremental equals one-shot over any run: the lines a check has reported since its baseline
      are those of a single scan of everything it was given since then exactly when no tick started
      inside a line; and each one that did shows as one extra line.  What it was given is the file
      from the baseline to the cursor as long as that has not been cut below the cursor. */
  lemma EpochLines(names: seq<string>, d: Disk, evs: seq<Event>, i: nat)
    requires Reachable(names, d, evs) && i < |names|
    requires var c := View(names, After(names, Start(names, d), evs), i);
             && c.phase.Idle? && c.cursor.Some?
             && Fits(Bytes(c.hist.epoch), MAX_LINE)
    ensures var w := After(names, Start(names, d), evs);
            var c := View(names, w, i);
            var file := FileAt(w.disk, c.cursor.value.path);
            var whole := Lines.Scan(Bytes(c.hist.epoch), MAX_LINE).lines;
            && (c.hist.lines == whole <==> Cuts([], c.hist.ticks) == 0)
            && |c.hist.lines| == |whole| + Cuts([], c.hist.ticks)
            && (c.hist.intact ==> c.hist.base <= c.cursor.value.offset <= |file|
                                  && c.hist.epoch == file[c.hist.base..c.cursor.value.offset])
  {
    hide Lines.Scan, Lines.IndexLF, Can, Do, Legal, After;
    CoverageIff(names, d, evs, i);
    InvReachable(names, d, evs, i);
    var c := View(names, After(names, Start(names, d), evs), i);
    PiecesIff(c.hist.ticks, MAX_LINE);
  }

  // ----- runs that miss something

  /** A truncation inside a tick, between measuring and storing, leaves a stored offset past the
      end of the file: any nonempty file shows it. */
  lemma OffsetPastEnd(d: Disk, p: string) returns (evs: seq<SoloEvent>)
    requires p in d.files && d.files[p] != []
    ensures LegalAlone(Solo(d, FRESH), evs)
    ensures var s := AfterAlone(Solo(d, FRESH), evs);
            && s.check.phase.Idle? && s.check.cursor.Some?
            && s.check.cursor.value.offset > |FileAt(s.disk, p)|
  {
    hide LegalAlone, AfterAlone;
    var s0 := Solo(d, Baselined(d, p));
    var s1 := StepAlone(s0, Own(Open(p)));
    var s2 := StepAlone(s1, Own(Look));
    var s3 := StepAlone(s2, FileEv(Truncate(p, 0)));
    var s4 := StepAlone(s3, Own(Seek));
    var s5 := StepAlone(s4, Own(Finish));
    EmptyRun(s5);
    evs := [];
    ConsRun(s4, Own(Finish), evs);
    evs := [Own(Finish)] + evs;
    ConsRun(s3, Own(Seek), evs);
    evs := [Own(Seek)] + evs;
    ConsRun(s2, FileEv(Truncate(p, 0)), evs);
    evs := [FileEv(Truncate(p, 0))] + evs;
    ConsRun(s1, Own(Look), evs);
    evs := [Own(Look)] + evs;
    ConsRun(s0, Own(Open(p)), evs);
    evs := [Own(Open(p))] + evs;
    BaselineRun(d, p, evs);
    evs := [Own(Open(p))] + ([Own(Look)] + ([Own(Rebaseline)] + evs));
  }

  /** A file that is emptied and refilled to its old size between two ticks looks unchanged: the
      new bytes are neither scanned nor passed over by a baseline, and the cursor is behind them. */
  lemma RefillIsMissed(d: Disk, p: string, data: seq<byte>) returns (evs: seq<SoloEvent>)
    requires DiskOk(d) && p in d.files && |data| == |d.files[p]| > 0
    ensures LegalAlone(Solo(d, FRESH), evs)
    ensures var s := AfterAlone(Solo(d, FRESH), evs);
            && s.check.phase.Idle? && s.check.cursor == Some(TailState(p, |data|))
            && Bytes(FileAt(s.disk, p)) == data
            && forall k | 0 <= k < |data| :: !Settled(s.check.hist, FileAt(s.disk, p)[k].id)
  {
    hide LegalAlone, AfterAlone;
    var s0 := Solo(d, Baselined(d, p));
    var s1 := StepAlone(s0, FileEv(Truncate(p, 0)));
    var s2 := StepAlone(s1, FileEv(Append(p, data)));
    assert FileAt(s2.disk, p) == Written(data, d.nextId);
    var s3 := StepAlone(s2, Own(Open(p)));
    var s4 := StepAlone(s3, Own(Look));
    var s5 := StepAlone(s4, Own(Seek));
    var s6 := StepAlone(s5, Own(Finish));
    RefillFresh(d, p, data);
    EmptyRun(s6);
    evs := [];
    ConsRun(s5, Own(Finish), evs);
    evs := [Own(Finish)] + evs;
    ConsRun(s4, Own(Seek), evs);
    evs := [Own(Seek)] + evs;
    ConsRun(s3, Own(Look), evs);
    evs := [Own(Look)] + evs;
    ConsRun(s2, Own(Open(p)), evs);
    evs := [Own(Open(p))] + evs;
    ConsRun(s1, FileEv(Append(p, data)), evs);
    evs := [FileEv(Append(p, data))] + evs;
    ConsRun(s0, FileEv(Truncate(p, 0)), evs);
    evs := [FileEv(Truncate(p, 0))] + evs;
    BaselineRun(d, p, evs);
    evs := [Own(Open(p))] + ([Own(Look)] + ([Own(Rebaseline)] + evs));
  }

  lemma RefillFresh(d: Disk, p: string, data: seq<byte>)
    requires DiskOk(d) && p in d.files
    ensures Bytes(Written(data, d.nextId)) == data
    ensures forall k | 0 <= k < |data| ::
              !Settled(Baselined(d, p).hist, Written(data, d.nextId)[k].id)
  {
    var f := FileAt(d, p);
    forall id | id in Ids(f) ensures id < d.nextId {
      var k :| 0 <= k < |f| && Ids(f)[k] == id;
      assert At(d, p, k, id);
    }
  }
}
