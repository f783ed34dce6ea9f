/**
 One tick of a log_tail check: `resolveLogPath` and `fillLogTail`.  The table of cursors is keyed
 by check name and updated in place; the operating system's answers are parameters.
 */
module LogTail {
  import opened Lines
  import opened Options
  import opened Scanner

  const INITIAL_BUFFER: nat := 64 * 1024
  const MAX_LINE: nat := 1024 * 1024
  const MATCH_CAP: nat := 50

  /** The last file tailed and the byte offset reached in it. */
  datatype TailState = TailState(path: string, offset: nat)

  datatype Why = FirstSighting | Rotated | Truncated

  datatype Decision = Rebase(why: Why) | ScanFrom(offset: nat)

  /** Whether a tick takes a fresh baseline at the end of the file, or scans on from its cursor. */
  function Decide(st: Option<TailState>, path: string, size: nat): Decision {
    if st.None? then Rebase(FirstSighting)
    else if st.value.path != path then Rebase(Rotated)
    else if st.value.offset > size then Rebase(Truncated)
    else ScanFrom(st.value.offset)
  }

  datatype Stage = BadPattern | Unresolved | Unopened | Unstatable | Unseekable

  datatype Outcome =
    | Failed(stage: Stage)
    | BaselineAt(offset: nat, why: Why)
    | Tailed(linesScanned: nat, matches: seq<Line>, offset: nat)

  datatype Result = Result(success: bool, hasError: bool, outcome: Outcome)

  /** What the operating system answers during one tick. `delivered` is what reading from the
      cursor yields until the first end-of-file or read error, `tells` whether the position is known
      afterwards. */
  datatype Os = Os(patternOk: bool, path: Option<string>, opens: bool, size: Option<nat>,
                   seeks: bool, delivered: seq<byte>, tells: bool)

  function Matching(lines: seq<Line>, hit: Line -> bool): (ms: seq<Line>)
    ensures ms == [] <==> forall l | l in lines :: !hit(l)
    ensures |ms| <= |lines|
  {
    if lines == [] then []
    else
      var ms := Matching(lines[..|lines| - 1], hit);
      var l := lines[|lines| - 1];
      assert lines == lines[..|lines| - 1] + [l];
      if hit(l) then ms + [l] else ms
  }

  function Capped(ms: seq<Line>): seq<Line> {
    if |ms| <= MATCH_CAP then ms else ms[..MATCH_CAP]
  }

  function Report(scan: Lines.Scanned, offset: nat, hit: Line -> bool): Result {
    var ms := Capped(Matching(scan.lines, hit));
    Result(ms == [], ms != [], Tailed(|scan.lines|, ms, offset))
  }

  function Failure(stage: Stage): Result {
    Result(false, true, Failed(stage))
  }

  /** The tick as a function of the check's own cursor. */
  function Tick(st: Option<TailState>, os: Os, hit: Line -> bool): (Result, Option<TailState>) {
    if !os.patternOk then (Failure(BadPattern), st)
    else if os.path.None? then (Failure(Unresolved), st)
    else if !os.opens then (Failure(Unopened), st)
    else if os.size.None? then (Failure(Unstatable), st)
    else
      var path, size := os.path.value, os.size.value;
      match Decide(st, path, size)
      case Rebase(why) => (Result(true, false, BaselineAt(size, why)), Some(TailState(path, size)))
      case ScanFrom(from) =>
        if !os.seeks then (Failure(Unseekable), st)
        else
          var scan := Lines.Scan(os.delivered, MAX_LINE);
          var offset := if os.tells then from + scan.consumed else 0;
          (Report(scan, offset, hit), Some(TailState(path, offset)))
  }

  function Cursor(states: map<string, TailState>, name: string): Option<TailState> {
    if name in states then Some(states[name]) else None
  }

  /** The file could be found, opened and measured. */
  predicate Readable(os: Os) {
    os.patternOk && os.path.Some? && os.opens && os.size.Some?
  }

  /** The cursor is in the file that was found, and not past its end. */
  predicate Resumes(st: Option<TailState>, os: Os)
    requires Readable(os)
  {
    st.Some? && st.value.path == os.path.value && st.value.offset <= os.size.value
  }

  class Tailer {
    var states: map<string, TailState>

    constructor ()
      ensures states == map[]
    {
      states := map[];
    }

    /** fillLogTail.  Whatever fails before the scan makes an unsuccessful result with an error, and
        leaves all cursors alone.  A file that the check has not been in, or that has become shorter
        than the cursor, gives a success and a cursor at its end.  Otherwise the file is scanned from
        the cursor: the tick succeeds exactly when no line hits, it reports all lines and the first
        fifty hits, and the cursor moves by what was read, in lines of less than a mebibyte, or to 0
        if the position is not known.  No other check's cursor moves. */
    method FillLogTail(name: string, os: Os, hit: Line -> bool) returns (res: Result)
      modifies this`states
      ensures (res, Cursor(states, name)) == Tick(Cursor(old(states), name), os, hit)
      ensures forall other | other != name :: Cursor(states, other) == Cursor(old(states), other)
      ensures !Readable(os) || (Resumes(Cursor(old(states), name), os) && !os.seeks) ==>
                !res.success && res.hasError && res.outcome.Failed? && states == old(states)
      ensures res.outcome.Failed? ==>
                match res.outcome.stage
                case BadPattern => !os.patternOk
                case Unresolved => os.patternOk && os.path.None?
                case Unopened => os.patternOk && os.path.Some? && !os.opens
                case Unstatable => os.patternOk && os.path.Some? && os.opens && os.size.None?
                case Unseekable => Readable(os) && !os.seeks
      ensures Readable(os) && !Resumes(Cursor(old(states), name), os) ==>
                && res.success && !res.hasError
                && states == old(states)[name := TailState(os.path.value, os.size.value)]
                && res.outcome == BaselineAt(os.size.value,
                                             if name !in old(states) then FirstSighting
                                             else if old(states)[name].path != os.path.value then Rotated
                                             else Truncated)
      ensures Readable(os) && Resumes(Cursor(old(states), name), os) && os.seeks ==>
                && var scan, hits := Lines.Scan(os.delivered, 1_048_576),
                                     Matching(Lines.Scan(os.delivered, 1_048_576).lines, hit);
                   var end := if os.tells then old(states)[name].offset + scan.consumed else 0;
                && (res.success <==> forall l | l in scan.lines :: !hit(l)) && res.hasError == !res.success
                && states == old(states)[name := TailState(os.path.value, end)]
                && res.outcome.Tailed? && res.outcome.offset == end && res.outcome.linesScanned == |scan.lines|
                && res.outcome.matches <= hits
                && |res.outcome.matches| == if |hits| <= 50 then |hits| else 50
    {
      hide Lines.Scan, Lines.IndexLF, Matching;
      if !os.patternOk { return Failure(BadPattern); }
      if os.path.None? { return Failure(Unresolved); }
      if !os.opens { return Failure(Unopened); }
      if os.size.None? { return Failure(Unstatable); }
      var path, size := os.path.value, os.size.value;
      var st := Cursor(states, name);
      match Decide(st, path, size)
      case Rebase(why) =>
        states := states[name := TailState(path, size)];
        return Result(true, false, BaselineAt(size, why));
      case ScanFrom(from) =>
        if !os.seeks { return Failure(Unseekable); }
        var lines, matches, moved := ScanFile(os.delivered, hit);
        var offset := if os.tells then from + moved else 0;
        states := states[name := TailState(path, offset)];
        return Result(matches == [], matches != [], Tailed(lines, matches, offset));
    }
  }

  /** The scan loop: counts the lines, keeps the first fifty matches, and reports how far the
      file position moved. */
  method ScanFile(delivered: seq<byte>, hit: Line -> bool)
    returns (lines: nat, matches: seq<Line>, moved: nat)
    ensures var scan := Lines.Scan(delivered, MAX_LINE);
            && lines == |scan.lines|
            && matches == Capped(Matching(scan.lines, hit))
            && moved == scan.consumed
  {
    hide Lines.Scan, Lines.IndexLF;
    var file := new LogFile(delivered);
    var sc := new LineScanner(file, INITIAL_BUFFER, MAX_LINE);
    lines, matches := 0, [];
    ghost var seen: seq<Line> := [];
    assert delivered[0..] == delivered;
    assert sc.Rest(0) == Then([], 0, sc.Rest(0));
    while true
      invariant sc.Valid() && fresh(sc.buf) && sc.file == file && sc.max == MAX_LINE
      invariant lines == |seen| && matches == Capped(Matching(seen, hit))
      invariant sc.Rest(0) == Then(seen, sc.taken, sc.Rest(sc.taken))
      decreases |delivered| - sc.taken
    {
      ghost var before := sc.taken;
      var ok, line := sc.Scan();
      if !ok {
        assert seen + [] == seen;
        break;
      }
      ThenAgain(seen, before, [line], sc.taken - before, sc.Rest(sc.taken));
      OneMore(seen, line, hit);
      seen := seen + [line];
      lines := lines + 1;
      if hit(line) && |matches| < MATCH_CAP {
        matches := matches + [line];
      }
    }
    moved := file.pos;
  }

  lemma ThenAgain(xs: seq<Line>, m: nat, ys: seq<Line>, n: nat, next: Lines.Scanned)
    ensures Then(xs, m, Then(ys, n, next)) == Then(xs + ys, m + n, next)
  {
    ConcatAssoc(xs, ys, next.lines);
  }

  lemma OneMore(seen: seq<Line>, line: Line, hit: Line -> bool)
    ensures Matching(seen + [line], hit) == Matching(seen, hit) + if hit(line) then [line] else []
  {
    assert (seen + [line])[..|seen|] == seen;
  }

  // ----- the verdict

  /** `at` lists, in order, exactly the positions of the lines that match. */
  ghost predicate Locates(lines: seq<Line>, hit: Line -> bool, at: seq<nat>)
    ensures Locates(lines, hit, at) ==> forall k | 0 <= k < |at| :: at[k] < |lines|
  {
    && (forall k | 0 <= k < |at| :: at[k] < |lines|)
    && (forall j, k | 0 <= j < k < |at| :: at[j] < at[k])
    && (forall i: nat | i < |lines| :: hit(lines[i]) <==> i in at)
  }

  function LinesAt(lines: seq<Line>, at: seq<nat>): seq<Line>
    requires forall k | 0 <= k < |at| :: at[k] < |lines|
  {
    seq(|at|, k requires 0 <= k < |at| => lines[at[k]])
  }

  /** The list of matches consists of exactly the matching lines, in the order of the file. */
  lemma {:induction false} MatchingPositions(lines: seq<Line>, hit: Line -> bool) returns (at: seq<nat>)
    ensures Locates(lines, hit, at)
    ensures Matching(lines, hit) == LinesAt(lines, at)
  {
    if lines == [] {
      return [];
    }
    var n := |lines| - 1;
    at := MatchingPositions(lines[..n], hit);
    hide Locates, LinesAt;
    if hit(lines[n]) {
      LocatesHit(lines, n, hit, at);
      at := at + [n];
    } else {
      LocatesMiss(lines, n, hit, at);
    }
  }

  lemma LocatesHit(lines: seq<Line>, n: nat, hit: Line -> bool, at: seq<nat>)
    requires |lines| == n + 1 && Locates(lines[..n], hit, at) && hit(lines[n])
    ensures Locates(lines, hit, at + [n])
    ensures LinesAt(lines, at + [n]) == LinesAt(lines[..n], at) + [lines[n]]
  {
    forall i: nat | i < |lines| ensures hit(lines[i]) <==> i in at + [n] {
      if i < n { assert lines[..n][i] == lines[i]; }
    }
  }

  lemma LocatesMiss(lines: seq<Line>, n: nat, hit: Line -> bool, at: seq<nat>)
    requires |lines| == n + 1 && Locates(lines[..n], hit, at) && !hit(lines[n])
    ensures Locates(lines, hit, at)
    ensures LinesAt(lines, at) == LinesAt(lines[..n], at)
  {
    forall i: nat | i < |lines| ensures hit(lines[i]) <==> i in at {
      if i < n { assert lines[..n][i] == lines[i]; }
    }
  }

  /** A scanning tick succeeds exactly when no scanned line matches.  The reported matches are the
      first fifty; the reported count saturates there, while the line count does not. */
  lemma Verdict(st: Option<TailState>, os: Os, hit: Line -> bool)
    requires Tick(st, os, hit).0.outcome.Tailed?
    ensures var res, lines := Tick(st, os, hit).0, Lines.Scan(os.delivered, MAX_LINE).lines;
            var all := Matching(lines, hit);
            && (res.success <==> forall l | l in lines :: !hit(l))
            && res.hasError == !res.success
            && res.outcome.linesScanned == |lines|
            && res.outcome.matches <= all
            && |res.outcome.matches| == if |all| <= 50 then |all| else 50
  {
    var lines := Lines.Scan(os.delivered, MAX_LINE).lines;
    var all := Matching(lines, hit);
    assert Capped(all) <= all;
  }

  /** A tick scans exactly when the check's last tick saw the same file and that file has not
      become shorter than the cursor. */
  lemma ScansIff(st: Option<TailState>, os: Os, hit: Line -> bool)
    requires os.patternOk && os.path.Some? && os.opens && os.size.Some? && os.seeks
    ensures Tick(st, os, hit).0.outcome.Tailed?
       <==> st.Some? && st.value.path == os.path.value && st.value.offset <= os.size.value
    ensures var (res, after) := Tick(st, os, hit);
            !res.outcome.Tailed? ==> res.success && after == Some(TailState(os.path.value, os.size.value))
  {
  }

  // ----- a tick that lands inside a line

  function HitOf(l: Line, hit: Line -> bool): seq<Line> {
    if hit(l) then [l] else []
  }

  lemma {:induction false} MatchingAppend(xs: seq<Line>, ys: seq<Line>, hit: Line -> bool)
    ensures Matching(xs + ys, hit) == Matching(xs, hit) + Matching(ys, hit)
    decreases |ys|
  {
    hide Matching;
    if ys == [] {
      assert xs + ys == xs;
      MatchingNone(hit);
    } else {
      var n := |ys| - 1;
      MatchingAppend(xs, ys[..n], hit);
      assert xs + ys == (xs + ys[..n]) + [ys[n]] && ys == ys[..n] + [ys[n]];
      OneMore(ys[..n], ys[n], hit);
      OneMore(xs + ys[..n], ys[n], hit);
    }
  }

  lemma MatchingNone(hit: Line -> bool)
    ensures Matching([], hit) == []
  {
  }

  lemma MatchingOne(l: Line, hit: Line -> bool)
    ensures Matching([l], hit) == HitOf(l, hit)
  {
    assert [l][..0] == [];
  }

  /** The lines of a scan, seen around one of them. */
  lemma MatchingAround(before: seq<Line>, l: Line, after: seq<Line>, hit: Line -> bool)
    ensures Matching(before + ([l] + after), hit) == Matching(before, hit) + (HitOf(l, hit) + Matching(after, hit))
  {
    MatchingAppend([l], after, hit);
    MatchingOne(l, hit);
    MatchingAppend(before, [l] + after, hit);
  }

  /** Exactly how a tick boundary inside a line changes the matches, for any data and any pattern:
      the hits among the two fragments stand where the hit of the whole line would stand, and all
      other matches agree.  So a match can be lost, and one can be invented; and the verdict changes
      exactly when no other line hits and the pattern hits a fragment but not the line, or the line
      but no fragment. */
  lemma CutMatches(a: seq<byte>, b: seq<byte>, hit: Line -> bool, max: nat)
    requires !Aligned(a) && b != [] && Fits(a + b, max)
    ensures var t, s := Tail(a), FirstPart(b);
            var before := Matching(Lines.Scan(Head(a), max).lines, hit);
            var after := Matching(Lines.Scan(AfterFirst(b), max).lines, hit);
            var twice := Matching(Lines.Scan(a, max).lines, hit) + Matching(Lines.Scan(b, max).lines, hit);
            var once := Matching(Lines.Scan(a + b, max).lines, hit);
            && twice == before + (HitOf(DropCR(t), hit) + (HitOf(DropCR(s), hit) + after))
            && once == before + (HitOf(DropCR(t + s), hit) + after)
            && ((twice == [] <==> once == []) <==>
                  before != [] || after != [] || ((hit(DropCR(t)) || hit(DropCR(s))) <==> hit(DropCR(t + s))))
  {
    hide Lines.Scan, Lines.IndexLF, Matching, Tail, Head, FirstPart, AfterFirst;
    CutLine(a, b, max);
    var t, s := Tail(a), FirstPart(b);
    var before, after := Lines.Scan(Head(a), max).lines, Lines.Scan(AfterFirst(b), max).lines;
    MatchingAppend(before, [DropCR(t)], hit);
    MatchingOne(DropCR(t), hit);
    MatchingAppend([DropCR(s)], after, hit);
    MatchingOne(DropCR(s), hit);
    MatchingAround(before, DropCR(t + s), after, hit);
    ConcatAssoc(Matching(before, hit), HitOf(DropCR(t), hit), HitOf(DropCR(s), hit) + Matching(after, hit));
  }

  /** Both kinds of change occur at every cut: for any line cut into two parts, the pattern that
      hits just that line finds nothing, and the one that hits just the first part finds a line that
      is not in the file. */
  lemma CutLosesAndInvents(t: seq<byte>, s: seq<byte>, max: nat)
    requires t != [] && s != [] && LF !in t + s && CR !in t + s && |t| + |s| < max
    ensures var lost := (l: Line) => l == t + s;
            && Matching(Lines.Scan(t + (s + [LF]), max).lines, lost) == [t + s]
            && Matching(Lines.Scan(t, max).lines, lost) == Matching(Lines.Scan(s + [LF], max).lines, lost) == []
    ensures var invented := (l: Line) => l == t;
            && Matching(Lines.Scan(t + (s + [LF]), max).lines, invented) == []
            && Matching(Lines.Scan(t, max).lines, invented) == [t]
  {
    hide Lines.Scan, Lines.IndexLF;
    CutScans(t, s, max);
    var lost, invented := (l: Line) => l == t + s, (l: Line) => l == t;
    MatchingOne(t + s, lost);
    MatchingOne(t, lost);
    MatchingOne(s, lost);
    MatchingOne(t + s, invented);
    MatchingOne(t, invented);
    assert |t + s| > |t| && |t + s| > |s|;
  }

  lemma CutScans(t: seq<byte>, s: seq<byte>, max: nat)
    requires t != [] && s != [] && LF !in t + s && CR !in t + s && |t| + |s| < max
    ensures Lines.Scan(t + (s + [LF]), max).lines == [t + s]
    ensures Lines.Scan(t, max).lines == [t] && Lines.Scan(s + [LF], max).lines == [s]
  {
    hide Lines.Scan, Lines.IndexLF;
    ScanNothing(max);
    NoCR(t + s, |t| - 1);
    NoCR(t + s, |t + s| - 1);
    ScanLine(t + s, [], max);
    assert t + s + [LF] + [] == t + (s + [LF]);
    ScanLast(t, max);
    ScanLine(s, [], max);
    assert s + [LF] + [] == s + [LF];
  }

  lemma NoCR(x: seq<byte>, k: nat)
    requires CR !in x && k < |x|
    ensures x[k] != CR
  {
  }

  // ----- a file that stands still

  /** What the system answers about a file that can be read and does not change. */
  function Still(path: string, file: seq<byte>, from: nat): Os
    requires from <= |file|
  {
    Os(true, Some(path), true, Some(|file|), true, file[from..], true)
  }

  /** The offset after n ticks on such a file. */
  function OffsetAfter(path: string, file: seq<byte>, offset: nat, hit: Line -> bool, n: nat): (end: nat)
    requires offset <= |file|
    ensures end <= |file|
  {
    if n == 0 then offset
    else
      var from := OffsetAfter(path, file, offset, hit, n - 1);
      StillTick(path, file, from, hit);
      Tick(Some(TailState(path, from)), Still(path, file, from), hit).1.value.offset
  }

  lemma StillTick(path: string, file: seq<byte>, from: nat, hit: Line -> bool)
    requires from <= |file|
    ensures var (res, st) := Tick(Some(TailState(path, from)), Still(path, file, from), hit);
            && res.outcome.Tailed?
            && st == Some(TailState(path, from + Lines.Scan(file[from..], MAX_LINE).consumed))
            && st.value.offset <= |file|
            && (st.value.offset == |file| || st.value.offset >= from + MAX_LINE)
  {
    hide Lines.Scan, Lines.IndexLF, Matching;
    ConsumedBounds(file[from..], MAX_LINE);
  }

  lemma {:induction false} StillProgress(path: string, file: seq<byte>, offset: nat, hit: Line -> bool, n: nat)
    requires offset <= |file|
    ensures var end := OffsetAfter(path, file, offset, hit, n);
            end == |file| || end >= offset + n * MAX_LINE
  {
    hide Tick;
    if n > 0 {
      StillProgress(path, file, offset, hit, n - 1);
      StillTick(path, file, OffsetAfter(path, file, offset, hit, n - 1), hit);
    }
  }

  /** Overlong lines cannot stall the tail: on a file that stands still, whatever it holds, the
      ticks have reached its end after one more than the number of whole buffers in the backlog,
      and stay there. */
  lemma BacklogDrains(path: string, file: seq<byte>, offset: nat, hit: Line -> bool, n: nat)
    requires offset <= |file| && n >= (|file| - offset) / MAX_LINE + 1
    ensures OffsetAfter(path, file, offset, hit, n) == |file|
  {
    hide OffsetAfter;
    StillProgress(path, file, offset, hit, n);
    BuffersCover(|file| - offset, n);
  }

  lemma BuffersCover(backlog: nat, n: nat)
    requires n >= backlog / MAX_LINE + 1
    ensures n * MAX_LINE > backlog
  {
  }

  // ----- what the verdict does not see

  /** A scan that an overlong line stopped reports no error and has matched nothing of that line: the
      last full buffer, all of it inside the line, reaches no pattern, and the tick succeeds exactly
      when no line before it hits. */
  lemma OverlongIsUnseen(st: Option<TailState>, os: Os, hit: Line -> bool)
    requires Tick(st, os, hit).0.outcome.Tailed? && !Fits(os.delivered, MAX_LINE)
    ensures var res, end := Tick(st, os, hit).0, Lines.Scan(os.delivered, MAX_LINE).consumed;
            && MAX_LINE <= end <= |os.delivered|
            && LF !in os.delivered[end - MAX_LINE..end]
            && (res.success <==>
                  forall l | l in Lines.Scan(os.delivered[..end - MAX_LINE], MAX_LINE).lines :: !hit(l))
            && res.outcome.linesScanned == |Lines.Scan(os.delivered[..end - MAX_LINE], MAX_LINE).lines|
  {
    hide Lines.Scan, Lines.IndexLF;
    OverlongDropped(os.delivered, MAX_LINE);
    Verdict(st, os, hit);
  }

  /** When the position cannot be read back after a scan, the error is ignored and offset 0 is
      stored: if the next tick finds the same file, it scans all of it again. */
  lemma UnknownPositionRescans(st: Option<TailState>, os: Os, next: Os, hit: Line -> bool)
    requires Tick(st, os, hit).0.outcome.Tailed?
    ensures var (_, after) := Tick(st, os, hit);
            after == Some(TailState(os.path.value,
                                    if os.tells then st.value.offset + Lines.Scan(os.delivered, MAX_LINE).consumed
                                    else 0))
    ensures next.path == os.path && next.size.Some? && !os.tells ==>
              Decide(Tick(st, os, hit).1, next.path.value, next.size.value) == ScanFrom(0)
  {
  }

  // ----- choosing the file

  predicate HasGlobMeta(p: string) {
    exists k :: 0 <= k < |p| && p[k] in {'*', '?', '['}
  }

  /** A candidate file and its modification time; 0 stands for a file that cannot be examined. */
  datatype Stamped = Stamped(path: string, mod: int)

  ghost predicate NewestFirst(s: seq<Stamped>) {
    forall i, j | 0 <= i < j < |s| :: s[i].mod >= s[j].mod
  }

  /** resolveLogPath: a plain path is used as it is; a glob yields a file of maximal modification
      time among its matches, where a file that cannot be examined counts as one of time 0.  Ties are
      settled by an unstable sort, so any newest file may win. */
  method ResolveLogPath(logPath: string, glob: Option<seq<string>>, mtime: string -> Option<int>)
    returns (path: Option<string>)
    ensures HasGlobMeta(logPath) <==> '*' in logPath || '?' in logPath || '[' in logPath
    ensures !HasGlobMeta(logPath) ==> path == Some(logPath)
    ensures HasGlobMeta(logPath) ==> (path.None? <==> glob.None? || glob.value == [])
    ensures HasGlobMeta(logPath) && path.Some? ==> path.value in glob.value
    ensures HasGlobMeta(logPath) && path.Some? && mtime(path.value).Some? ==>
              forall p | p in glob.value ::
                if mtime(p).Some? then mtime(p).value <= mtime(path.value).value
                else mtime(path.value).value >= 0
    ensures HasGlobMeta(logPath) && path.Some? && mtime(path.value).None? ==>
              forall p | p in glob.value && mtime(p).Some? :: mtime(p).value <= 0
  {
    if !HasGlobMeta(logPath) { return Some(logPath); }
    if glob.None? || glob.value == [] { return None; }
    var found := glob.value;
    if |found| == 1 { return Some(found[0]); }
    var stats: seq<Stamped> := [];
    for k := 0 to |found|
      invariant |stats| == k
      invariant forall j | 0 <= j < k :: stats[j] == Stamped(found[j], Age(found[j], mtime))
    {
      stats := stats + [Stamped(found[k], Age(found[k], mtime))];
    }
    var sorted := SortNewestFirst(stats);
    SortedHeadIsNewest(stats, sorted);
    assert sorted[0] in multiset(stats);
    assert forall j | 0 <= j < |found| :: stats[j] in stats;
    assert forall p | p in found :: Age(sorted[0].path, mtime) >= Age(p, mtime);
    return Some(sorted[0].path);
  }

  function Age(p: string, mtime: string -> Option<int>): int {
    if mtime(p).Some? then mtime(p).value else 0
  }

  /** sort.Slice promises a sorted permutation and nothing about equal elements, so any such
      permutation is allowed here. */
  method SortNewestFirst(s: seq<Stamped>) returns (r: seq<Stamped>)
    ensures Permutes(r, s) && NewestFirst(r)
  {
    r := [];
    for k := 0 to |s|
      invariant Permutes(r, s[..k]) && NewestFirst(r)
    {
      assert s[..k + 1] == s[..k] + [s[k]];
      r := Insert(r, s[k]);
    }
    assert s[..|s|] == s;
  }

  ghost predicate Permutes(r: seq<Stamped>, s: seq<Stamped>) {
    multiset(r) == multiset(s)
  }

  function Insert(r: seq<Stamped>, x: Stamped): (o: seq<Stamped>)
    requires NewestFirst(r)
    ensures Permutes(o, [x] + r) && NewestFirst(o)
  {
    if r == [] || x.mod >= r[0].mod then [x] + r
    else
      var rest := Insert(r[1..], x);
      InsertKeeps(r, x, rest);
      [r[0]] + rest
  }

  lemma InsertKeeps(r: seq<Stamped>, x: Stamped, rest: seq<Stamped>)
    requires r != [] && NewestFirst(r) && x.mod < r[0].mod
    requires Permutes(rest, [x] + r[1..]) && NewestFirst(rest)
    ensures Permutes([r[0]] + rest, [x] + r) && NewestFirst([r[0]] + rest)
  {
    assert r == [r[0]] + r[1..];
    forall y | y in rest ensures r[0].mod >= y.mod {
      assert y in multiset(rest);
      assert y in multiset([x] + r[1..]);
    }
  }

  lemma SortedHeadIsNewest(s: seq<Stamped>, r: seq<Stamped>)
    requires Permutes(r, s) && NewestFirst(r) && s != []
    ensures r != [] && r[0] in s
    ensures forall x | x in s :: r[0].mod >= x.mod
  {
    assert s[0] in multiset(s);
    assert r[0] in multiset(r);
    forall x | x in s ensures r[0].mod >= x.mod {
      assert x in multiset(s) && x in multiset(r);
    }
  }
}
