/**
 The hold-open check (`fillHoldOpen`): a reader goroutine sits on an idle TLS connection while the
 main goroutine waits for it, for a safety-net timer, or for the outer context; whoever ends the
 connection, `classifyClose` must name the culprit.  Times are in milliseconds.
 */
module HoldOpen {
  import opened Options

  const SLACK: int := 500
  const SAFETY: int := 5000

  // ----- classifying the error that ended the reads

  datatype Errno = ECONNRESET | OtherErrno(code: int)

  /** What the errors package can find out about a read error. */
  datatype ReadError = ReadError(timeout: bool, errno: Option<Errno>, text: string, eof: bool, closed: bool)

  datatype ClosedBy =
    | LocalCloseAfterHold | LocalCloseEarly | LocalReadDeadline | LocalReadDeadlineEarly
    | PeerRst | PeerFin | OtherCause(text: string)

  datatype Class = OkFullHold | OkLocalClose | PeerReset | PeerFinIdle | Unclassified

  predicate Contains(s: string, sub: string) {
    sub <= s || (s != [] && Contains(s[1..], sub))
  }

  predicate IsConnReset(e: ReadError) {
    || e.errno == Some(ECONNRESET)
    || Contains(e.text, "connection reset")
    || Contains(e.text, "forcibly closed")
    || Contains(e.text, "WSAECONNRESET")
  }

  /** The text has `part` somewhere in it. */
  ghost predicate Mentions(text: string, part: string) {
    exists before, after :: text == before + part + after
  }

  lemma {:induction false} ContainsIff(s: string, part: string)
    ensures Contains(s, part) <==> Mentions(s, part)
    decreases |s|
  {
    if part <= s {
      assert s == [] + part + s[|part|..];
    } else if s != [] {
      ContainsIff(s[1..], part);
      if Mentions(s[1..], part) {
        var before, after :| s[1..] == before + part + after;
        assert s == ([s[0]] + before) + part + after;
      }
      if Mentions(s, part) {
        var before, after :| s == before + part + after;
        assert before == [] ==> part <= s;
        assert s[1..] == before[1..] + part + after;
      }
    }
  }

  /** The marks of a connection that the other side has reset, on any system: the error number, or
      one of three phrases anywhere in the text. */
  ghost predicate SaysReset(e: ReadError) {
    || e.errno == Some(ECONNRESET)
    || Mentions(e.text, "connection reset")
    || Mentions(e.text, "forcibly closed")
    || Mentions(e.text, "WSAECONNRESET")
  }

  lemma IsConnResetIff(e: ReadError)
    ensures IsConnReset(e) <==> SaysReset(e)
  {
    hide Contains, Mentions;
    ContainsIff(e.text, "connection reset");
    ContainsIff(e.text, "forcibly closed");
    ContainsIff(e.text, "WSAECONNRESET");
  }

  predicate HeldFull(holdFor: int, held: int) {
    held >= holdFor - SLACK
  }

  function ClassifyClose(readErr: Option<ReadError>, holdFor: int, held: int): (ClosedBy, Class) {
    var full := HeldFull(holdFor, held);
    if readErr.None? then
      if full then (LocalCloseAfterHold, OkFullHold) else (LocalCloseEarly, OkLocalClose)
    else if readErr.value.timeout then
      if full then (LocalReadDeadline, OkFullHold) else (LocalReadDeadlineEarly, Unclassified)
    else if IsConnReset(readErr.value) then (PeerRst, PeerReset)
    else if readErr.value.eof then (PeerFin, PeerFinIdle)
    else if readErr.value.closed then
      if full then (LocalCloseAfterHold, OkFullHold) else (LocalCloseEarly, OkLocalClose)
    else (OtherCause(readErr.value.text), Unclassified)
  }

  /** What every read error is called: a timeout is our deadline in the last half second or later
      and unexplained before; else the marks of a reset win over an end of file, and that over a close
      of our own, which again depends on the time held; no other error is explained. */
  lemma Classification(e: ReadError, holdFor: int, held: int)
    ensures var (culprit, verdict) := ClassifyClose(Some(e), holdFor, held);
            var full := held >= holdFor - 500;
            && (e.timeout && full ==> culprit.LocalReadDeadline? && verdict.OkFullHold?)
            && (e.timeout && !full ==> culprit.LocalReadDeadlineEarly? && verdict.Unclassified?)
            && (!e.timeout ==> (culprit.PeerRst? <==> SaysReset(e)) && (verdict.PeerReset? <==> SaysReset(e)))
            && (!e.timeout && !SaysReset(e) && e.eof ==> culprit.PeerFin? && verdict.PeerFinIdle?)
            && (!e.timeout && !SaysReset(e) && !e.eof && e.closed ==>
                  if full then culprit.LocalCloseAfterHold? && verdict.OkFullHold?
                  else culprit.LocalCloseEarly? && verdict.OkLocalClose?)
            && (!e.timeout && !SaysReset(e) && !e.eof && !e.closed ==>
                  culprit == OtherCause(e.text) && verdict.Unclassified?)
    ensures ClassifyClose(None, holdFor, held)
         == if held >= holdFor - 500 then (LocalCloseAfterHold, OkFullHold) else (LocalCloseEarly, OkLocalClose)
  {
    hide IsConnReset, SaysReset;
    IsConnResetIff(e);
  }

  /** The resets that each system reports are recognised, wherever the phrase stands. */
  lemma ResetPhrases(e: ReadError, before: string, after: string, holdFor: int, held: int)
    requires !e.timeout
    requires e.text == before + "connection reset" + after
          || e.text == before + "forcibly closed" + after
          || e.text == before + "WSAECONNRESET" + after
    ensures ClassifyClose(Some(e), holdFor, held) == (PeerRst, PeerReset)
  {
    assert SaysReset(e);
    hide SaysReset, IsConnReset;
    IsConnResetIff(e);
  }

  predicate Healthy(c: Class) {
    c.OkFullHold? || c.OkLocalClose?
  }

  // ----- what really ended the reads

  /** OwnDeadline: the read deadline that was set for the hold. KernelTimeout: the connection died
      of an operating-system timeout (keepalive or retransmission), which also reads as a timeout.
      LocalClose: the main goroutine closed the connection under the reader. */
  datatype Cause = OwnDeadline | KernelTimeout | ResetByPeer | FinByPeer | LocalClose | Broken

  /** The error a read returns for each cause. */
  ghost predicate Shows(cause: Cause, e: ReadError) {
    match cause
    case OwnDeadline | KernelTimeout => e.timeout
    case ResetByPeer => !e.timeout && SaysReset(e)
    case FinByPeer => !e.timeout && !SaysReset(e) && e.eof
    case LocalClose => !e.timeout && !SaysReset(e) && !e.eof && e.closed
    case Broken => !e.timeout && !SaysReset(e) && !e.eof && !e.closed
  }

  // ----- the two goroutines

  /** One return of Read: its byte count, its error if any, and the time. */
  datatype Got = Got(n: nat, err: Option<ReadError>, at: int)

  /** Failed: readErr is set, done is not closed yet. */
  datatype Reader = Reading | Failed | Gone

  /** Closing: the main goroutine has closed the connection and waits for the reader. */
  datatype Main = Selecting | Closing | Measuring | Classified(closedAt: int, closedBy: ClosedBy, verdict: Class)

  /** `started` is when the handshake finished, `armed` when the read deadline was computed,
      `timed` when the safety net was set up, `cancelled` and `closing` when those events happened;
      `got` lists what the reads have returned. */
  datatype State = State(holdFor: int, started: int, armed: int, timed: int, now: int,
                         cancelled: Option<int>, closing: Option<int>,
                         reader: Reader, main: Main,
                         bytesRead: nat, got: seq<Got>, firstByteAt: Option<int>,
                         readErr: Option<ReadError>, cause: Option<Cause>)

  datatype Event =
    | Pass(t: nat) | CancelOuter
    | Read(n: nat) | Stop(n: nat, e: ReadError, why: Cause) | CloseDone
    | SeeDone | SeeHoldOver | Join | Classify

  predicate Initial(s: State) {
    && s.started <= s.armed <= s.timed <= s.now
    && (s.cancelled.Some? ==> s.cancelled.value <= s.now)
    && s.closing.None? && s.reader.Reading? && s.main.Selecting?
    && s.bytesRead == 0 && s.got == [] && s.firstByteAt.None? && s.readErr.None? && s.cause.None?
  }

  /** The hold context is done once the outer context is, or when the safety net fires. */
  predicate HoldOver(s: State) {
    s.cancelled.Some? || s.now >= s.timed + s.holdFor + SAFETY
  }

  ghost predicate Can(s: State, ev: Event) {
    match ev
    case Pass(_) => true
    case CancelOuter => s.cancelled.None?
    case Read(_) => s.reader.Reading?
    case Stop(_, e, why) =>
      && s.reader.Reading? && Shows(why, e)
      && (why.OwnDeadline? ==> s.now >= s.armed + s.holdFor)
      && (why.LocalClose? ==> s.closing.Some?)
    case CloseDone => s.reader.Failed?
    case SeeDone => s.main.Selecting? && s.reader.Gone?
    case SeeHoldOver => s.main.Selecting? && HoldOver(s)
    case Join => s.main.Closing? && s.reader.Gone?
    case Classify => s.main.Measuring?
  }

  function Count(s: State, n: nat): State {
    if n == 0 then s
    else s.(bytesRead := s.bytesRead + n,
            firstByteAt := if s.firstByteAt.None? then Some(s.now) else s.firstByteAt)
  }

  function Do(s: State, ev: Event): State
    requires Can(s, ev)
  {
    match ev
    case Pass(t) => s.(now := s.now + t)
    case CancelOuter => s.(cancelled := Some(s.now))
    case Read(n) => Count(s, n).(got := s.got + [Got(n, None, s.now)])
    case Stop(n, e, why) =>
      Count(s, n).(got := s.got + [Got(n, Some(e), s.now)],
                   readErr := Some(e), cause := Some(why), reader := Failed)
    case CloseDone => s.(reader := Gone)
    case SeeDone => s.(main := Measuring)
    case SeeHoldOver => s.(main := Closing, closing := Some(s.now))
    case Join => s.(main := Measuring)
    case Classify =>
      var (closedBy, verdict) := ClassifyClose(s.readErr, s.holdFor, s.now - s.started);
      s.(main := Classified(s.now, closedBy, verdict))
  }

  // ----- the invariant

  function Sum(ns: seq<nat>): nat {
    if ns == [] then 0 else Sum(ns[..|ns| - 1]) + ns[|ns| - 1]
  }

  function Sizes(gs: seq<Got>): seq<nat> {
    seq(|gs|, k requires 0 <= k < |gs| => gs[k].n)
  }

  /** The j-th read is the first that brought any bytes. */
  predicate BringsFirst(gs: seq<Got>, j: nat) {
    j < |gs| && gs[j].n > 0 && forall m | 0 <= m < j :: gs[m].n == 0
  }

  /** `first` is the time of the first read that brought any bytes, if one did. */
  ghost predicate Noted(gs: seq<Got>, first: Option<int>) {
    match first
    case None => forall j | 0 <= j < |gs| :: gs[j].n == 0
    case Some(t) => exists j :: 0 <= j < |gs| && BringsFirst(gs, j) && gs[j].at == t
  }

  /** The reads ended with the error `e`, and only then. */
  ghost predicate EndedWith(gs: seq<Got>, e: Option<ReadError>) {
    && (forall j | 0 <= j < |gs| - 1 :: gs[j].err.None?)
    && (if gs == [] then e.None? else gs[|gs| - 1].err == e)
  }

  ghost predicate TimesOk(s: State) {
    && s.started <= s.armed <= s.timed <= s.now
    && (s.cancelled.Some? ==> s.cancelled.value <= s.now)
    && (s.closing.Some? ==>
          && s.closing.value <= s.now
          && (s.closing.value >= s.timed + s.holdFor + SAFETY
              || (s.cancelled.Some? && s.cancelled.value <= s.closing.value)))
  }

  ghost predicate ReaderOk(s: State) {
    && s.bytesRead == Sum(Sizes(s.got))
    && Noted(s.got, s.firstByteAt) && EndedWith(s.got, s.readErr)
    && (s.bytesRead > 0 <==> s.firstByteAt.Some?)
    && (s.reader.Reading? <==> s.readErr.None?)
    && (s.readErr.Some? <==> s.cause.Some?)
    && (s.readErr.Some? ==>
          && Shows(s.cause.value, s.readErr.value)
          && (s.cause.value.OwnDeadline? ==> s.now >= s.armed + s.holdFor)
          && (s.cause.value.LocalClose? ==> s.closing.Some?))
  }

  ghost predicate MainOk(s: State) {
    && (s.main.Closing? ==> s.closing.Some?)
    && (s.main.Measuring? || s.main.Classified? ==> s.reader.Gone?)
    && (s.main.Classified? ==>
          && s.main.closedAt <= s.now
          && (s.main.closedBy, s.main.verdict) == ClassifyClose(s.readErr, s.holdFor, s.main.closedAt - s.started)
          && (s.cause == Some(OwnDeadline) ==> s.main.closedAt >= s.armed + s.holdFor)
          && (s.closing.Some? ==> s.main.closedAt >= s.closing.value))
  }

  ghost predicate Inv(s: State) {
    TimesOk(s) && ReaderOk(s) && MainOk(s)
  }

  lemma SumSnoc(ns: seq<nat>, n: nat)
    ensures Sum(ns + [n]) == Sum(ns) + n
  {
    assert (ns + [n])[..|ns|] == ns;
  }

  lemma OneMoreRead(gs: seq<Got>, g: Got, first: Option<int>, e: Option<ReadError>)
    requires Noted(gs, first) && EndedWith(gs, e) && e.None?
    ensures Sum(Sizes(gs + [g])) == Sum(Sizes(gs)) + g.n
    ensures Noted(gs + [g], if first.None? && g.n > 0 then Some(g.at) else first)
    ensures EndedWith(gs + [g], g.err)
  {
    var more := gs + [g];
    assert Sizes(more) == Sizes(gs) + [g.n];
    SumSnoc(Sizes(gs), g.n);
    if first.Some? {
      var j :| 0 <= j < |gs| && BringsFirst(gs, j) && gs[j].at == first.value;
      assert BringsFirst(more, j) && more[j].at == first.value;
    } else if g.n > 0 {
      assert BringsFirst(more, |gs|) && more[|gs|].at == g.at;
    }
  }

  lemma InvDo(s: State, ev: Event)
    requires Inv(s) && Can(s, ev)
    ensures Inv(Do(s, ev))
  {
    hide Sum, Sizes, Noted, EndedWith, SaysReset, Shows, ClassifyClose;
    if ev.Read? {
      OneMoreRead(s.got, Got(ev.n, None, s.now), s.firstByteAt, s.readErr);
    } else if ev.Stop? {
      OneMoreRead(s.got, Got(ev.n, Some(ev.e), s.now), s.firstByteAt, s.readErr);
    }
  }

  ghost predicate Legal(s: State, evs: seq<Event>)
    decreases |evs|
  {
    evs == [] || (Can(s, evs[0]) && Legal(Do(s, evs[0]), evs[1..]))
  }

  function After(s: State, evs: seq<Event>): State
    requires Legal(s, evs)
    decreases |evs|
  {
    if evs == [] then s else After(Do(s, evs[0]), evs[1..])
  }

  lemma {:induction false} InvAfter(s: State, evs: seq<Event>)
    requires Inv(s) && Legal(s, evs)
    ensures Inv(After(s, evs))
    ensures After(s, evs).started == s.started && After(s, evs).holdFor == s.holdFor
    decreases |evs|
  {
    if evs != [] {
      StepFacts(s, evs[0]);
      hide Inv, Can, Do;
      InvAfter(Do(s, evs[0]), evs[1..]);
    }
  }

  lemma StepFacts(s: State, ev: Event)
    requires Inv(s) && Can(s, ev)
    ensures Inv(Do(s, ev))
    ensures Do(s, ev).started == s.started && Do(s, ev).holdFor == s.holdFor
  {
    InvDo(s, ev);
  }

  lemma InvInitial(s: State)
    requires Initial(s)
    ensures Inv(s)
  {
  }

  // ----- the handshake between the goroutines

  /** The main goroutine looks at the reader's variables only when the reader is gone: by then the
      read error is set and is the one that ended the reads, the byte count is the sum of all reads,
      the time of the first byte is that of the first read that brought any, and none of them can
      change any more. */
  lemma Handshake(s0: State, evs: seq<Event>, ev: Event)
    requires Initial(s0) && Legal(s0, evs)
    requires var s := After(s0, evs);
             (s.main.Measuring? || s.main.Classified?) && Can(s, ev)
    ensures var s, s' := After(s0, evs), Do(After(s0, evs), ev);
            && s.reader.Gone? && s.readErr.Some?
            && EndedWith(s.got, s.readErr)
            && s.bytesRead == Sum(Sizes(s.got))
            && Noted(s.got, s.firstByteAt) && (s.firstByteAt.Some? <==> s.bytesRead > 0)
            && (s'.readErr, s'.bytesRead, s'.firstByteAt) == (s.readErr, s.bytesRead, s.firstByteAt)
  {
    hide Legal, After, ClassifyClose, Shows, Noted, EndedWith, Sizes, Sum;
    InvInitial(s0);
    InvAfter(s0, evs);
  }

  // ----- attribution

  /** For every timed interleaving, the verdict by cause of death: our own deadline is always a
      full hold; a reset or an orderly close by the peer is never healthy, however late it comes;
      our own close is a full hold or an early local close by the time held; and an
      operating-system timeout is taken for our deadline exactly in the last half second. */
  lemma Attribution(s0: State, evs: seq<Event>)
    requires Initial(s0) && Legal(s0, evs) && After(s0, evs).main.Classified?
    ensures var s := After(s0, evs);
            s.cause.Some? && s.readErr.Some?
    ensures var s := After(s0, evs);
            var full := s.main.closedAt - s0.started >= s0.holdFor - 500;
            var culprit, verdict := s.main.closedBy, s.main.verdict;
            match s.cause.value
            case OwnDeadline => full && culprit.LocalReadDeadline? && verdict.OkFullHold?
            case KernelTimeout =>
              if full then culprit.LocalReadDeadline? && verdict.OkFullHold?
              else culprit.LocalReadDeadlineEarly? && verdict.Unclassified?
            case ResetByPeer => culprit.PeerRst? && verdict.PeerReset?
            case FinByPeer => culprit.PeerFin? && verdict.PeerFinIdle?
            case LocalClose =>
              if full then culprit.LocalCloseAfterHold? && verdict.OkFullHold?
              else culprit.LocalCloseEarly? && verdict.OkLocalClose?
            case Broken => culprit == OtherCause(s.readErr.value.text) && verdict.Unclassified?
  {
    hide Legal, After, SaysReset, IsConnReset, Sum, Sizes, Noted, EndedWith;
    InvInitial(s0);
    InvAfter(s0, evs);
    IsConnResetIff(After(s0, evs).readErr.value);
  }

  /** An early local close is reported only when the outer context was cancelled before the hold
      was (nearly) over; and without a cancellation our own close is always a full hold. */
  lemma LocalCloseNeedsCancel(s0: State, evs: seq<Event>)
    requires Initial(s0) && Legal(s0, evs) && After(s0, evs).main.Classified?
    ensures var s := After(s0, evs);
            && (s.main.verdict.OkLocalClose? ==>
                  && s.cause == Some(LocalClose)
                  && s.cancelled.Some?
                  && s.cancelled.value < s0.started + s0.holdFor - 500)
            && (s.cause == Some(LocalClose) && s.cancelled.None? ==> s.main.verdict.OkFullHold?)
  {
    hide Legal, After, SaysReset, IsConnReset, Sum, Sizes, Noted, EndedWith;
    InvInitial(s0);
    InvAfter(s0, evs);
    IsConnResetIff(After(s0, evs).readErr.value);
  }

  /** A cancellation is noted at the time at which it comes, and only when one comes. */
  lemma {:induction false} CancelledWhen(s: State, evs: seq<Event>)
    requires s.cancelled.None? && Legal(s, evs)
    ensures After(s, evs).now >= s.now
    ensures After(s, evs).cancelled.Some? <==> CancelOuter in evs
    ensures After(s, evs).cancelled.Some? ==> s.now <= After(s, evs).cancelled.value <= After(s, evs).now
    decreases |evs|
  {
    if evs != [] {
      var s1 := Do(s, evs[0]);
      if s1.cancelled.None? {
        CancelledWhen(s1, evs[1..]);
      } else {
        CancelledStays(s1, evs[1..]);
      }
    }
  }

  lemma {:induction false} CancelledStays(s: State, evs: seq<Event>)
    requires s.cancelled.Some? && Legal(s, evs)
    ensures After(s, evs).now >= s.now && After(s, evs).cancelled == s.cancelled
    decreases |evs|
  {
    if evs != [] {
      CancelledStays(Do(s, evs[0]), evs[1..]);
    }
  }

  /** When the check reports health: exactly when the connection outlived everything but
      ourselves, or fell to an operating-system timeout that cannot be told from our deadline. */
  lemma HealthyIff(s0: State, evs: seq<Event>)
    requires Initial(s0) && Legal(s0, evs) && After(s0, evs).main.Classified?
    ensures var s := After(s0, evs);
            Healthy(s.main.verdict) <==>
              || s.cause == Some(OwnDeadline)
              || s.cause == Some(LocalClose)
              || (s.cause == Some(KernelTimeout)
                  && s.main.closedAt - s0.started >= s0.holdFor - 500)
  {
    hide Legal, After, SaysReset, IsConnReset, Sum, Sizes, Noted, EndedWith;
    Attribution(s0, evs);
    InvInitial(s0);
    InvAfter(s0, evs);
  }

  lemma ConsEvent(s: State, e: Event, evs: seq<Event>)
    requires Can(s, e) && Legal(Do(s, e), evs)
    ensures Legal(s, [e] + evs) && After(s, [e] + evs) == After(Do(s, e), evs)
  {
    hide Can, Do;
    assert ([e] + evs)[1..] == evs;
  }

  lemma NoEvents(s: State)
    ensures Legal(s, []) && After(s, []) == s
  {
  }

  /** The last case does happen: from any start, an operating-system timeout that comes half a second
      before the end of the hold is reported as a healthy full hold, before the check's own deadline. */
  lemma KernelTimeoutPasses(s: State, e: ReadError) returns (evs: seq<Event>)
    requires Initial(s) && s.now <= s.started + s.holdFor - 500 && Shows(KernelTimeout, e)
    ensures Legal(s, evs)
    ensures var s' := After(s, evs);
            && s'.cause == Some(KernelTimeout)
            && s'.main.Classified? && s'.main.verdict.OkFullHold? && Healthy(s'.main.verdict)
            && s'.now < s.armed + s.holdFor
  {
    hide Legal, After;
    var pass, stop := Pass(s.started + s.holdFor - SLACK - s.now), Stop(0, e, KernelTimeout);
    var s1 := Do(s, pass);
    var s2 := Do(s1, stop);
    var s3 := Do(s2, CloseDone);
    var s4 := Do(s3, SeeDone);
    NoEvents(Do(s4, Classify));
    evs := [];
    ConsEvent(s4, Classify, evs);
    evs := [Classify] + evs;
    ConsEvent(s3, SeeDone, evs);
    evs := [SeeDone] + evs;
    ConsEvent(s2, CloseDone, evs);
    evs := [CloseDone] + evs;
    ConsEvent(s1, stop, evs);
    evs := [stop] + evs;
    ConsEvent(s, pass, evs);
    evs := [pass] + evs;
  }

  // ----- the check ends

  /** How many more steps it takes to a verdict. */
  function StepsLeft(s: State): nat {
    match s.main
    case Classified(_, _, _) => 0
    case Measuring => 1
    case Closing => if s.reader.Gone? then 2 else if s.reader.Failed? then 3 else 4
    case Selecting =>
      if s.reader.Gone? then 2 else if s.reader.Failed? then 3 else if HoldOver(s) then 5 else 6
  }

  const CLOSED := ReadError(false, None, "closed", false, true)

  /** The next step towards a verdict, without any help from the peer: at worst the safety net
      runs out, and the close ends the reads. */
  function NextStep(s: State): Event
    requires !s.main.Classified?
  {
    if s.main.Measuring? then Classify
    else if s.reader.Failed? then CloseDone
    else if s.reader.Gone? then (if s.main.Closing? then Join else SeeDone)
    else if s.main.Closing? then Stop(0, CLOSED, LocalClose)
    else if HoldOver(s) then SeeHoldOver
    else Pass(s.timed + s.holdFor + SAFETY - s.now)
  }

  lemma NextStepWorks(s: State)
    requires Inv(s) && !s.main.Classified?
    ensures Can(s, NextStep(s)) && StepsLeft(Do(s, NextStep(s))) < StepsLeft(s)
    ensures Do(s, NextStep(s)).now == s.now
         || Do(s, NextStep(s)).now == s.timed + s.holdFor + SAFETY > s.now
    ensures Do(s, NextStep(s)).timed == s.timed && Do(s, NextStep(s)).holdFor == s.holdFor
    ensures s.cancelled.Some? || s.reader.Gone? || s.main.Closing? ==> Do(s, NextStep(s)).now == s.now
    ensures var s' := Do(s, NextStep(s));
            s.cancelled.Some? || s.reader.Gone? || s.main.Closing? ==>
              s'.cancelled.Some? || s'.reader.Gone? || s'.main.Closing?
  {
  }

  /** From every reachable state the check can reach its verdict in at most six steps: at once when
      the outer context has been cancelled or the reads have ended, and otherwise no later than when
      the safety net runs out, if it has not already. */
  lemma {:induction false} AlwaysEnds(s: State) returns (evs: seq<Event>)
    requires Inv(s)
    ensures Legal(s, evs) && |evs| <= StepsLeft(s) <= 6
    ensures After(s, evs).main.Classified?
    ensures s.cancelled.Some? || s.reader.Gone? || s.main.Closing? ==> After(s, evs).now == s.now
    ensures After(s, evs).now == s.now || After(s, evs).now == s.timed + s.holdFor + 5000 > s.now
    decreases StepsLeft(s)
  {
    evs := [];
    if !s.main.Classified? {
      var e := NextStep(s);
      NextStepWorks(s);
      StepFacts(s, e);
      hide Inv, Can, Do;
      var rest := AlwaysEnds(Do(s, e));
      evs := [e] + rest;
      assert evs[1..] == rest;
    }
  }

  // ----- the read loop

  function FirstFailure(gs: seq<Got>): (k: nat)
    requires exists i :: 0 <= i < |gs| && gs[i].err.Some?
    ensures k < |gs| && gs[k].err.Some?
    ensures forall i | 0 <= i < k :: gs[i].err.None?
  {
    if gs[0].err.Some? then 0
    else
      assert exists i :: 0 <= i < |gs[1..]| && gs[1..][i].err.Some? by {
        var i :| 0 <= i < |gs| && gs[i].err.Some?;
        assert gs[1..][i - 1] == gs[i];
      }
      1 + FirstFailure(gs[1..])
  }

  /** The reader goroutine: it ends with the first error, has counted every byte up to and
      including that read, and has noted the time of the first read that brought any. */
  method ReadLoop(gs: seq<Got>) returns (bytesRead: nat, readErr: ReadError, firstByteAt: Option<int>)
    requires exists i :: 0 <= i < |gs| && gs[i].err.Some?
    ensures var k := FirstFailure(gs);
            && gs[k].err == Some(readErr)
            && bytesRead == Sum(Sizes(gs[..k + 1]))
            && Noted(gs[..k + 1], firstByteAt) && EndedWith(gs[..k + 1], Some(readErr))
  {
    hide Sum, Sizes, Noted, EndedWith;
    ghost var k := FirstFailure(gs);
    bytesRead, firstByteAt := 0, None;
    NothingRead();
    var i := 0;
    assert gs[..0] == [];
    while true
      invariant i <= k
      invariant bytesRead == Sum(Sizes(gs[..i]))
      invariant Noted(gs[..i], firstByteAt) && EndedWith(gs[..i], None)
      decreases k - i
    {
      var g := gs[i];
      assert gs[..i + 1] == gs[..i] + [g];
      OneMoreRead(gs[..i], g, firstByteAt, None);
      if g.n > 0 {
        if firstByteAt.None? {
          firstByteAt := Some(g.at);
        }
        bytesRead := bytesRead + g.n;
      }
      if g.err.Some? {
        return bytesRead, g.err.value, firstByteAt;
      }
      i := i + 1;
    }
  }

  lemma NothingRead()
    ensures Sum(Sizes([])) == 0 && Noted([], None) && EndedWith([], None)
  {
  }
}
