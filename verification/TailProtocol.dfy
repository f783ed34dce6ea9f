/**
 A log_tail check as it really runs: a tick opens and measures its file, reads its cursor under
 the lock, reads the file piece by piece, and stores the new cursor under the lock again, while
 the files keep growing and shrinking underneath it.  Every byte ever written carries the serial
 number of its write, so "the same byte" has a meaning across truncation and rotation.
 */
module TailProtocol {
  import opened Lines
  import opened Options
  import opened LogTail

  // ----- the files

  datatype Cell = Cell(b: byte, id: nat)

  datatype Disk = Disk(files: map<string, seq<Cell>>, nextId: nat)

  function FileAt(d: Disk, p: string): seq<Cell> {
    if p in d.files then d.files[p] else []
  }

  function Bytes(cs: seq<Cell>): seq<byte> {
    seq(|cs|, k requires 0 <= k < |cs| => cs[k].b)
  }

  function Ids(cs: seq<Cell>): seq<nat> {
    seq(|cs|, k requires 0 <= k < |cs| => cs[k].id)
  }

  /** What other programs do to the log files. */
  datatype FileEvent = Append(path: string, data: seq<byte>) | Truncate(path: string, keep: nat)

  function Written(data: seq<byte>, id: nat): seq<Cell> {
    seq(|data|, k requires 0 <= k < |data| => Cell(data[k], id + k))
  }

  function Happens(d: Disk, e: FileEvent): Disk {
    var f := FileAt(d, e.path);
    match e
    case Append(p, data) => Disk(d.files[p := f + Written(data, d.nextId)], d.nextId + |data|)
    case Truncate(p, keep) => if keep <= |f| then d.(files := d.files[p := f[..keep]]) else d
  }

  /** The byte with serial number id stands at position k of file p. */
  predicate At(d: Disk, p: string, k: nat, id: nat) {
    k < |FileAt(d, p)| && FileAt(d, p)[k].id == id
  }

  /** Serial numbers are used once. */
  ghost predicate DiskOk(d: Disk) {
    && (forall p: string, k: nat, id: nat :: At(d, p, k, id) ==> id < d.nextId)
    && (forall p: string, k: nat, q: string, l: nat, id: nat :: At(d, p, k, id) && At(d, q, l, id) ==> p == q && k == l)
  }

  // ----- one check

  /** Where a check is in its tick. `present` records which bytes were in the file when it was
      measured, `cut` whether it has been cut below that size since. */
  datatype Phase =
    | Idle
    | Opened(path: string, size: nat, present: set<nat>, cut: bool)
    | Looked(path: string, size: nat, present: set<nat>, cut: bool, seen: Option<TailState>)
    | Reading(path: string, from: nat, got: seq<Cell>)

  /** What has happened to a check so far: the bytes it was given, the bytes its baselines passed
      over, and, since the latest baseline at `base`, the bytes and lines of its ticks. `intact`
      says that the file has not been cut below the cursor since it was measured for that baseline. */
  datatype History = History(delivered: seq<nat>, skipped: set<nat>,
                             base: nat, epoch: seq<Cell>, ticks: seq<seq<byte>>, lines: seq<Line>,
                             intact: bool)

  datatype Check = Check(cursor: Option<TailState>, phase: Phase, hist: History)

  datatype Act = Open(path: string) | Look | Rebaseline | Seek | Read(n: nat) | Finish | Abort

  const FRESH := Check(None, Idle, History([], {}, 0, [], [], [], true))

  /** How far into its current file the check has got. */
  function Front(c: Check): nat {
    if c.phase.Reading? then c.phase.from + |c.phase.got|
    else if c.cursor.Some? then c.cursor.value.offset
    else 0
  }

  /** The scanner reads on only while no line fills its buffer, and never past a full buffer. */
  predicate WithinBuffer(data: seq<byte>) {
    Lines.Scan(data, MAX_LINE).consumed == |data|
  }

  /** The first `size` bytes of the file are still those it had when it was measured. */
  predicate Untouched(d: Disk, p: string, size: nat, present: set<nat>) {
    size <= |FileAt(d, p)| && forall id | id in Ids(FileAt(d, p)[..size]) :: id in present
  }

  predicate Can(d: Disk, c: Check, a: Act) {
    match a
    case Open(p) => c.phase.Idle? && p in d.files
    case Look => c.phase.Opened?
    case Rebaseline => c.phase.Looked? && Decide(c.phase.seen, c.phase.path, c.phase.size).Rebase?
    case Seek => c.phase.Looked? && Decide(c.phase.seen, c.phase.path, c.phase.size).ScanFrom?
    case Read(n) =>
      && c.phase.Reading? && 0 < n && Front(c) + n <= |FileAt(d, c.phase.path)|
      && Fits(Bytes(c.phase.got), MAX_LINE)
      && WithinBuffer(Bytes(c.phase.got + FileAt(d, c.phase.path)[Front(c)..Front(c) + n]))
    case Finish => c.phase.Reading?
    case Abort => c.phase.Opened? || c.phase.Looked?
  }

  function Do(d: Disk, c: Check, a: Act): Check
    requires Can(d, c, a)
  {
    var h := c.hist;
    match a
    case Open(p) => c.(phase := Opened(p, |FileAt(d, p)|, set id | id in Ids(FileAt(d, p)), false))
    case Look => c.(phase := Looked(c.phase.path, c.phase.size, c.phase.present, c.phase.cut, c.cursor))
    case Rebaseline =>
      Check(Some(TailState(c.phase.path, c.phase.size)), Idle,
            History(h.delivered, h.skipped + c.phase.present, c.phase.size, [], [], [], !c.phase.cut))
    case Seek => c.(phase := Reading(c.phase.path, c.phase.seen.value.offset, []))
    case Read(n) =>
      var more := FileAt(d, c.phase.path)[Front(c)..Front(c) + n];
      c.(phase := c.phase.(got := c.phase.got + more),
         hist := h.(delivered := h.delivered + Ids(more), epoch := h.epoch + more))
    case Finish =>
      var data := Bytes(c.phase.got);
      Check(Some(TailState(c.phase.path, c.phase.from + |data|)), Idle,
            h.(ticks := h.ticks + [data], lines := h.lines + Lines.Scan(data, MAX_LINE).lines))
    case Abort => c.(phase := Idle)
  }

  /** A check takes note of the truncations that concern it: those below the size it has measured,
      and those below its cursor. */
  function Witness(c: Check, e: FileEvent): Check {
    var c' :=
      if (c.phase.Opened? || c.phase.Looked?) && e.Truncate? && e.path == c.phase.path && e.keep < c.phase.size
      then c.(phase := c.phase.(cut := true))
      else c;
    if e.Truncate? && c.cursor.Some? && e.path == c.cursor.value.path && e.keep < Front(c)
    then c'.(hist := c.hist.(intact := false))
    else c'
  }

  // ----- the invariant

  predicate Settled(h: History, id: nat) {
    id in h.delivered || id in h.skipped
  }

  ghost predicate NoDup(s: seq<nat>) {
    forall i, j | 0 <= i < j < |s| :: s[i] != s[j]
  }

  /** Every settled byte still in file p lies before `bound`. */
  ghost predicate Behind(d: Disk, p: string, bound: nat, h: History) {
    forall k: nat, id: nat :: At(d, p, k, id) && Settled(h, id) ==> k < bound
  }

  ghost predicate PresentBehind(d: Disk, p: string, bound: nat, present: set<nat>) {
    forall k: nat, id: nat :: At(d, p, k, id) && id in present ==> k < bound
  }

  ghost predicate Serials(d: Disk, c: Check) {
    && (forall id: nat :: Settled(c.hist, id) ==> id < d.nextId)
    && (c.phase.Opened? || c.phase.Looked? ==> forall id | id in c.phase.present :: id < d.nextId)
  }

  /** The file keeps its first `size` bytes exactly as long as it is not cut below that size. */
  ghost predicate CutOk(d: Disk, p: string, size: nat, present: set<nat>, cut: bool) {
    cut <==> !Untouched(d, p, size, present)
  }

  ghost predicate PhaseOk(d: Disk, c: Check) {
    match c.phase
    case Idle => true
    case Opened(p, size, present, cut) =>
      Behind(d, p, size, c.hist) && PresentBehind(d, p, size, present) && CutOk(d, p, size, present, cut)
    case Looked(p, size, present, cut, seen) =>
      && seen == c.cursor
      && Behind(d, p, size, c.hist) && PresentBehind(d, p, size, present) && CutOk(d, p, size, present, cut)
    case Reading(p, from, got) =>
      c.cursor == Some(TailState(p, from)) && WithinBuffer(Bytes(got))
  }

  ghost predicate CursorOk(d: Disk, c: Check) {
    if c.cursor.None? then forall id: nat :: !Settled(c.hist, id)
    else Behind(d, c.cursor.value.path, Front(c), c.hist)
  }

  /** The bytes of the epoch are the file's, from the baseline up to where the check has got. */
  ghost predicate Mirrors(d: Disk, c: Check) {
    c.cursor.Some? && c.hist.intact ==>
      && c.hist.base <= Front(c) <= |FileAt(d, c.cursor.value.path)|
      && c.hist.epoch == FileAt(d, c.cursor.value.path)[c.hist.base..Front(c)]
  }

  /** No byte that stands before the cursor was missed. */
  ghost predicate Gapless(d: Disk, c: Check) {
    c.cursor.Some? && c.hist.intact ==>
      forall k: nat, id: nat :: At(d, c.cursor.value.path, k, id) && k < Front(c) ==> Settled(c.hist, id)
  }

  /** The windows of the ticks, and the one being read, tile the epoch. */
  ghost predicate Tiles(c: Check) {
    var current := if c.phase.Reading? then Bytes(c.phase.got) else [];
    && Flatten(c.hist.ticks) + current == Bytes(c.hist.epoch)
    && (c.cursor.Some? ==> c.hist.base + |c.hist.epoch| == Front(c))
    && c.hist.lines == PieceLines(c.hist.ticks, MAX_LINE)
  }

  ghost predicate Inv(d: Disk, c: Check) {
    && DiskOk(d) && Serials(d, c) && CursorOk(d, c) && PhaseOk(d, c)
    && NoDup(c.hist.delivered) && Mirrors(d, c) && Gapless(d, c) && Tiles(c)
  }

  // ----- the files change

  lemma AppendKeepsDisk(d: Disk, e: FileEvent)
    requires DiskOk(d) && e.Append?
    ensures DiskOk(Happens(d, e)) && d.nextId <= Happens(d, e).nextId
    ensures forall p: string, k: nat, id: nat :: At(Happens(d, e), p, k, id) ==> At(d, p, k, id) || id >= d.nextId
  {
    var d' := Happens(d, e);
    forall p: string, k: nat, id: nat | At(d', p, k, id)
      ensures id < d'.nextId
      ensures At(d, p, k, id) || (p == e.path && id == d.nextId + k - |FileAt(d, e.path)| && id >= d.nextId)
    {
      if p == e.path && k >= |FileAt(d, p)| {
        assert FileAt(d', p)[k] == Written(e.data, d.nextId)[k - |FileAt(d, p)|];
      } else {
        assert At(d, p, k, id);
      }
    }
  }

  lemma TruncateKeepsDisk(d: Disk, e: FileEvent)
    requires DiskOk(d) && e.Truncate?
    ensures DiskOk(Happens(d, e)) && d.nextId <= Happens(d, e).nextId
    ensures forall p: string, k: nat, id: nat :: At(Happens(d, e), p, k, id) ==> At(d, p, k, id)
  {
    var d' := Happens(d, e);
    forall p: string, k: nat, id: nat | At(d', p, k, id)
      ensures At(d, p, k, id)
    {
    }
  }

  lemma MirrorsAfterFileEvent(d: Disk, c: Check, e: FileEvent)
    requires Mirrors(d, c)
    ensures Mirrors(Happens(d, e), Witness(c, e))
  {
    if c.cursor.Some? && Witness(c, e).hist.intact {
      var f, f' := FileAt(d, c.cursor.value.path), FileAt(Happens(d, e), c.cursor.value.path);
      assert f'[..Front(c)] == f[..Front(c)];
      assert f[c.hist.base..Front(c)] == f[..Front(c)][c.hist.base..];
      assert f'[c.hist.base..Front(c)] == f'[..Front(c)][c.hist.base..];
    }
  }

  lemma GaplessAfterFileEvent(d: Disk, c: Check, e: FileEvent)
    requires DiskOk(d) && Mirrors(d, c) && Gapless(d, c)
    ensures Gapless(Happens(d, e), Witness(c, e))
  {
    var d', c' := Happens(d, e), Witness(c, e);
    if c.cursor.Some? && c'.hist.intact {
      var p := c.cursor.value.path;
      forall k: nat, id: nat | At(d', p, k, id) && k < Front(c')
        ensures Settled(c'.hist, id)
      {
        assert At(d, p, k, id);
      }
    }
  }

  lemma CutAfterFileEvent(d: Disk, e: FileEvent, p: string, size: nat, present: set<nat>, cut: bool)
    requires CutOk(d, p, size, present, cut) && forall id | id in present :: id < d.nextId
    ensures CutOk(Happens(d, e), p, size, present, cut || (e.Truncate? && e.path == p && e.keep < size))
  {
    var f, f' := FileAt(d, p), FileAt(Happens(d, e), p);
    if size <= |f| && size <= |f'| {
      assert f'[..size] == f[..size];
    } else if size <= |f'| {
      var id := Ids(f'[..size])[|f|];
      assert id in Ids(f'[..size]) && id >= d.nextId;
    }
  }

  /** Nothing already handled, or measured, comes to stand further on in any file. */
  lemma BehindAfterFileEvent(d: Disk, c: Check, e: FileEvent)
    requires DiskOk(d) && Serials(d, c)
    ensures forall p: string, bound: nat | Behind(d, p, bound, c.hist) ::
              Behind(Happens(d, e), p, bound, Witness(c, e).hist)
    ensures c.phase.Opened? || c.phase.Looked? ==>
              forall p: string, bound: nat | PresentBehind(d, p, bound, c.phase.present) ::
                PresentBehind(Happens(d, e), p, bound, c.phase.present)
  {
    if e.Append? { AppendKeepsDisk(d, e); } else { TruncateKeepsDisk(d, e); }
    hide Happens, At, DiskOk;
    forall id: nat | Settled(Witness(c, e).hist, id) ensures Settled(c.hist, id) {
    }
  }

  lemma SerialsAfterFileEvent(d: Disk, c: Check, e: FileEvent)
    requires DiskOk(d) && Serials(d, c)
    ensures DiskOk(Happens(d, e)) && Serials(Happens(d, e), Witness(c, e))
  {
    if e.Append? { AppendKeepsDisk(d, e); } else { TruncateKeepsDisk(d, e); }
    hide Happens, DiskOk;
    forall id: nat | Settled(Witness(c, e).hist, id) ensures Settled(c.hist, id) {
    }
  }

  lemma BoundsAfterFileEvent(d: Disk, c: Check, e: FileEvent)
    requires DiskOk(d) && Serials(d, c) && CursorOk(d, c) && PhaseOk(d, c)
    ensures Serials(Happens(d, e), Witness(c, e))
    ensures CursorOk(Happens(d, e), Witness(c, e)) && PhaseOk(Happens(d, e), Witness(c, e))
  {
    BehindAfterFileEvent(d, c, e);
    SerialsAfterFileEvent(d, c, e);
    if c.phase.Opened? || c.phase.Looked? {
      CutAfterFileEvent(d, e, c.phase.path, c.phase.size, c.phase.present, c.phase.cut);
    }
    hide WithinBuffer, Happens, Serials, Behind, PresentBehind, CutOk;
  }

  lemma InvAfterFileEvent(d: Disk, c: Check, e: FileEvent)
    requires Inv(d, c)
    ensures Inv(Happens(d, e), Witness(c, e))
  {
    if e.Append? { AppendKeepsDisk(d, e); } else { TruncateKeepsDisk(d, e); }
    BoundsAfterFileEvent(d, c, e);
    MirrorsAfterFileEvent(d, c, e);
    GaplessAfterFileEvent(d, c, e);
    hide Happens, DiskOk, Serials, CursorOk, PhaseOk, Mirrors, Gapless;
  }

  // ----- the check acts

  lemma InvAfterOpen(d: Disk, c: Check, p: string)
    requires Inv(d, c) && Can(d, c, Open(p))
    ensures Inv(d, Do(d, c, Open(p)))
  {
    hide Lines.Scan, Lines.IndexLF;
    var f := FileAt(d, p);
    assert f[..|f|] == f;
    forall id | id in Ids(f) ensures exists k :: At(d, p, k, id) {
      var k :| 0 <= k < |f| && Ids(f)[k] == id;
      assert At(d, p, k, id);
    }
  }

  lemma InvAfterRebaseline(d: Disk, c: Check)
    requires Inv(d, c) && Can(d, c, Rebaseline)
    ensures Inv(d, Do(d, c, Rebaseline))
  {
    hide Lines.Scan, Lines.IndexLF;
    var c' := Do(d, c, Rebaseline);
    var f, n := FileAt(d, c.phase.path), c.phase.size;
    if c'.hist.intact {
      assert f[n..n] == [];
      forall k: nat, id: nat | At(d, c.phase.path, k, id) && k < n ensures id in c.phase.present {
        assert Ids(f[..n])[k] == id;
      }
    }
    assert Bytes([]) == [] && Flatten([]) == [] && PieceLines([], MAX_LINE) == [];
    forall id: nat | Settled(c'.hist, id) ensures Settled(c.hist, id) || id in c.phase.present {
    }
  }

  /** What a read hands over was neither handed over before nor in the file at any earlier
      baseline: the cursor stands behind all of that. */
  lemma ReadIsNew(d: Disk, c: Check, n: nat)
    requires Can(d, c, Read(n)) && DiskOk(d) && Behind(d, c.phase.path, Front(c), c.hist)
    ensures var more := Ids(FileAt(d, c.phase.path)[Front(c)..Front(c) + n]);
            && Do(d, c, Read(n)).hist.delivered == c.hist.delivered + more
            && NoDup(more)
            && forall id | id in more :: !Settled(c.hist, id)
  {
    hide Lines.Scan, Lines.IndexLF;
    var p, f := c.phase.path, Front(c);
    var more := Ids(FileAt(d, p)[f..f + n]);
    forall i | 0 <= i < n ensures At(d, p, f + i, more[i]) && !Settled(c.hist, more[i]) {
      assert At(d, p, f + i, more[i]);
    }
    forall i, j | 0 <= i < j < n ensures more[i] != more[j] {
      assert At(d, p, f + i, more[i]) && At(d, p, f + j, more[j]);
    }
  }

  lemma NoDupAppend(s: seq<nat>, t: seq<nat>)
    requires NoDup(s) && NoDup(t) && forall x | x in t :: x !in s
    ensures NoDup(s + t)
  {
    forall i, j | 0 <= i < j < |s + t| ensures (s + t)[i] != (s + t)[j] {
      if i < |s| <= j {
        assert (s + t)[j] == t[j - |s|] && t[j - |s|] in t && s[i] in s;
      }
    }
  }

  lemma BytesAppend(a: seq<Cell>, b: seq<Cell>)
    ensures Bytes(a + b) == Bytes(a) + Bytes(b)
  {
  }

  lemma BehindAfterRead(d: Disk, c: Check, n: nat)
    requires Can(d, c, Read(n)) && DiskOk(d) && Serials(d, c) && Behind(d, c.phase.path, Front(c), c.hist)
    ensures var c' := Do(d, c, Read(n));
            && Behind(d, c.phase.path, Front(c'), c'.hist)
            && forall id: nat :: Settled(c'.hist, id) ==> id < d.nextId
  {
    hide Lines.Scan, Lines.IndexLF;
    var c' := Do(d, c, Read(n));
    var p, f := c.phase.path, Front(c);
    var more := Ids(FileAt(d, p)[f..f + n]);
    forall id | id in more
      ensures exists k :: f <= k < f + n && At(d, p, k, id)
    {
      var i :| 0 <= i < n && more[i] == id;
      assert At(d, p, f + i, id);
    }
    forall id | Settled(c'.hist, id) ensures Settled(c.hist, id) || id in more {
    }
  }

  lemma GaplessAfterRead(d: Disk, c: Check, n: nat)
    requires Inv(d, c) && Can(d, c, Read(n))
    ensures Gapless(d, Do(d, c, Read(n)))
  {
    hide Lines.Scan, Lines.IndexLF, DiskOk, Serials, CursorOk, Mirrors, Tiles, NoDup, WithinBuffer;
    var c' := Do(d, c, Read(n));
    var p, f := c.phase.path, Front(c);
    var more := Ids(FileAt(d, p)[f..f + n]);
    forall k: nat, id: nat | At(d, p, k, id) && k < f + n && c.hist.intact ensures Settled(c'.hist, id) {
      if k >= f {
        assert more[k - f] == id;
      } else {
        assert Settled(c.hist, id);
      }
    }
  }

  lemma InvAfterRead(d: Disk, c: Check, n: nat)
    requires Inv(d, c) && Can(d, c, Read(n))
    ensures Inv(d, Do(d, c, Read(n)))
  {
    hide Lines.Scan, Lines.IndexLF;
    var c' := Do(d, c, Read(n));
    var f := FileAt(d, c.phase.path);
    var more := f[Front(c)..Front(c) + n];
    ReadIsNew(d, c, n);
    NoDupAppend(c.hist.delivered, Ids(more));
    BehindAfterRead(d, c, n);
    GaplessAfterRead(d, c, n);
    BytesAppend(c.hist.epoch, more);
    BytesAppend(c.phase.got, more);
    ConcatAssoc(Flatten(c.hist.ticks), Bytes(c.phase.got), Bytes(more));
    if c.hist.intact {
      assert f[c.hist.base..Front(c)] + more == f[c.hist.base..Front(c) + n];
    }
  }

  lemma {:induction false} PieceLinesSnoc(ds: seq<seq<byte>>, d: seq<byte>)
    ensures PieceLines(ds + [d], MAX_LINE) == PieceLines(ds, MAX_LINE) + Lines.Scan(d, MAX_LINE).lines
    decreases |ds|
  {
    hide Lines.Scan, Lines.IndexLF;
    if ds == [] {
      assert ds + [d] == [d];
      assert PieceLines([d], MAX_LINE) == Lines.Scan(d, MAX_LINE).lines + PieceLines([], MAX_LINE);
    } else {
      assert (ds + [d])[1..] == ds[1..] + [d];
      PieceLinesSnoc(ds[1..], d);
      ConcatAssoc(Lines.Scan(ds[0], MAX_LINE).lines, PieceLines(ds[1..], MAX_LINE),
                  Lines.Scan(d, MAX_LINE).lines);
    }
  }

  lemma InvAfterFinish(d: Disk, c: Check)
    requires Inv(d, c) && Can(d, c, Finish)
    ensures Inv(d, Do(d, c, Finish))
  {
    hide Lines.Scan, Lines.IndexLF;
    var data := Bytes(c.phase.got);
    FlattenSnoc(c.hist.ticks, data);
    PieceLinesSnoc(c.hist.ticks, data);
    var c' := Do(d, c, Finish);
    assert Flatten(c'.hist.ticks) + [] == Flatten(c'.hist.ticks);
    forall id: nat | Settled(c'.hist, id) ensures Settled(c.hist, id) {
    }
  }

  lemma InvAfterAct(d: Disk, c: Check, a: Act)
    requires Inv(d, c) && Can(d, c, a)
    ensures Inv(d, Do(d, c, a))
  {
    hide Inv, Can, Do;
    match a
    case Open(p) => InvAfterOpen(d, c, p);
    case Look => InvAfterLook(d, c);
    case Rebaseline => InvAfterRebaseline(d, c);
    case Seek => InvAfterSeek(d, c);
    case Read(n) => InvAfterRead(d, c, n);
    case Finish => InvAfterFinish(d, c);
    case Abort => InvAfterAbort(d, c);
  }

  lemma InvAfterLook(d: Disk, c: Check)
    requires Inv(d, c) && Can(d, c, Look)
    ensures Inv(d, Do(d, c, Look))
  {
    hide Lines.Scan, Lines.IndexLF, DiskOk, Behind, PresentBehind, NoDup, Settled, At, Flatten, PieceLines;
  }

  lemma InvAfterAbort(d: Disk, c: Check)
    requires Inv(d, c) && Can(d, c, Abort)
    ensures Inv(d, Do(d, c, Abort))
  {
    hide Lines.Scan, Lines.IndexLF, DiskOk, Behind, PresentBehind, NoDup, Settled, At, Flatten, PieceLines;
  }

  lemma InvAfterSeek(d: Disk, c: Check)
    requires Inv(d, c) && Can(d, c, Seek)
    ensures Inv(d, Do(d, c, Seek))
  {
    assert Bytes([]) == [];
    assert WithinBuffer([]);
  }
}
