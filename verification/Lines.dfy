/**
 The line splitter that a log_tail scan applies to the bytes it reads: `bufio.ScanLines` under a
 scanner whose buffer is capped.  `Scan` is the simple, one-pass meaning; the module `Scanner`
 shows that the buffered reader computes it.
 */
module Lines {
  newtype byte = x: int | 0 <= x < 256

  type Line = seq<byte>

  const LF: byte := 10
  const CR: byte := 13

  /** Position of the first line feed, or |s| when there is none. */
  function IndexLF(s: seq<byte>): (i: nat)
    ensures i <= |s|
    ensures LF !in s[..i]
    ensures i < |s| ==> s[i] == LF
  {
    if s == [] || s[0] == LF then 0 else 1 + IndexLF(s[1..])
  }

  /** One trailing carriage return is not part of a line. */
  function DropCR(s: seq<byte>): seq<byte> {
    if s != [] && s[|s| - 1] == CR then s[..|s| - 1] else s
  }

  /** What one scan yields: its lines, how far it moved the file position, and whether it stopped
      because a line filled the whole buffer. */
  datatype Scanned = Scanned(lines: seq<Line>, consumed: nat, tooLong: bool)

  /** A line is delivered when its line feed (or, for the last one, the end of the data) comes
      before the buffer of `max` bytes is full.  Otherwise the scan stops there, with the full
      buffer read and thrown away. */
  function Scan(data: seq<byte>, max: nat): Scanned
    decreases |data|
  {
    var i := IndexLF(data);
    if data == [] then Scanned([], 0, false)
    else if i >= max then Scanned([], max, true)
    else if i == |data| then Scanned([DropCR(data)], |data|, false)
    else
      var rest := Scan(data[i + 1..], max);
      Scanned([DropCR(data[..i])] + rest.lines, i + 1 + rest.consumed, rest.tooLong)
  }

  /** No line of `data` fills the buffer. */
  predicate Fits(data: seq<byte>, max: nat) {
    !Scan(data, max).tooLong
  }

  /** `data` ends on a line boundary. */
  predicate Aligned(data: seq<byte>) {
    data == [] || data[|data| - 1] == LF
  }

  // ----- the first line feed

  lemma {:induction false} IndexIs(s: seq<byte>, i: nat)
    requires i <= |s|
    requires LF !in s[..i]
    requires i < |s| ==> s[i] == LF
    ensures IndexLF(s) == i
    decreases i
  {
    if i > 0 {
      assert s[..i][0] == s[0];
      assert s[..i][1..] == s[1..][..i - 1];
      IndexIs(s[1..], i - 1);
    }
  }

  lemma {:induction false} IndexOfAppend(a: seq<byte>, b: seq<byte>)
    ensures IndexLF(a + b) == if IndexLF(a) < |a| then IndexLF(a) else |a| + IndexLF(b)
    decreases |a|
  {
    if a == [] {
      assert a + b == b;
    } else {
      assert (a + b)[1..] == a[1..] + b;
      IndexOfAppend(a[1..], b);
    }
  }

  lemma {:induction false} AlignedHasLF(a: seq<byte>)
    requires a != [] && Aligned(a)
    ensures IndexLF(a) < |a|
    ensures Aligned(a[IndexLF(a) + 1..])
  {
    if |a| > 1 && a[0] != LF {
      AlignedHasLF(a[1..]);
      assert a[1..][IndexLF(a[1..]) + 1..] == a[IndexLF(a) + 1..];
    }
  }

  // ----- one line at a time

  /** A scan that comes after `n` bytes which already gave `lines`. */
  function Then(lines: seq<Line>, n: nat, next: Scanned): Scanned {
    Scanned(lines + next.lines, n + next.consumed, next.tooLong)
  }

  lemma ScanLine(l: Line, rest: seq<byte>, max: nat)
    requires LF !in l && |l| < max
    ensures Scan(l + [LF] + rest, max)
         == Then([DropCR(l)], |l| + 1, Scan(rest, max))
  {
    var d := l + [LF] + rest;
    assert d[..|l|] == l;
    IndexIs(d, |l|);
    assert d[|l| + 1..] == rest;
  }

  lemma ScanLast(l: Line, max: nat)
    requires LF !in l && l != [] && |l| < max
    ensures Scan(l, max) == Scanned([DropCR(l)], |l|, false)
  {
    assert l[..|l|] == l;
    IndexIs(l, |l|);
  }

  lemma SplitAt<T>(s: seq<T>, i: nat)
    requires i < |s|
    ensures s == s[..i] + ([s[i]] + s[i + 1..])
    ensures s == s[..i] + [s[i]] + s[i + 1..]
  {
    ConcatAssoc(s[..i], [s[i]], s[i + 1..]);
  }

  lemma ConcatAssoc<T>(x: seq<T>, y: seq<T>, z: seq<T>)
    ensures x + y + z == x + (y + z)
  {
  }

  lemma SplitFirst(a: seq<byte>)
    requires IndexLF(a) < |a|
    ensures a == a[..IndexLF(a)] + [LF] + a[IndexLF(a) + 1..]
  {
    hide IndexLF;
    SplitAt(a, IndexLF(a));
  }

  // ----- what a scan consumes

  /** A scan that meets no overlong line reads everything; one that does still advances by at
      least a whole buffer, and never past the end of the data. */
  lemma {:induction false} ConsumedBounds(data: seq<byte>, max: nat)
    ensures Fits(data, max) ==> Scan(data, max).consumed == |data|
    ensures !Fits(data, max) ==> max <= Scan(data, max).consumed <= |data|
    decreases |data|
  {
    var i := IndexLF(data);
    if data != [] && i < max && i < |data| {
      ConsumedBounds(data[i + 1..], max);
    }
  }

  /** What an overlong line costs: the delivered lines are those of the data before it, and the full
      buffer read last, a piece of that one line, is in none of them. */
  lemma {:induction false} OverlongDropped(data: seq<byte>, max: nat)
    requires !Fits(data, max)
    ensures var end := Scan(data, max).consumed;
            && max <= end <= |data|
            && Aligned(data[..end - max]) && Fits(data[..end - max], max)
            && Scan(data, max).lines == Scan(data[..end - max], max).lines
            && LF !in data[end - max..end]
    decreases |data|
  {
    hide Scan, IndexLF;
    var i := IndexLF(data);
    FitsUnfolds(data, max);
    if i < max && i < |data| {
      var rest := data[i + 1..];
      OverlongDropped(rest, max);
      SplitFirst(data);
      ScanLine(data[..i], rest, max);
      var k := Scan(rest, max).consumed - max;
      assert data[..i + 1 + k] == data[..i] + [LF] + rest[..k];
      ScanLine(data[..i], rest[..k], max);
      assert data[i + 1 + k..i + 1 + k + max] == rest[k..k + max];
      AlignedAfter(data[..i], rest[..k]);
    } else {
      StopsAtOnce(data, max);
      assert data[..0] == [];
      ScanNothing(max);
      assert data[0..max] == data[..i][..max];
    }
  }

  lemma StopsAtOnce(data: seq<byte>, max: nat)
    requires data != [] && max <= IndexLF(data)
    ensures Scan(data, max) == Scanned([], max, true)
  {
  }

  lemma AlignedAfter(l: Line, rest: seq<byte>)
    requires Aligned(rest)
    ensures Aligned(l + [LF] + rest)
  {
  }

  // ----- the homomorphism

  /** After data that ends on a line boundary, scanning goes on as if it started afresh. */
  lemma {:induction false} ScanAfterBoundary(a: seq<byte>, b: seq<byte>, max: nat)
    requires Aligned(a) && Fits(a, max)
    ensures Scan(a + b, max) == Then(Scan(a, max).lines, |a|, Scan(b, max))
    decreases |a|
  {
    if a == [] {
      assert a + b == b;
    } else {
      AlignedHasLF(a);
      var l, rest := a[..IndexLF(a)], a[IndexLF(a) + 1..];
      SplitFirst(a);
      FitsTail(a, max);
      ScanAfterBoundary(rest, b, max);
      PrependLine(l, rest, b, max);
    }
  }

  lemma FitsTail(a: seq<byte>, max: nat)
    requires IndexLF(a) < |a| && Fits(a, max)
    ensures IndexLF(a) < max && Fits(a[IndexLF(a) + 1..], max)
  {
  }

  lemma PrependLine(l: Line, rest: seq<byte>, b: seq<byte>, max: nat)
    requires LF !in l && |l| < max
    requires Scan(rest + b, max) == Then(Scan(rest, max).lines, |rest|, Scan(b, max))
    ensures Scan(l + [LF] + rest + b, max)
         == Then(Scan(l + [LF] + rest, max).lines, |l| + 1 + |rest|, Scan(b, max))
  {
    ScanLine(l, rest, max);
    ScanLine(l, rest + b, max);
    ConcatAssoc(l + [LF], rest, b);
    PrependAlgebra(DropCR(l), |l| + 1, Scan(rest, max), |rest|, Scan(b, max));
  }

  lemma PrependAlgebra(first: Line, n: nat, a: Scanned, m: nat, b: Scanned)
    ensures Then([first], n, Then(a.lines, m, b)) == Then(Then([first], n, a).lines, n + m, b)
  {
    ConcatAssoc([first], a.lines, b.lines);
  }

  /** Where the part of `data` after its last line feed starts. */
  function TailStart(data: seq<byte>): (k: nat)
    ensures k <= |data| && LF !in data[k..] && Aligned(data[..k])
  {
    if Aligned(data) then |data| else
      var k := TailStart(data[..|data| - 1]);
      assert data[k..] == data[..|data| - 1][k..] + [data[|data| - 1]];
      assert data[..|data| - 1][..k] == data[..k];
      k
  }

  function Head(data: seq<byte>): seq<byte> {
    data[..TailStart(data)]
  }

  function Tail(data: seq<byte>): seq<byte> {
    data[TailStart(data)..]
  }

  lemma TailOfUnaligned(data: seq<byte>)
    requires !Aligned(data)
    ensures Tail(data) != [] && LF !in Tail(data) && Aligned(Head(data))
    ensures data == Head(data) + Tail(data)
  {
    assert TailStart(data) == TailStart(data[..|data| - 1]) <= |data| - 1;
  }

  /** The two halves of data without an overlong line have none either. */
  lemma {:induction false} FitsSplits(a: seq<byte>, b: seq<byte>, max: nat)
    requires Fits(a + b, max)
    ensures Fits(a, max) && Fits(b, max)
    decreases |a|
  {
    hide Scan, IndexLF;
    var i := IndexLF(a);
    IndexOfAppend(a, b);
    FitsUnfolds(a, max);
    FitsUnfolds(b, max);
    FitsUnfolds(a + b, max);
    if a == [] {
      assert a + b == b;
    } else if i < |a| {
      assert (a + b)[i + 1..] == a[i + 1..] + b;
      FitsSplits(a[i + 1..], b, max);
    } else if IndexLF(b) < |b| {
      assert (a + b)[|a| + IndexLF(b) + 1..] == b[IndexLF(b) + 1..];
    }
  }

  lemma FitsUnfolds(a: seq<byte>, max: nat)
    ensures IndexLF(a) == |a| ==> (Fits(a, max) <==> a == [] || |a| < max)
    ensures IndexLF(a) < |a| ==> (Fits(a, max) <==> IndexLF(a) < max && Fits(a[IndexLF(a) + 1..], max))
  {
  }

  /** The first raw line of b (without its line feed), and what follows it. */
  function FirstPart(b: seq<byte>): seq<byte> {
    b[..IndexLF(b)]
  }

  function AfterFirst(b: seq<byte>): seq<byte> {
    if IndexLF(b) < |b| then b[IndexLF(b) + 1..] else []
  }

  /** Exactly how a boundary in the middle of a line changes the result: the line t+s, which one
      scan would deliver whole, is delivered as the two lines t and s.  All other lines agree. */
  lemma CutLine(a: seq<byte>, b: seq<byte>, max: nat)
    requires !Aligned(a) && b != [] && Fits(a + b, max)
    ensures var t, s := Tail(a), FirstPart(b);
            var before, after := Scan(Head(a), max).lines, Scan(AfterFirst(b), max).lines;
            && Scan(a, max).lines == before + [DropCR(t)]
            && Scan(b, max).lines == [DropCR(s)] + after
            && Scan(a + b, max).lines == before + ([DropCR(t + s)] + after)
  {
    hide Scan, IndexLF;
    TailOfUnaligned(a);
    var h, t := Head(a), Tail(a);
    assert a + b == h + (t + b);
    FitsSplits(h, t + b, max);
    ScanAfterBoundary(h, t + b, max);
    ScanAfterBoundary(h, t, max);
    CutInsideLine(t, b, max);
  }

  /** The same for data that is one unfinished line. */
  lemma CutInsideLine(t: seq<byte>, b: seq<byte>, max: nat)
    requires t != [] && LF !in t && b != [] && Fits(t + b, max)
    ensures var s, after := FirstPart(b), Scan(AfterFirst(b), max).lines;
            && Scan(t, max).lines == [DropCR(t)]
            && Scan(b, max).lines == [DropCR(s)] + after
            && Scan(t + b, max).lines == [DropCR(t + s)] + after
  {
    hide Scan, IndexLF;
    var s := FirstPart(b);
    UnfinishedFits(t, b, max);
    NoLFIndex(t);
    IndexOfAppend(t, b);
    assert |t| + |s| < max;
    ScanLast(t, max);
    if IndexLF(b) == |b| {
      assert s == b;
      ScanLast(s, max);
      ScanLast(t + s, max);
      ScanNothing(max);
    } else {
      SplitFirst(b);
      ScanLine(s, AfterFirst(b), max);
      assert t + b == t + s + [LF] + AfterFirst(b);
      ScanLine(t + s, AfterFirst(b), max);
    }
  }

  lemma UnfinishedFits(t: seq<byte>, b: seq<byte>, max: nat)
    requires t != [] && LF !in t && Fits(t + b, max)
    ensures |t| + IndexLF(b) < max
  {
    NoLFIndex(t);
    IndexOfAppend(t, b);
  }

  lemma ScanNothing(max: nat)
    ensures Scan([], max) == Scanned([], 0, false)
  {
  }

  lemma NoLFIndex(t: seq<byte>)
    requires LF !in t
    ensures IndexLF(t) == |t|
  {
    assert t[..|t|] == t;
    IndexIs(t, |t|);
  }

  /** Scanning in two pieces equals scanning at once exactly when the cut is on a line boundary
      or nothing follows it. */
  lemma TwoScansIff(a: seq<byte>, b: seq<byte>, max: nat)
    requires Fits(a + b, max)
    ensures Scan(a, max).lines + Scan(b, max).lines == Scan(a + b, max).lines
       <==> Aligned(a) || b == []
  {
    FitsSplits(a, b, max);
    if Aligned(a) {
      ScanAfterBoundary(a, b, max);
    } else if b == [] {
      assert a + b == a;
    } else {
      CutLine(a, b, max);
    }
  }

  // ----- many pieces

  function Flatten(ds: seq<seq<byte>>): seq<byte> {
    if ds == [] then [] else ds[0] + Flatten(ds[1..])
  }

  /** The lines that scanning piece by piece delivers. */
  function PieceLines(ds: seq<seq<byte>>, max: nat): seq<Line> {
    if ds == [] then [] else Scan(ds[0], max).lines + PieceLines(ds[1..], max)
  }

  /** How many pieces start in the middle of a line, given the bytes that came before them. */
  function Cuts(before: seq<byte>, ds: seq<seq<byte>>): nat
    decreases |ds|
  {
    if ds == [] then 0
    else (if ds[0] != [] && !Aligned(before) then 1 else 0) + Cuts(before + ds[0], ds[1..])
  }

  lemma {:induction false} PiecesAgainstWhole(before: seq<byte>, ds: seq<seq<byte>>, max: nat)
    requires Fits(before + Flatten(ds), max)
    ensures |Scan(before, max).lines| + |PieceLines(ds, max)|
         == |Scan(before + Flatten(ds), max).lines| + Cuts(before, ds)
    ensures Cuts(before, ds) == 0
        ==> Scan(before, max).lines + PieceLines(ds, max) == Scan(before + Flatten(ds), max).lines
    decreases |ds|
  {
    hide Scan, IndexLF;
    if ds == [] {
      assert before + Flatten(ds) == before;
    } else {
      var d, rest := ds[0], ds[1..];
      assert before + Flatten(ds) == (before + d) + Flatten(rest);
      FitsSplits(before + d, Flatten(rest), max);
      OnePiece(before, d, max);
      PiecesAgainstWhole(before + d, rest, max);
      ConcatAssoc(Scan(before, max).lines, Scan(d, max).lines, PieceLines(rest, max));
    }
  }

  lemma OnePiece(before: seq<byte>, d: seq<byte>, max: nat)
    requires Fits(before + d, max)
    ensures |Scan(before, max).lines| + |Scan(d, max).lines|
         == |Scan(before + d, max).lines| + Cuts(before, [d])
    ensures Cuts(before, [d]) == if d != [] && !Aligned(before) then 1 else 0
    ensures Cuts(before, [d]) == 0
        ==> Scan(before, max).lines + Scan(d, max).lines == Scan(before + d, max).lines
  {
    hide Scan, IndexLF;
    TwoScansIff(before, d, max);
    if !Aligned(before) && d != [] {
      CutLine(before, d, max);
    }
  }

  /** Incremental equals one-shot: when no line is overlong, the lines delivered piece by piece
      are those of one scan over everything exactly when no piece starts inside a line; each one
      that does adds exactly one line to the count. */
  lemma PiecesIff(ds: seq<seq<byte>>, max: nat)
    requires Fits(Flatten(ds), max)
    ensures PieceLines(ds, max) == Scan(Flatten(ds), max).lines <==> Cuts([], ds) == 0
    ensures |PieceLines(ds, max)| == |Scan(Flatten(ds), max).lines| + Cuts([], ds)
  {
    assert [] + Flatten(ds) == Flatten(ds);
    PiecesAgainstWhole([], ds, max);
    assert Scan([], max).lines + PieceLines(ds, max) == PieceLines(ds, max);
  }

  lemma {:induction false} FlattenSnoc(ds: seq<seq<byte>>, d: seq<byte>)
    ensures Flatten(ds + [d]) == Flatten(ds) + d
    decreases |ds|
  {
    if ds == [] {
      assert ds + [d] == [d];
      assert Flatten([d]) == d + Flatten([]);
    } else {
      assert (ds + [d])[1..] == ds[1..] + [d];
      FlattenSnoc(ds[1..], d);
    }
  }

  // ----- printing lines back

  function Unlines(ls: seq<Line>): seq<byte> {
    if ls == [] then [] else ls[0] + [LF] + Unlines(ls[1..])
  }

  /** A record that the scanner hands back unchanged. */
  predicate Printable(l: Line, max: nat) {
    LF !in l && (l == [] || l[|l| - 1] != CR) && |l| < max
  }

  /** Reading back newline-terminated records yields exactly those records, in order. */
  lemma {:induction false} ScanUnlines(ls: seq<Line>, max: nat)
    requires forall l | l in ls :: Printable(l, max)
    ensures Scan(Unlines(ls), max).lines == ls && Fits(Unlines(ls), max)
  {
    if ls != [] {
      assert ls[0] in ls;
      ScanUnlines(ls[1..], max);
      ScanLine(ls[0], Unlines(ls[1..]), max);
    }
  }

  /** Text whose lines end in a line feed, or in a carriage return and a line feed, as `crlf` says. */
  function Text(ls: seq<Line>, crlf: seq<bool>): seq<byte>
    requires |crlf| == |ls|
  {
    if ls == [] then []
    else if crlf[0] then ls[0] + [CR, LF] + Text(ls[1..], crlf[1..])
    else ls[0] + [LF] + Text(ls[1..], crlf[1..])
  }

  /** A line can be any bytes but line feeds; without a carriage return of its own before the line
      feed it must not end in one. */
  predicate Writable(l: Line, crlf: bool, max: nat) {
    LF !in l && if crlf then |l| + 1 < max else |l| < max && (l == [] || l[|l| - 1] != CR)
  }

  /** Lines are read back as written, whichever way each one ends: exactly one carriage return goes
      with the line feed, and any before it belongs to the line. */
  lemma {:induction false} ScanText(ls: seq<Line>, crlf: seq<bool>, rest: seq<byte>, max: nat)
    requires |crlf| == |ls| && forall k | 0 <= k < |ls| :: Writable(ls[k], crlf[k], max)
    ensures Scan(Text(ls, crlf) + rest, max).lines == ls + Scan(rest, max).lines
    ensures Fits(Text(ls, crlf) + rest, max) <==> Fits(rest, max)
    decreases |ls|
  {
    hide Scan, IndexLF;
    if ls == [] {
      assert Text(ls, crlf) + rest == rest;
    } else {
      ScanText(ls[1..], crlf[1..], rest, max);
      var more := Text(ls[1..], crlf[1..]) + rest;
      assert Writable(ls[0], crlf[0], max);
      ScanWritten(ls[0], crlf[0], more, max);
      var ending := if crlf[0] then [CR, LF] else [LF];
      assert Text(ls, crlf) + rest == ls[0] + ending + more;
      assert [ls[0]] + (ls[1..] + Scan(rest, max).lines) == ls + Scan(rest, max).lines;
    }
  }

  lemma ScanWritten(l: Line, crlf: bool, more: seq<byte>, max: nat)
    requires Writable(l, crlf, max)
    ensures var d := l + (if crlf then [CR, LF] else [LF]) + more;
            && Scan(d, max).lines == [l] + Scan(more, max).lines
            && (Fits(d, max) <==> Fits(more, max))
  {
    if crlf {
      assert l + [CR, LF] + more == (l + [CR]) + [LF] + more;
      ScanLine(l + [CR], more, max);
      assert (l + [CR])[..|l|] == l;
    } else {
      ScanLine(l, more, max);
    }
  }

  /** The last line may lack its line feed; a carriage return at its end is dropped all the same. */
  lemma ScanLastLine(l: Line, cr: bool, max: nat)
    requires LF !in l && if cr then |l| + 1 < max else l != [] && l[|l| - 1] != CR && |l| < max
    ensures Scan(if cr then l + [CR] else l, max).lines == [l]
    ensures Fits(if cr then l + [CR] else l, max)
  {
    if cr {
      assert (l + [CR])[..|l|] == l;
      ScanLast(l + [CR], max);
    } else {
      ScanLast(l, max);
    }
  }

  /** Conversely no byte is lost: the lines of CR-free data that ends on a boundary print back to
      that data. */
  lemma {:induction false} UnlinesScan(data: seq<byte>, max: nat)
    requires Aligned(data) && Fits(data, max) && CR !in data
    ensures Unlines(Scan(data, max).lines) == data
    decreases |data|
  {
    if data != [] {
      AlignedHasLF(data);
      SplitFirst(data);
      var l, rest := data[..IndexLF(data)], data[IndexLF(data) + 1..];
      ScanLine(l, rest, max);
      UnlinesScan(rest, max);
      assert DropCR(l) == l by {
        if l != [] { assert l[|l| - 1] in data; }
      }
      assert Scan(data, max).lines[1..] == Scan(rest, max).lines;
    }
  }
}
