/**
 The buffered reader behind a log_tail scan: `bufio.Scanner` with a buffer that starts small,
 doubles, and is capped.  Its loop shifts, grows and refills the buffer, whatever sizes the reads
 come in; it is proved to deliver exactly the lines of `Lines.Scan` and to leave the file position
 exactly where `Lines.Scan` says.
 */
module Scanner {
  import opened Lines

  /** An open log file, positioned for reading. `data` is what it delivers from there until its
      first end-of-file or read error; how the bytes are cut into reads is left open. */
  class LogFile {
    const data: seq<byte>
    var pos: nat

    constructor (data: seq<byte>)
      ensures this.data == data && pos == 0
    {
      this.data := data;
      pos := 0;
    }

    method Read(buf: array<byte>, at: nat) returns (n: nat)
      requires pos <= |data| && at < buf.Length
      modifies this`pos, buf
      ensures pos == old(pos) + n <= |data|
      ensures n <= buf.Length - at
      ensures n == 0 <==> old(pos) == |data|
      ensures forall k | 0 <= k < at :: buf[k] == old(buf[k])
      ensures buf[at..at + n] == data[old(pos)..pos]
    {
      var room := if buf.Length - at <= |data| - pos then buf.Length - at else |data| - pos;
      if room == 0 { return 0; }
      n :| 1 <= n <= room;
      forall k | 0 <= k < n {
        buf[at + k] := data[pos + k];
      }
      pos := pos + n;
    }
  }

  /** A token of the split function: how far to move, and the line. */
  datatype Split = More | Token(advance: nat, line: Line)

  /** bufio.ScanLines. */
  function ScanLines(window: seq<byte>, atEOF: bool): Split {
    var i := IndexLF(window);
    if i < |window| then Token(i + 1, DropCR(window[..i]))
    else if atEOF && window != [] then Token(|window|, DropCR(window))
    else More
  }

  class LineScanner {
    const file: LogFile
    const max: nat
    var buf: array<byte>
    var start: nat
    var end: nat
    var ended: bool
    ghost var taken: nat  // bytes of the file that have left the buffer as tokens

    ghost predicate Valid()
      reads this, file, buf
    {
      && 0 < buf.Length <= max
      && start <= end <= buf.Length
      && taken <= file.pos <= |file.data|
      && buf[start..end] == file.data[taken..file.pos]
      && (ended ==> file.pos == |file.data| && end - start < buf.Length)
    }

    constructor (file: LogFile, initial: nat, max: nat)
      requires file.pos == 0 && 0 < initial <= max
      ensures Valid() && fresh(buf) && this.file == file && this.max == max && taken == 0
    {
      this.file, this.max := file, max;
      buf := new byte[initial];
      start, end, ended, taken := 0, 0, false, 0;
    }

    /** What is left to deliver after the first k bytes of the file. */
    ghost function Rest(k: nat): Scanned
      requires k <= |file.data|
    {
      Lines.Scan(file.data[k..], max)
    }

    /** Copies the unread bytes to the front of `into`, which becomes the buffer. */
    method MoveTo(into: array<byte>)
      requires Valid() && end - start < into.Length <= max
      modifies this`buf, this`start, this`end, into
      ensures Valid() && buf == into && start == 0 && end == old(end) - old(start)
    {
      ghost var window := buf[start..end];
      forall k | 0 <= k < end - start {
        into[k] := buf[start + k];
      }
      buf, start, end := into, 0, end - start;
      assert buf[..end] == window;
    }

    /** Moves the unread bytes to the front when the buffer's end is reached or half of it is
        used up, and doubles the buffer when it is full. */
    method MakeRoom() returns (full: bool)
      requires Valid() && !ended
      modifies this`buf, this`start, this`end, buf
      ensures Valid() && (buf == old(buf) || fresh(buf))
      ensures full ==> start == 0 && end == buf.Length == max
      ensures !full ==> end < buf.Length
    {
      if start > 0 && (end == buf.Length || start > buf.Length / 2) {
        MoveTo(buf);
      }
      if end == buf.Length {
        if buf.Length >= max {
          return true;
        }
        var bigger := new byte[if buf.Length * 2 <= max then buf.Length * 2 else max];
        MoveTo(bigger);
      }
      return false;
    }

    /** Reads once more, unless a whole buffer is already waiting. */
    method Refill() returns (full: bool)
      requires Valid() && !ended
      modifies this`buf, this`start, this`end, this`ended, file, buf
      ensures Valid() && (buf == old(buf) || fresh(buf))
      ensures full ==> file.pos - taken == max && file.pos == old(file.pos)
      ensures !full ==> (if ended then file.pos == old(file.pos) else file.pos > old(file.pos))
    {
      full := MakeRoom();
      if !full {
        ReadMore();
      }
    }

    method ReadMore()
      requires Valid() && !ended && end < buf.Length
      modifies this`end, this`ended, file, buf
      ensures Valid()
      ensures if ended then file.pos == old(file.pos) else file.pos > old(file.pos)
    {
      ghost var unread, mid := buf[start..end], file.pos;
      var n := file.Read(buf, end);
      assert buf[start..end] == unread;
      Joined(buf[..], start, end, n, file.data, taken, mid);
      end := end + n;
      ended := n == 0;
    }

    /** The token at the front of the buffer, if the split function finds one there. */
    method Peek() returns (split: Split)
      requires Valid() && (end > start || ended)
      ensures split.Token? ==> 0 < split.advance <= end - start
      ensures split.Token? ==> Delivers(taken, split)
      ensures split.More? ==> IndexLF(file.data[taken..]) >= file.pos - taken
      ensures split.More? && ended ==> file.pos == taken
    {
      hide Lines.Scan, Lines.IndexLF;
      var window := buf[start..end];
      split := ScanLines(window, ended);
      if split.More? {
        MoreMeansNoLF(file.data, taken, window);
      } else if IndexLF(window) < |window| {
        TerminatedToken(file.data, taken, window, max);
      } else {
        FinalToken(file.data, taken, window, max);
      }
    }

    /** The token is the first thing a scan from byte k delivers; the rest follows it. */
    ghost predicate Delivers(k: nat, t: Split)
      requires t.Token? && k + t.advance <= |file.data|
    {
      Rest(k) == Then([t.line], t.advance, Rest(k + t.advance))
    }

    method Advance(split: Split)
      requires Valid() && split.Token? && split.advance <= end - start
      modifies this`start, this`taken
      ensures Valid() && taken == old(taken) + split.advance
    {
      start := start + split.advance;
      taken := taken + split.advance;
    }

    /** The next line, or none.  When there is none, the file position is final. */
    method Scan() returns (ok: bool, line: Line)
      requires Valid()
      modifies this`buf, this`start, this`end, this`ended, this`taken, file, buf
      ensures Valid() && (buf == old(buf) || fresh(buf))
      ensures old(taken) <= taken
      ensures ok ==> old(taken) < taken && Rest(old(taken)) == Then([line], taken - old(taken), Rest(taken))
      ensures !ok ==> taken == old(taken)
      ensures !ok ==> Rest(taken).lines == [] && file.pos == taken + Rest(taken).consumed
    {
      hide Lines.Scan, Lines.IndexLF;
      while true
        invariant Valid() && taken == old(taken) && (buf == old(buf) || fresh(buf))
        decreases |file.data| - file.pos, if ended then 0 else 1
      {
        if end > start || ended {
          var split := Peek();
          if split.Token? {
            Advance(split);
            return true, split.line;
          }
        }
        if ended {
          NothingLeft(file.data, max);
          return false, [];
        }
        var full := Refill();
        if full {
          FullMeansTooLong(file.data, taken, file.pos, max);
          return false, [];
        }
      }
    }
  }

  /** The unread bytes and those just read behind them are a stretch of the file. */
  lemma Joined(b: seq<byte>, start: nat, end: nat, n: nat, data: seq<byte>, lo: nat, mid: nat)
    requires start <= end && end + n <= |b| && lo <= mid && mid + n <= |data|
    requires b[start..end] == data[lo..mid] && b[end..end + n] == data[mid..mid + n]
    ensures b[start..end + n] == data[lo..mid + n]
  {
    assert b[start..end + n] == b[start..end] + b[end..end + n];
    assert data[lo..mid + n] == data[lo..mid] + data[mid..mid + n];
  }

  // ----- the window of the file that is in the buffer, against the rest of the file

  lemma TerminatedToken(data: seq<byte>, lo: nat, window: seq<byte>, max: nat)
    requires lo + |window| <= |data| && window == data[lo..lo + |window|]
    requires IndexLF(window) < |window| <= max
    ensures var i := IndexLF(window);
            (Lines.Scan(data[lo..], max)
             == Then([DropCR(window[..i])], i + 1, Lines.Scan(data[lo + (i + 1)..], max)))
  {
    hide Lines.Scan, Lines.IndexLF;
    var i := IndexLF(window);
    CutAt(data, lo, window, i);
    ScanLine(window[..i], data[lo + (i + 1)..], max);
  }

  lemma CutAt(data: seq<byte>, lo: nat, window: seq<byte>, i: nat)
    requires lo + |window| <= |data| && window == data[lo..lo + |window|]
    requires i < |window|
    ensures data[lo..] == window[..i] + [window[i]] + data[lo + (i + 1)..]
  {
    SplitAt(data[lo..], i);
    TakeOfWindow(data, lo, |window|, i);
    DropOfDrop(data, lo, i + 1);
  }

  lemma WindowThenRest(data: seq<byte>, lo: nat, window: seq<byte>)
    requires lo + |window| <= |data| && window == data[lo..lo + |window|]
    ensures data[lo..] == window + data[lo + |window|..]
  {
  }

  lemma TakeOfWindow(data: seq<byte>, lo: nat, n: nat, i: nat)
    requires lo + n <= |data| && i < n
    ensures data[lo..][..i] == data[lo..lo + n][..i]
    ensures data[lo..][i] == data[lo..lo + n][i]
  {
  }

  lemma DropOfDrop(data: seq<byte>, lo: nat, n: nat)
    requires lo + n <= |data|
    ensures data[lo..][n..] == data[lo + n..]
  {
  }

  lemma FinalToken(data: seq<byte>, lo: nat, window: seq<byte>, max: nat)
    requires lo + |window| == |data| && window == data[lo..]
    requires window != [] && IndexLF(window) == |window| < max
    ensures Lines.Scan(data[lo..], max)
         == Then([DropCR(window)], |window|, Lines.Scan(data[lo + |window|..], max))
  {
    assert window[..|window|] == window;
    ScanLast(window, max);
  }

  lemma MoreMeansNoLF(data: seq<byte>, lo: nat, window: seq<byte>)
    requires lo + |window| <= |data| && window == data[lo..lo + |window|]
    requires IndexLF(window) == |window|
    ensures IndexLF(data[lo..]) >= |window|
  {
    hide IndexLF;
    WindowThenRest(data, lo, window);
    IndexOfAppend(window, data[lo + |window|..]);
  }

  lemma NothingLeft(data: seq<byte>, max: nat)
    ensures Lines.Scan(data[|data|..], max) == Scanned([], 0, false)
  {
  }

  lemma FullMeansTooLong(data: seq<byte>, lo: nat, hi: nat, max: nat)
    requires lo <= hi <= |data| && hi - lo == max > 0
    requires IndexLF(data[lo..]) >= hi - lo
    ensures Lines.Scan(data[lo..], max) == Scanned([], max, true)
  {
  }
}
