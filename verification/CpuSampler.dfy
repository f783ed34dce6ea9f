/**
 CPU usage from the system's cumulative idle, kernel and user times (`cpuPercent`).  The counters
 and their differences are unsigned 64-bit values and wrap around; kernel time includes idle time.
 A real number stands for the floating-point percentage.
 */
module CpuSampler {
  import opened Options

  newtype u64 = x: int | 0 <= x < U64

  function Wrap(x: int): u64 {
    (x % U64) as u64
  }

  function Sub(a: u64, b: u64): u64 {
    Wrap(a as int - b as int)
  }

  function Add(a: u64, b: u64): u64 {
    Wrap(a as int + b as int)
  }

  /** ftToU64: the two 32-bit halves of a file time. */
  function FromHalves(high: int, low: int): (r: u64)
    requires 0 <= high < 0x1_0000_0000 && 0 <= low < 0x1_0000_0000
    ensures r as int / 0x1_0000_0000 == high && r as int % 0x1_0000_0000 == low
  {
    (high * 0x1_0000_0000 + low) as u64
  }

  /** One reading of the counters. */
  datatype Sample = Sample(idle: u64, kernel: u64, user: u64)

  function BusyBetween(a: Sample, b: Sample): u64 {
    Sub(TotalBetween(a, b), Sub(b.idle, a.idle))
  }

  function TotalBetween(a: Sample, b: Sample): u64 {
    Add(Sub(b.kernel, a.kernel), Sub(b.user, a.user))
  }

  function Share(part: int, whole: int): real
    requires whole > 0
  {
    part as real * 100.0 / whole as real
  }

  function Percent(a: Sample, b: Sample): real {
    if TotalBetween(a, b) == 0 then 0.0
    else Share(BusyBetween(a, b) as int, TotalBetween(a, b) as int)
  }

  class Sampler {
    var last: Option<Sample>

    constructor ()
      ensures last.None?
    {
      last := None;
    }

    /** cpuPercent, for a reading that may have failed: the first reading only sets the reference;
        each later one is compared with the reading processed before it and replaces it. */
    method CpuPercent(reading: Option<Sample>) returns (pct: Option<real>)
      modifies this
      ensures last == if reading.Some? then reading else old(last)
      ensures reading.None? ==> pct.None?
      ensures reading.Some? && old(last).None? ==> pct == Some(0.0)
      ensures reading.Some? && old(last).Some? ==> pct == Some(Percent(old(last).value, reading.value))
    {
      hide Share, Wrap, Sub, Add;
      if reading.None? { return None; }
      var cur := reading.value;
      if last.None? {
        last := reading;
        return Some(0.0);
      }
      var dIdle := Sub(cur.idle, last.value.idle);
      var dKern := Sub(cur.kernel, last.value.kernel);
      var dUser := Sub(cur.user, last.value.user);
      last := reading;
      var total := Add(dKern, dUser);
      if total == 0 { return Some(0.0); }
      var busy := Sub(total, dIdle);
      return Some(Share(busy as int, total as int));
    }
  }

  // ----- wrap-around arithmetic

  /** Differences and sums of wrapped values are the wrapped differences and sums. */
  lemma SubIsModular(x: int, y: int)
    ensures Sub(Wrap(x), Wrap(y)) == Wrap(x - y)
  {
  }

  lemma AddIsModular(x: int, y: int)
    ensures Add(Wrap(x), Wrap(y)) == Wrap(x + y)
  {
  }

  // ----- against the true times

  /** The true cumulative times behind a reading, which do not wrap. */
  datatype Times = Times(idle: int, kernel: int, user: int)

  function Read(t: Times): Sample {
    Sample(Wrap(t.idle), Wrap(t.kernel), Wrap(t.user))
  }

  function Total(a: Times, b: Times): int {
    (b.kernel - a.kernel) + (b.user - a.user)
  }

  function Busy(a: Times, b: Times): int {
    Total(a, b) - (b.idle - a.idle)
  }

  /** Time has passed from a to b: no counter went back, and kernel time took in the idle time. */
  predicate Later(a: Times, b: Times) {
    && a.idle <= b.idle && a.user <= b.user
    && b.idle - a.idle <= b.kernel - a.kernel
  }

  lemma ReadBetween(a: Times, b: Times)
    ensures TotalBetween(Read(a), Read(b)) == Wrap(Total(a, b))
    ensures BusyBetween(Read(a), Read(b)) == Wrap(Busy(a, b))
  {
    SubIsModular(b.kernel, a.kernel);
    SubIsModular(b.user, a.user);
    SubIsModular(b.idle, a.idle);
    AddIsModular(b.kernel - a.kernel, b.user - a.user);
    SubIsModular(Total(a, b), b.idle - a.idle);
  }

  lemma ShareBounds(n: int, d: int)
    requires d > 0
    ensures 0 <= n <==> 0.0 <= Share(n, d)
    ensures n <= d <==> Share(n, d) <= 100.0
  {
    var q, r := Share(n, d), d as real;
    assert q * r == n as real * 100.0;
    assert (100.0 - q) * r == 100.0 * r - q * r;
    SameSign(q, r);
    SameSign(100.0 - q, r);
  }

  lemma ShareTimes(n: int, d: int)
    requires d > 0
    ensures Share(n, d) * d as real == 100.0 * n as real
  {
  }

  lemma SameSign(x: real, r: real)
    requires r > 0.0
    ensures x >= 0.0 <==> x * r >= 0.0
  {
  }

  lemma WrapSmall(x: int)
    requires 0 <= x < U64
    ensures Wrap(x) as int == x
  {
  }

  lemma WrapNegative(x: int)
    requires -U64 < x < 0
    ensures Wrap(x) as int == x + U64
  {
  }

  /** Readings processed in the order they were taken, less than a full wrap apart, give the true
      percentage, between 0 and 100, whatever the counters wrapped in between. */
  lemma InOrderIsExact(a: Times, b: Times)
    requires Later(a, b) && Total(a, b) < U64
    ensures Total(a, b) == 0 ==> Percent(Read(a), Read(b)) == 0.0
    ensures Total(a, b) > 0 ==>
              Percent(Read(a), Read(b)) * Total(a, b) as real == 100.0 * Busy(a, b) as real
    ensures 0.0 <= Percent(Read(a), Read(b)) <= 100.0
  {
    hide Wrap, Share, BusyBetween, TotalBetween;
    ReadBetween(a, b);
    WrapSmall(Busy(a, b));
    WrapSmall(Total(a, b));
    if Total(a, b) > 0 {
      ShareBounds(Busy(a, b), Total(a, b));
      ShareTimes(Busy(a, b), Total(a, b));
    }
  }

  /** A result is never negative, and it is at most 100 exactly when the idle difference is not
      above the total one. */
  lemma BoundIff(a: Sample, b: Sample)
    requires TotalBetween(a, b) != 0
    ensures Percent(a, b) >= 0.0
    ensures Percent(a, b) <= 100.0 <==> Sub(b.idle, a.idle) <= TotalBetween(a, b)
  {
    hide Wrap, Share, TotalBetween, Add;
    var total, idle := TotalBetween(a, b) as int, Sub(b.idle, a.idle) as int;
    ShareBounds(BusyBetween(a, b) as int, total);
    if idle <= total {
      WrapSmall(total - idle);
    } else {
      WrapNegative(total - idle);
    }
  }

  /** The reading is taken before the lock, so two checks can process theirs out of order.  Then
      the later result exceeds 100 exactly when both idle and busy time passed between them. */
  lemma OutOfOrderIff(a: Times, b: Times)
    requires Later(a, b) && 0 < Total(a, b) < U64
    ensures Percent(Read(b), Read(a)) > 100.0 <==> b.idle > a.idle && Busy(a, b) > 0
  {
    hide Wrap, Sub, Add, Share, Percent, BusyBetween, TotalBetween;
    ReadBetween(b, a);
    SubIsModular(a.idle, b.idle);
    WrapNegative(-Total(a, b));
    if b.idle > a.idle {
      WrapNegative(a.idle - b.idle);
    } else {
      WrapSmall(a.idle - b.idle);
    }
    assert Total(b, a) == -Total(a, b);
    BoundIff(Read(b), Read(a));
  }

  // ----- sums over a run

  /** The sum, modulo 2^64, of the busy (or total) differences over processed readings. */
  function BusySum(ss: seq<Sample>): u64 {
    if |ss| <= 1 then 0 else Add(BusySum(ss[..|ss| - 1]), BusyBetween(ss[|ss| - 2], ss[|ss| - 1]))
  }

  function TotalSum(ss: seq<Sample>): u64 {
    if |ss| <= 1 then 0 else Add(TotalSum(ss[..|ss| - 1]), TotalBetween(ss[|ss| - 2], ss[|ss| - 1]))
  }

  function AsTimes(s: Sample): Times {
    Times(s.idle as int, s.kernel as int, s.user as int)
  }

  /** Telescoping: in whatever order readings are processed, the differences add up, modulo 2^64,
      to the difference between the last and the first. */
  lemma {:induction false} Telescope(ss: seq<Sample>)
    requires ss != []
    ensures BusySum(ss) == BusyBetween(ss[0], ss[|ss| - 1])
    ensures TotalSum(ss) == TotalBetween(ss[0], ss[|ss| - 1])
  {
    hide BusyBetween, TotalBetween, Add;
    var n := |ss| - 1;
    if n == 0 {
      NothingBetween(ss[0]);
    } else {
      Telescope(ss[..n]);
      BetweenChains(ss[0], ss[n - 1], ss[n]);
    }
  }

  lemma NothingBetween(s: Sample)
    ensures BusyBetween(s, s) == 0 && TotalBetween(s, s) == 0
  {
  }

  lemma ReadBack(s: Sample)
    ensures Read(AsTimes(s)) == s
  {
  }

  lemma BetweenChains(a: Sample, b: Sample, c: Sample)
    ensures Add(BusyBetween(a, b), BusyBetween(b, c)) == BusyBetween(a, c)
    ensures Add(TotalBetween(a, b), TotalBetween(b, c)) == TotalBetween(a, c)
  {
    hide Wrap, Add, Sub;
    var x, y, z := AsTimes(a), AsTimes(b), AsTimes(c);
    ReadBack(a);
    ReadBack(b);
    ReadBack(c);
    ReadBetween(x, y);
    ReadBetween(y, z);
    ReadBetween(x, z);
    AddIsModular(Busy(x, y), Busy(y, z));
    AddIsModular(Total(x, y), Total(y, z));
  }
}
