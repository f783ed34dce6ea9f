/**
 Target normalisation: `splitTargetHostPort`, with the address splitting, joining and integer
 conversions of the Go library written out, and `net.JoinHostPort` as its callers use it.  An IPv6
 literal is bracketed as section 3.2.2 of RFC 3986 asks.
 */
module Target {
  import opened Options

  const MAX_INT: int := 0x7fff_ffff_ffff_ffff
  const MIN_INT: int := -0x8000_0000_0000_0000

  // ----- decimal numbers

  predicate IsDigit(c: char) {
    '0' <= c <= '9'
  }

  predicate AllDigits(s: string) {
    forall k | 0 <= k < |s| :: IsDigit(s[k])
  }

  function Digit(n: nat): (c: char)
    requires n < 10
    ensures IsDigit(c)
  {
    '0' + n as char
  }

  function Decimal(n: nat): (s: string)
    ensures s != [] && AllDigits(s)
  {
    if n < 10 then [Digit(n)] else Decimal(n / 10) + [Digit(n % 10)]
  }

  /** strconv.Itoa. */
  function Itoa(n: int): string {
    if n < 0 then "-" + Decimal(-n) else Decimal(n)
  }

  function Value(s: string): nat
    requires AllDigits(s)
  {
    if s == [] then 0 else Value(s[..|s| - 1]) * 10 + (s[|s| - 1] - '0') as nat
  }

  /** strconv.Atoi: an optional sign, at least one digit, a value that fits in 64 bits. */
  function Atoi(s: string): Option<int> {
    var signed := s != [] && (s[0] == '-' || s[0] == '+');
    var ds := if signed then s[1..] else s;
    if ds == [] || !AllDigits(ds) then None
    else
      var v: int := Value(ds);
      var v := if signed && s[0] == '-' then -v else v;
      if MIN_INT <= v <= MAX_INT then Some(v) else None
  }

  lemma {:induction false} ValueOfDecimal(n: nat)
    ensures Value(Decimal(n)) == n
  {
    var s := Decimal(n);
    if n >= 10 {
      ValueOfDecimal(n / 10);
      assert s[..|s| - 1] == Decimal(n / 10);
    }
  }

  /** Printing and parsing a 64-bit integer gives it back. */
  lemma AtoiItoa(n: int)
    requires MIN_INT <= n <= MAX_INT
    ensures Atoi(Itoa(n)) == Some(n)
  {
    var d := Decimal(if n < 0 then -n else n);
    ValueOfDecimal(if n < 0 then -n else n);
    if n < 0 {
      assert Itoa(n)[1..] == d;
    } else {
      assert IsDigit(d[0]);
    }
  }

  function Zeros(k: nat): (s: string)
    ensures AllDigits(s)
  {
    seq(k, _ => '0')
  }

  /** Digits are leading zeros and the decimal form of their value. */
  lemma {:induction false} DigitsAre(ds: string) returns (k: nat)
    requires ds != [] && AllDigits(ds)
    ensures ds == Zeros(k) + Decimal(Value(ds))
  {
    var n := |ds| - 1;
    var c := ds[n];
    assert [Digit((c - '0') as nat)] == [c];
    if n == 0 {
      assert ds[..0] == [];
      k := 0;
    } else {
      k := DigitsAre(ds[..n]);
      var v := Value(ds[..n]);
      assert ds == ds[..n] + [c];
      if v == 0 {
        assert Zeros(k) + Decimal(0) == Zeros(k + 1);
        k := k + 1;
      } else {
        assert Decimal(Value(ds)) == Decimal(v) + [c];
      }
    }
  }

  lemma {:induction false} ValueOfZeros(k: nat, n: nat)
    ensures Value(Zeros(k) + Decimal(n)) == n
    decreases n
  {
    var s := Zeros(k) + Decimal(n);
    assert s[..|s| - 1] == Zeros(k) + Decimal(n)[..|Decimal(n)| - 1];
    if n >= 10 {
      assert Decimal(n)[..|Decimal(n)| - 1] == Decimal(n / 10);
      ValueOfZeros(k, n / 10);
    } else {
      assert s[..|s| - 1] == Zeros(k);
      ZerosAreNothing(k);
    }
  }

  lemma {:induction false} ZerosAreNothing(k: nat)
    ensures Value(Zeros(k)) == 0
  {
    if k > 0 {
      assert Zeros(k)[..k - 1] == Zeros(k - 1);
      ZerosAreNothing(k - 1);
    }
  }

  /** The string is a decimal form of n: a sign or none, leading zeros or none, the number. */
  ghost predicate Denotes(s: string, n: int) {
    exists sign: string, k: nat :: DenotesWith(s, n, sign, k)
  }

  predicate DenotesWith(s: string, n: int, sign: string, k: nat) {
    && s == sign + (Zeros(k) + Decimal(if n < 0 then -n else n))
    && sign in {"", "+", "-"} && (n > 0 ==> sign != "-") && (n < 0 ==> sign == "-")
  }

  lemma AtoiReads(s: string, n: int, sign: string, k: nat)
    requires DenotesWith(s, n, sign, k)
    ensures Atoi(s) == if MIN_INT <= n <= MAX_INT then Some(n) else None
  {
    hide Decimal, Value, Zeros;
    var m: nat := if n < 0 then -n else n;
    var ds := Zeros(k) + Decimal(m);
    ValueOfZeros(k, m);
    assert IsDigit(ds[0]);
    if sign == "" {
      assert s == ds;
    } else {
      assert s[0] == sign[0] && s[1..] == ds;
    }
  }

  lemma AtoiMeans(s: string) returns (sign: string, k: nat)
    requires Atoi(s).Some?
    ensures MIN_INT <= Atoi(s).value <= MAX_INT && DenotesWith(s, Atoi(s).value, sign, k)
  {
    hide Decimal, Value, Zeros;
    var signed := s[0] == '-' || s[0] == '+';
    var ds := if signed then s[1..] else s;
    sign := if signed then [s[0]] else "";
    k := DigitsAre(ds);
    assert s == sign + ds;
  }

  /** What parses, and as what: exactly the decimal forms of the 64-bit integers. */
  lemma AtoiIff(s: string, n: int)
    ensures Atoi(s) == Some(n) <==> -0x8000_0000_0000_0000 <= n <= 0x7fff_ffff_ffff_ffff && Denotes(s, n)
  {
    hide Atoi, DenotesWith;
    if Denotes(s, n) {
      var sign: string, k: nat :| DenotesWith(s, n, sign, k);
      AtoiReads(s, n, sign, k);
    }
    if Atoi(s) == Some(n) {
      var sign, k := AtoiMeans(s);
    }
  }

  /** What is printed: the shortest decimal form. */
  lemma {:induction false} ItoaIs(n: int)
    ensures Denotes(Itoa(n), n)
    ensures if n < 0 then Itoa(n)[0] == '-' && |Itoa(n)| > 1 && Itoa(n)[1] != '0'
            else IsDigit(Itoa(n)[0]) && (Itoa(n)[0] == '0' ==> n == 0 && |Itoa(n)| == 1)
  {
    var m: nat := if n < 0 then -n else n;
    assert Zeros(0) + Decimal(m) == Decimal(m);
    assert DenotesWith(Itoa(n), n, if n < 0 then "-" else "", 0);
    NoLeadingZero(m);
  }

  lemma {:induction false} NoLeadingZero(n: nat)
    ensures Decimal(n)[0] == '0' ==> n == 0 && |Decimal(n)| == 1
  {
    if n >= 10 { NoLeadingZero(n / 10); }
  }

  // ----- finding characters

  /** The first position of c in s, or |s|. */
  function First(s: string, c: char): (i: nat)
    ensures i <= |s| && c !in s[..i]
    ensures i < |s| ==> s[i] == c
  {
    if s == [] || s[0] == c then 0 else 1 + First(s[1..], c)
  }

  /** The last position of c in s, if any. */
  function Last(s: string, c: char): (i: Option<nat>)
    ensures i.None? ==> c !in s
    ensures i.Some? ==> i.value < |s| && s[i.value] == c && c !in s[i.value + 1..]
  {
    if s == [] then None
    else if s[|s| - 1] == c then Some(|s| - 1)
    else
      var i := Last(s[..|s| - 1], c);
      assert s == s[..|s| - 1] + [s[|s| - 1]];
      assert i.Some? ==> s[i.value + 1..] == s[..|s| - 1][i.value + 1..] + [s[|s| - 1]];
      i
  }

  lemma {:induction false} FirstIs(a: string, c: char, b: string)
    requires c !in a
    ensures First(a + [c] + b, c) == |a|
  {
    if a == [] {
      assert a + [c] + b == [c] + b;
    } else {
      assert (a + [c] + b)[1..] == a[1..] + [c] + b;
      FirstIs(a[1..], c, b);
    }
  }

  lemma {:induction false} LastIs(a: string, c: char, b: string)
    requires c !in b
    ensures Last(a + [c] + b, c) == Some(|a|)
  {
    var s := a + [c] + b;
    if b == [] {
      assert s == a + [c];
    } else {
      var n := |b| - 1;
      assert s[..|s| - 1] == a + [c] + b[..n];
      assert s[|s| - 1] == b[n] != c;
      LastIs(a, c, b[..n]);
    }
  }

  // ----- host and port

  /** Why an address does not split is not looked at. */
  datatype Split = Parts(host: string, port: string) | Bad

  function NoStrayBrackets(s: string, j: nat, k: nat, host: string, port: string): Split
    requires j <= |s| && k <= |s|
  {
    if '[' in s[j..] then Bad
    else if ']' in s[k..] then Bad
    else Parts(host, port)
  }

  /** net.SplitHostPort. */
  function SplitHostPort(s: string): Split {
    var last := Last(s, ':');
    if last.None? then Bad
    else
      var i := last.value;
      if s[0] == '[' then
        var end := First(s, ']');
        if end == |s| then Bad
        else if end + 1 == |s| then Bad
        else if end + 1 == i then NoStrayBrackets(s, 1, end + 1, s[1..end], s[i + 1..])
        else if s[end + 1] == ':' then Bad
        else Bad
      else if ':' in s[..i] then Bad
      else NoStrayBrackets(s, 0, 0, s[..i], s[i + 1..])
  }

  /** net.JoinHostPort. */
  function JoinHostPort(host: string, port: string): string {
    if ':' in host then "[" + host + "]:" + port else host + ":" + port
  }

  /** splitTargetHostPort: the embedded port wins when it is a positive number. */
  function SplitTarget(target: string, defaultPort: int): (string, int) {
    match SplitHostPort(target)
    case Parts(h, p) =>
      var n := Atoi(p);
      (h, if n.Some? && n.value > 0 then n.value else defaultPort)
    case Bad => (target, defaultPort)
  }

  /** The address that is dialled. */
  function Address(target: string, defaultPort: int): string {
    var (host, port) := SplitTarget(target, defaultPort);
    JoinHostPort(host, Itoa(port))
  }

  predicate BracketFree(s: string) {
    '[' !in s && ']' !in s
  }

  predicate PlainPort(p: string) {
    ':' !in p && BracketFree(p)
  }

  lemma PlainItoa(n: int)
    ensures PlainPort(Itoa(n))
  {
    var d := Decimal(if n < 0 then -n else n);
    assert forall k | 0 <= k < |d| :: IsDigit(d[k]);
  }

  // ----- splitting what was joined

  lemma SplitPlain(host: string, port: string)
    requires BracketFree(host) && ':' !in host && PlainPort(port)
    ensures SplitHostPort(host + ":" + port) == Parts(host, port)
  {
    hide First, Last;
    var s := host + ":" + port;
    LastIs(host, ':', port);
    assert s[..|host|] == host && s[|host| + 1..] == port;
    assert s[0..] == s;
    assert BracketFree(s);
    assert s[0] in s;
  }

  lemma SplitBracketed(host: string, port: string)
    requires BracketFree(host) && PlainPort(port)
    ensures SplitHostPort("[" + host + "]:" + port) == Parts(host, port)
  {
    hide First, Last;
    var s := "[" + host + "]:" + port;
    var n := |host|;
    assert s == ("[" + host + "]") + [':'] + port;
    LastIs("[" + host + "]", ':', port);
    assert s == ("[" + host) + [']'] + (":" + port);
    FirstIs("[" + host, ']', ":" + port);
    BracketedSlices(host, port);
  }

  lemma BracketedSlices(host: string, port: string)
    ensures var s, n := "[" + host + "]:" + port, |host|;
            && s[0] == '['
            && s[1..n + 1] == host
            && s[n + 3..] == port
            && s[1..] == host + "]:" + port
            && s[n + 2..] == ":" + port
  {
    var s, n := "[" + host + "]:" + port, |host|;
    assert s == ("[" + host) + ("]:" + port);
    assert ("[" + host)[1..] == host;
    assert s[1..n + 1] == ("[" + host)[1..];
    assert s[n + 2..] == ":" + port;
  }

  /** What splits, and into what: exactly a bracketed host without brackets inside, or a plain one
      without colons, then a colon, and a port without colons or brackets. */
  lemma SplitIff(s: string, host: string, port: string)
    ensures SplitHostPort(s) == Parts(host, port)
       <==> && BracketFree(host) && PlainPort(port)
            && (s == "[" + host + "]:" + port || (':' !in host && s == host + ":" + port))
  {
    if SplitHostPort(s) == Parts(host, port) {
      SplitsLikeThis(s);
    }
    if BracketFree(host) && PlainPort(port) {
      SplitBracketed(host, port);
      if ':' !in host { SplitPlain(host, port); }
    }
  }

  lemma SplitsLikeThis(s: string)
    requires SplitHostPort(s).Parts?
    ensures var (host, port) := (SplitHostPort(s).host, SplitHostPort(s).port);
            && BracketFree(host) && PlainPort(port)
            && (s == "[" + host + "]:" + port || (':' !in host && s == host + ":" + port))
  {
    hide First, Last;
    SplitHostIsBracketFree(s);
    var i := Last(s, ':').value;
    if s[0] == '[' {
      Unbracket(s, First(s, ']'));
      NoneInTail(s, 1, i + 1);
      NoneInTail(s, i, i + 1);
    } else {
      SplitAround(s, i);
      assert s[0..] == s;
      NoneInTail(s, 0, i + 1);
    }
  }

  lemma Unbracket(s: string, end: nat)
    requires 0 < end && end + 1 < |s| && s[0] == '[' && s[end] == ']' && s[end + 1] == ':'
    ensures s == "[" + s[1..end] + "]:" + s[end + 2..]
  {
  }

  lemma SplitAround(s: string, i: nat)
    requires i < |s| && s[i] == ':'
    ensures s == s[..i] + ":" + s[i + 1..]
  {
  }

  /** The port has no bracket that the part of the address before it was not to have. */
  lemma NoneInTail(s: string, k: nat, j: nat)
    requires k <= j <= |s|
    ensures '[' !in s[k..] ==> '[' !in s[j..]
    ensures ']' !in s[k..] ==> ']' !in s[j..]
  {
    assert s[k..] == s[k..j] + s[j..];
  }

  /** What is dialled: only hosts with a colon are bracketed. */
  lemma AddressIs(target: string, defaultPort: int)
    ensures var (host, port) := SplitTarget(target, defaultPort);
            Address(target, defaultPort) == (if ':' in host then "[" + host + "]" else host) + ":" + Itoa(port)
  {
    var (host, port) := SplitTarget(target, defaultPort);
    assert ("[" + host + "]") + ":" + Itoa(port) == "[" + host + "]:" + Itoa(port);
  }

  /** Which port counts: that of the target, if it splits and the port is a decimal form of a positive
      64-bit integer; otherwise the default. */
  lemma PortChoice(host: string, port: string, defaultPort: int)
    requires BracketFree(host) && PlainPort(port)
    ensures forall n | 0 < n <= MAX_INT && Denotes(port, n) ::
              SplitTarget(JoinHostPort(host, port), defaultPort) == (host, n)
    ensures (forall n | 0 < n <= MAX_INT :: !Denotes(port, n)) ==>
              SplitTarget(JoinHostPort(host, port), defaultPort) == (host, defaultPort)
  {
    hide SplitHostPort, JoinHostPort, Atoi, Denotes;
    SplitOfJoin(host, port);
    forall n | 0 < n <= MAX_INT && Denotes(port, n)
      ensures SplitTarget(JoinHostPort(host, port), defaultPort) == (host, n)
    {
      AtoiIff(port, n);
    }
    if Atoi(port).Some? {
      AtoiIff(port, Atoi(port).value);
    }
  }

  /** A target that does not split is the host as it stands. */
  lemma UnsplitStays(target: string, defaultPort: int)
    requires forall host, port | BracketFree(host) && PlainPort(port) ::
               target != "[" + host + "]:" + port && (':' !in host ==> target != host + ":" + port)
    ensures SplitTarget(target, defaultPort) == (target, defaultPort)
  {
    hide SplitHostPort;
    if SplitHostPort(target).Parts? {
      SplitsLikeThis(target);
      assert false;
    }
  }

  /** Round trip: splitting a joined address gives the host and the port back. */
  lemma SplitOfJoin(host: string, port: string)
    requires BracketFree(host) && PlainPort(port)
    ensures SplitHostPort(JoinHostPort(host, port)) == Parts(host, port)
  {
    if ':' in host {
      SplitBracketed(host, port);
    } else {
      SplitPlain(host, port);
    }
  }

  /** For every bracket-free host, bare IPv6 literals included, and every positive port, the
      normaliser recovers both from the dialled address, whatever its default. */
  lemma TargetRoundTrip(host: string, port: int, defaultPort: int)
    requires BracketFree(host) && 0 < port <= MAX_INT
    ensures SplitTarget(JoinHostPort(host, Itoa(port)), defaultPort) == (host, port)
  {
    PlainItoa(port);
    SplitOfJoin(host, Itoa(port));
    AtoiItoa(port);
  }

  /** The same for the default port itself, even one that is not positive. */
  lemma DefaultRoundTrip(host: string, defaultPort: int)
    requires BracketFree(host) && MIN_INT <= defaultPort <= MAX_INT
    ensures SplitTarget(JoinHostPort(host, Itoa(defaultPort)), defaultPort) == (host, defaultPort)
  {
    PlainItoa(defaultPort);
    SplitOfJoin(host, Itoa(defaultPort));
    AtoiItoa(defaultPort);
  }

  // ----- normalising twice

  /** Whatever splits, splits into a bracket-free host. */
  lemma SplitHostIsBracketFree(s: string)
    requires SplitHostPort(s).Parts?
    ensures BracketFree(SplitHostPort(s).host)
  {
    var i := Last(s, ':').value;
    if s[0] == '[' {
      var end := First(s, ']');
      assert s[1..end] == s[..end][1..];
      assert forall c | c in s[1..end] :: c in s[1..] by {
        assert s[1..] == s[1..end] + s[end..];
      }
    } else {
      assert s[0..] == s;
      assert forall c | c in s[..i] :: c in s by {
        assert s == s[..i] + s[i..];
      }
    }
  }

  lemma PortInRange(target: string, defaultPort: int)
    requires MIN_INT <= defaultPort <= MAX_INT
    ensures var p := SplitTarget(target, defaultPort).1;
            MIN_INT <= p <= MAX_INT && (p > 0 || p == defaultPort)
  {
  }

  /** The targets that the normaliser can take apart, or does not need to. */
  predicate Normalisable(target: string) {
    BracketFree(target) || SplitHostPort(target).Parts?
  }

  /** Normalising an address again changes nothing exactly when the target was bracket-free or
      split; in particular a bracketed literal without a port is not normalised. */
  lemma IdempotentIff(target: string, defaultPort: int)
    requires MIN_INT <= defaultPort <= MAX_INT
    ensures Address(Address(target, defaultPort), defaultPort) == Address(target, defaultPort)
       <==> Normalisable(target)
  {
    if Normalisable(target) {
      NormalisedIsFixed(target, defaultPort);
    } else {
      BracketsPileUp(target, defaultPort);
    }
  }

  /** A bracketed literal without a port is such a target, whatever is inside the brackets. */
  lemma BracketedLiteralStays(host: string, defaultPort: int)
    requires BracketFree(host) && MIN_INT <= defaultPort <= MAX_INT
    ensures SplitTarget("[" + host + "]", defaultPort) == ("[" + host + "]", defaultPort)
    ensures !Normalisable("[" + host + "]")
  {
    var s := "[" + host + "]";
    assert s == ("[" + host) + [']'] + "";
    FirstIs("[" + host, ']', "");
    assert s[0] == '[';
  }

  lemma NormalisedIsFixed(target: string, defaultPort: int)
    requires MIN_INT <= defaultPort <= MAX_INT && Normalisable(target)
    ensures Address(Address(target, defaultPort), defaultPort) == Address(target, defaultPort)
  {
    var (host, port) := SplitTarget(target, defaultPort);
    if SplitHostPort(target).Parts? {
      SplitHostIsBracketFree(target);
    }
    PortInRange(target, defaultPort);
    if port > 0 {
      TargetRoundTrip(host, port, defaultPort);
    } else {
      DefaultRoundTrip(host, defaultPort);
    }
  }

  /** A target with brackets that does not split keeps them, and every further round adds more. */
  lemma BracketsPileUp(target: string, defaultPort: int)
    requires !Normalisable(target)
    ensures Address(Address(target, defaultPort), defaultPort) != Address(target, defaultPort)
  {
    var port := Itoa(defaultPort);
    var a := JoinHostPort(target, port);
    assert Address(target, defaultPort) == a;
    if SplitHostPort(a).Parts? {
      SplitHostIsBracketFree(a);
      var host := SplitHostPort(a).host;
      var (h, p) := SplitTarget(a, defaultPort);
      PlainItoa(p);
      PlainItoa(defaultPort);
      JoinTellsHost(h, Itoa(p), target, port);
    } else {
      assert ':' in a;
      assert |JoinHostPort(a, port)| > |a|;
    }
  }

  /** The host as it stands in a joined address. */
  function Wrapped(host: string): string {
    if ':' in host then "[" + host + "]" else host
  }

  lemma WrappedIsInjective(g: string, h: string)
    requires Wrapped(g) == Wrapped(h)
    ensures g == h
  {
    assert ':' in g <==> ':' in Wrapped(g);
    assert ':' in h <==> ':' in Wrapped(h);
    if ':' in g {
      assert g == Wrapped(g)[1..|Wrapped(g)| - 1];
      assert h == Wrapped(h)[1..|Wrapped(h)| - 1];
    }
  }

  /** A joined address tells its host, when the ports are numbers. */
  lemma JoinTellsHost(g: string, p: string, h: string, q: string)
    requires PlainPort(p) && PlainPort(q)
    ensures JoinHostPort(g, p) == JoinHostPort(h, q) ==> g == h
  {
    LastOfJoin(g, p);
    LastOfJoin(h, q);
    if JoinHostPort(g, p) == JoinHostPort(h, q) {
      assert Wrapped(g) == JoinHostPort(g, p)[..|Wrapped(g)|];
      assert Wrapped(h) == JoinHostPort(h, q)[..|Wrapped(h)|];
      WrappedIsInjective(g, h);
    }
  }

  lemma LastOfJoin(h: string, p: string)
    requires ':' !in p
    ensures JoinHostPort(h, p) == Wrapped(h) + [':'] + p
    ensures Last(JoinHostPort(h, p), ':') == Some(|Wrapped(h)|)
  {
    assert JoinHostPort(h, p) == Wrapped(h) + [':'] + p;
    LastIs(Wrapped(h), ':', p);
  }
}
