/**
 Snapshot mode (`runSnapshot`): the checks run in parallel, each into its own slot; the slots are
 then sorted in place, failures first and by name, and counted.
 */
module Snapshot {

  datatype Row = Row(check: string, kind: string, target: string, success: bool, detail: string)

  predicate LexLess(a: string, b: string) {
    b != [] && (a == [] || a[0] < b[0] || (a[0] == b[0] && LexLess(a[1..], b[1..])))
  }

  /** The strings agree up to k, where a has the smaller character. */
  predicate SmallerAt(a: string, b: string, k: nat) {
    k < |a| && k < |b| && a[..k] == b[..k] && a[k] < b[k]
  }

  /** The order of strings: a is a proper beginning of b, or has the smaller character where they
      first differ. */
  lemma {:induction false} LexLessIff(a: string, b: string)
    ensures LexLess(a, b) <==> a < b || exists k :: SmallerAt(a, b, k)
    decreases |a|
  {
    if a != [] && b != [] && a[0] == b[0] {
      LexLessIff(a[1..], b[1..]);
      assert a == [a[0]] + a[1..] && b == [b[0]] + b[1..];
      forall k: nat | SmallerAt(a[1..], b[1..], k) ensures SmallerAt(a, b, k + 1) {
        assert a[..k + 1] == [a[0]] + a[1..][..k] && b[..k + 1] == [b[0]] + b[1..][..k];
      }
      forall k: nat | SmallerAt(a, b, k) ensures k > 0 && SmallerAt(a[1..], b[1..], k - 1) {
        assert a[1..][..k - 1] == a[..k][1..] && b[1..][..k - 1] == b[..k][1..];
      }
    } else if a != [] && b != [] {
      forall k: nat | SmallerAt(a, b, k) ensures k == 0 {
      }
      assert a[0] < b[0] ==> SmallerAt(a, b, 0);
    }
  }

  /** The comparison handed to the stable sort. */
  predicate Less(a: Row, b: Row) {
    if a.success != b.success then !a.success else LexLess(a.check, b.check)
  }

  lemma {:induction false} LexTotal(a: string, b: string)
    ensures LexLess(a, b) || LexLess(b, a) || a == b
    ensures !(LexLess(a, b) && LexLess(b, a))
  {
    if a != [] && b != [] {
      LexTotal(a[1..], b[1..]);
      assert a == [a[0]] + a[1..] && b == [b[0]] + b[1..];
    }
  }

  lemma {:induction false} LexTransitive(a: string, b: string, c: string)
    requires LexLess(a, b) && LexLess(b, c)
    ensures LexLess(a, c)
  {
    if a != [] && a[0] == b[0] == c[0] {
      LexTransitive(a[1..], b[1..], c[1..]);
    }
  }

  /** Less is a strict weak order. */
  lemma LessAsymmetric(a: Row, b: Row)
    ensures !(Less(a, b) && Less(b, a))
  {
    LexTotal(a.check, b.check);
  }

  lemma LessSkips(x: Row, e: Row, s: Row)
    requires Less(x, e) && !Less(s, e)
    ensures Less(x, s)
  {
    LexTotal(s.check, e.check);
    if x.success == e.success == s.success && s.check != e.check {
      LexTransitive(x.check, e.check, s.check);
    }
  }

  // ----- what the table must be

  function Pick(rows: seq<Row>, perm: seq<nat>): seq<Row>
    requires forall k | 0 <= k < |perm| :: perm[k] < |rows|
  {
    seq(|perm|, k requires 0 <= k < |perm| => rows[perm[k]])
  }

  /** Row i belongs before row j: it is less, or neither is less and it came first. */
  predicate Before(rows: seq<Row>, i: nat, j: nat)
    requires i < |rows| && j < |rows|
  {
    Less(rows[i], rows[j]) || (!Less(rows[j], rows[i]) && i < j)
  }

  /** perm lists the first n rows, each once, in their order. */
  ghost predicate Arranges(rows: seq<Row>, n: nat, perm: seq<nat>)
    requires n <= |rows|
  {
    && |perm| == n
    && (forall k | 0 <= k < n :: perm[k] < n)
    && (forall i | 0 <= i < n :: i in perm)
    && (forall j, k | 0 <= j < k < n :: Before(rows, perm[j], perm[k]))
  }

  /** There is only one such arrangement: whatever stable algorithm sorts, the table is the same. */
  lemma StableOrderIsUnique(rows: seq<Row>, p: seq<nat>, q: seq<nat>)
    requires Arranges(rows, |rows|, p) && Arranges(rows, |rows|, q)
    ensures p == q
  {
    SamePrefix(rows, p, q, |rows|);
    assert p[..|rows|] == p && q[..|rows|] == q;
  }

  lemma {:induction false} SamePrefix(rows: seq<Row>, p: seq<nat>, q: seq<nat>, n: nat)
    requires Arranges(rows, |rows|, p) && Arranges(rows, |rows|, q) && n <= |rows|
    ensures p[..n] == q[..n]
  {
    if n > 0 {
      var k := n - 1;
      SamePrefix(rows, p, q, k);
      if p[k] != q[k] {
        ComesLater(rows, p, q, k);
        ComesLater(rows, q, p, k);
        LessAsymmetric(rows[p[k]], rows[q[k]]);
        assert false;
      }
    }
  }

  lemma ComesLater(rows: seq<Row>, p: seq<nat>, q: seq<nat>, k: nat)
    requires Arranges(rows, |rows|, p) && Arranges(rows, |rows|, q)
    requires k < |rows| && p[..k] == q[..k] && p[k] != q[k]
    ensures Before(rows, q[k], p[k])
  {
    assert p[k] in q;
    var m :| 0 <= m < |q| && q[m] == p[k];
    if m < k {
      assert p[..k][m] == q[..k][m];
      assert Before(rows, p[m], p[k]);
      LessAsymmetric(rows[p[k]], rows[p[k]]);
    }
  }

  // ----- insertion

  /** Where insertion from the right puts row x among rows already in order. */
  function Insert(rows: seq<Row>, s: seq<nat>, x: nat): (r: seq<nat>)
    requires x < |rows| && forall k | 0 <= k < |s| :: s[k] < |rows|
    ensures |r| == |s| + 1
    ensures forall k | 0 <= k < |r| :: r[k] < |rows|
  {
    if s == [] || !Less(rows[x], rows[s[|s| - 1]]) then s + [x]
    else Insert(rows, s[..|s| - 1], x) + [s[|s| - 1]]
  }

  function Sorted(rows: seq<Row>, n: nat): (r: seq<nat>)
    requires n <= |rows|
    ensures |r| == n
    ensures forall k | 0 <= k < |r| :: r[k] < |rows|
  {
    if n == 0 then [] else Insert(rows, Sorted(rows, n - 1), n - 1)
  }

  /** Insertion keeps what it has, adds x, and puts x after a part that is not greater. */
  lemma {:induction false} InsertSplits(rows: seq<Row>, s: seq<nat>, x: nat) returns (p: nat)
    requires x < |rows| && forall k | 0 <= k < |s| :: s[k] < |rows|
    ensures p <= |s| && Insert(rows, s, x) == s[..p] + [x] + s[p..]
    ensures p > 0 ==> !Less(rows[x], rows[s[p - 1]])
    ensures forall k | p <= k < |s| :: Less(rows[x], rows[s[k]])
    decreases |s|
  {
    if s == [] || !Less(rows[x], rows[s[|s| - 1]]) {
      p := |s|;
      assert s[..p] == s && s[p..] == [];
    } else {
      var n := |s| - 1;
      p := InsertSplits(rows, s[..n], x);
      assert s[..n][..p] == s[..p] && s[..n][p..] + [s[n]] == s[p..];
      forall k | p <= k < |s| ensures Less(rows[x], rows[s[k]]) {
        if k < n { assert s[..n][k] == s[k]; }
      }
    }
  }

  lemma {:induction false} SortedArranges(rows: seq<Row>, n: nat)
    requires n <= |rows|
    ensures Arranges(rows, n, Sorted(rows, n))
  {
    hide Arranges, Less, Before, Insert, Sorted;
    if n == 0 {
      NothingArranged(rows);
    } else {
      SortedArranges(rows, n - 1);
      SortedSteps(rows, n - 1);
      var s := Sorted(rows, n - 1);
      var p := InsertSplits(rows, s, n - 1);
      InsertArranges(rows, n - 1, s, p);
    }
  }

  lemma NothingArranged(rows: seq<Row>)
    ensures Arranges(rows, 0, Sorted(rows, 0))
  {
  }

  lemma SortedSteps(rows: seq<Row>, i: nat)
    requires i < |rows|
    ensures Sorted(rows, i + 1) == Insert(rows, Sorted(rows, i), i)
  {
  }

  lemma InsertArranges(rows: seq<Row>, n: nat, s: seq<nat>, p: nat)
    requires n < |rows| && Arranges(rows, n, s) && p <= n
    requires p > 0 ==> !Less(rows[n], rows[s[p - 1]])
    requires forall k | p <= k < n :: Less(rows[n], rows[s[k]])
    ensures Arranges(rows, n + 1, s[..p] + [n] + s[p..])
  {
    var r := s[..p] + [n] + s[p..];
    forall k | 0 <= k < p ensures Before(rows, s[k], n) {
      if k < p - 1 {
        assert Before(rows, s[k], s[p - 1]);
        NotLessBefore(rows, n, s[k], s[p - 1]);
      }
    }
    forall i | 0 <= i < n + 1 ensures i in r {
      if i < n {
        assert i in s;
        assert s == s[..p] + s[p..];
      }
    }
    forall j, k | 0 <= j < k < n + 1 ensures Before(rows, r[j], r[k]) {
      var j' := if j < p then j else j - 1;
      var k' := if k < p then k else k - 1;
      if j != p && k != p { assert Before(rows, s[j'], s[k']); }
    }
  }

  lemma NotLessBefore(rows: seq<Row>, x: nat, e: nat, s: nat)
    requires x < |rows| && e < |rows| && s < |rows|
    requires Before(rows, e, s) && !Less(rows[x], rows[s])
    ensures !Less(rows[x], rows[e])
  {
    if Less(rows[x], rows[e]) {
      LessAsymmetric(rows[e], rows[s]);
      LessSkips(rows[x], rows[e], rows[s]);
    }
  }

  /** The finished table: the stable, failures-first, name-ordered arrangement of the slots. */
  function Table(rows: seq<Row>): seq<Row> {
    Pick(rows, Sorted(rows, |rows|))
  }

  /** The table is an arrangement of the slots with every failure above every success, and names
      rising on either side. */
  lemma TableIsOrdered(rows: seq<Row>)
    ensures Arranges(rows, |rows|, Sorted(rows, |rows|))
    ensures var t := Table(rows);
            forall j, k | 0 <= j < k < |t| ::
              && (t[j].success ==> t[k].success)
              && (t[j].success == t[k].success ==> !LexLess(t[k].check, t[j].check))
  {
    SortedArranges(rows, |rows|);
    var p := Sorted(rows, |rows|);
    forall j, k | 0 <= j < k < |p| ensures !Less(rows[p[k]], rows[p[j]]) {
      assert Before(rows, p[j], p[k]);
      LessAsymmetric(rows[p[j]], rows[p[k]]);
    }
  }

  // ----- the code

  /** Every goroutine finishes, and each writes its own slot once; `order` is the order in which
      they happen to do so. */
  ghost predicate Schedule(order: seq<nat>, n: nat) {
    && (forall k | 0 <= k < |order| :: order[k] < n)
    && (forall j, k | 0 <= j < k < |order| :: order[j] != order[k])
    && (forall i | 0 <= i < n :: i in order)
  }

  const EMPTY := Row("", "", "", false, "")

  method FanOut(outcomes: seq<Row>, order: seq<nat>) returns (results: array<Row>)
    requires Schedule(order, |outcomes|)
    ensures fresh(results) && results[..] == outcomes
  {
    results := new Row[|outcomes|](_ => EMPTY);
    for k := 0 to |order|
      invariant forall i | 0 <= i < |outcomes| ::
                  results[i] == if i in order[..k] then outcomes[i] else EMPTY
    {
      assert order[..k + 1] == order[..k] + [order[k]];
      results[order[k]] := outcomes[order[k]];
    }
    assert order[..|order|] == order;
  }

  /** The in-place stable sort: each row in turn is moved left past the rows it is less than. */
  method SortStable(a: array<Row>)
    modifies a
    ensures a[..] == Table(old(a[..]))
  {
    hide Pick, Sorted, Less;
    ghost var rows := a[..];
    NothingSorted(rows);
    for i := 0 to a.Length
      invariant a[..] == Pick(rows, Sorted(rows, i)) + rows[i..]
    {
      MoveLeft(a, i, rows);
    }
    assert rows[|rows|..] == [];
    assert a[..] == Table(rows) + [] == Table(rows);
  }

  lemma NothingSorted(rows: seq<Row>)
    ensures Pick(rows, Sorted(rows, 0)) + rows[0..] == rows
  {
  }

  method MoveLeft(a: array<Row>, i: nat, ghost rows: seq<Row>)
    requires i < a.Length == |rows|
    requires a[..] == Pick(rows, Sorted(rows, i)) + rows[i..]
    modifies a
    ensures a[..] == Pick(rows, Sorted(rows, i + 1)) + rows[i + 1..]
  {
    hide Pick, Less, Shifted, Sorted;
    ghost var s := Sorted(rows, i);
    ghost var p := InsertSplits(rows, s, i);
    ShiftNone(rows, s, i);
    ShiftAt(rows, s, i, i);
    var j := i;
    while j > 0 && Less(a[j], a[j - 1])
      invariant p <= j <= i
      invariant a[..] == Shifted(rows, s, i, j)
      invariant a[j] == rows[i] && (j > 0 ==> a[j - 1] == rows[s[j - 1]])
    {
      ShiftMore(rows, s, i, j);
      ShiftAt(rows, s, i, j - 1);
      Swap(a, j);
      j := j - 1;
      assert a[j] == a[..][j];
      assert j > 0 ==> a[j - 1] == a[..][j - 1];
    }
    SortedSteps(rows, i);
    ShiftDone(rows, s, i, p);
  }

  method Swap(a: array<Row>, j: nat)
    requires 0 < j < a.Length
    modifies a
    ensures a[..] == old(a[..])[j := old(a[j - 1])][j - 1 := old(a[j])]
  {
    a[j], a[j - 1] := a[j - 1], a[j];
  }

  /** The array while row i is on its way left and stands at j. */
  function Shifted(rows: seq<Row>, s: seq<nat>, i: nat, j: nat): seq<Row>
    requires j <= i == |s| && i < |rows| && forall k | 0 <= k < |s| :: s[k] < |rows|
  {
    Pick(rows, s[..j]) + [rows[i]] + Pick(rows, s[j..]) + rows[i + 1..]
  }

  lemma ShiftNone(rows: seq<Row>, s: seq<nat>, i: nat)
    requires i == |s| < |rows| && forall k | 0 <= k < |s| :: s[k] < |rows|
    ensures Shifted(rows, s, i, i) == Pick(rows, s) + rows[i..]
  {
    assert s[..i] == s && s[i..] == [];
  }

  lemma ShiftAt(rows: seq<Row>, s: seq<nat>, i: nat, j: nat)
    requires j <= i == |s| && i < |rows| && forall k | 0 <= k < |s| :: s[k] < |rows|
    ensures |Shifted(rows, s, i, j)| == |rows|
    ensures Shifted(rows, s, i, j)[j] == rows[i]
    ensures j > 0 ==> Shifted(rows, s, i, j)[j - 1] == rows[s[j - 1]]
  {
  }

  lemma ShiftMore(rows: seq<Row>, s: seq<nat>, i: nat, j: nat)
    requires 0 < j <= i == |s| && i < |rows| && forall k | 0 <= k < |s| :: s[k] < |rows|
    ensures |Shifted(rows, s, i, j)| == |rows|
    ensures Shifted(rows, s, i, j)[j := rows[s[j - 1]]][j - 1 := rows[i]] == Shifted(rows, s, i, j - 1)
  {
    assert Pick(rows, s[..j]) == Pick(rows, s[..j - 1]) + [rows[s[j - 1]]];
    assert Pick(rows, s[j - 1..]) == [rows[s[j - 1]]] + Pick(rows, s[j..]);
  }

  lemma ShiftDone(rows: seq<Row>, s: seq<nat>, i: nat, p: nat)
    requires p <= i == |s| && i < |rows| && forall k | 0 <= k < |s| :: s[k] < |rows|
    requires s == Sorted(rows, i) && Insert(rows, s, i) == s[..p] + [i] + s[p..]
    ensures Shifted(rows, s, i, p) == Pick(rows, Sorted(rows, i + 1)) + rows[i + 1..]
  {
    var r := s[..p] + [i] + s[p..];
    assert Pick(rows, r) == Pick(rows, s[..p]) + [rows[i]] + Pick(rows, s[p..]);
  }

  function Failures(rows: seq<Row>): nat {
    if rows == [] then 0
    else Failures(rows[..|rows| - 1]) + if rows[|rows| - 1].success then 0 else 1
  }

  lemma {:induction false} NoFailures(rows: seq<Row>)
    ensures Failures(rows) <= |rows|
    ensures Failures(rows) == 0 <==> forall k | 0 <= k < |rows| :: rows[k].success
  {
    if rows != [] {
      var n := |rows| - 1;
      NoFailures(rows[..n]);
      assert rows == rows[..n] + [rows[n]];
    }
  }

  /** The slots that hold a failure. */
  function FailedAt(rows: seq<Row>): set<nat> {
    set k: nat | k < |rows| && !rows[k].success
  }

  lemma {:induction false} FailuresCount(rows: seq<Row>)
    ensures Failures(rows) == |FailedAt(rows)|
  {
    if rows != [] {
      var n := |rows| - 1;
      FailuresCount(rows[..n]);
      if rows[n].success {
        assert FailedAt(rows) == FailedAt(rows[..n]);
      } else {
        assert FailedAt(rows) == FailedAt(rows[..n]) + {n};
      }
    }
  }

  lemma {:induction false} SameSize(p: seq<nat>, a: set<nat>, b: set<nat>)
    requires forall k | k in a :: k < |p| && p[k] in b
    requires forall j, k | j in a && k in a && j != k :: p[j] != p[k]
    requires forall i | i in b :: exists k :: k in a && p[k] == i
    ensures |a| == |b|
    decreases |a|
  {
    if k :| k in a {
      SameSize(p, a - {k}, b - {p[k]});
    } else {
      assert b == {};
    }
  }

  /** Sorting moves the failures about and keeps their number. */
  lemma FailuresOfTable(rows: seq<Row>)
    ensures Failures(Table(rows)) == |set k: nat | k < |rows| && !rows[k].success|
  {
    hide Less, Sorted, Failures;
    FailuresCount(Table(rows));
    SortedArranges(rows, |rows|);
    var p := Sorted(rows, |rows|);
    forall j, k | 0 <= j < k < |p| ensures p[j] != p[k] {
      assert Before(rows, p[j], p[k]);
      LessAsymmetric(rows[p[j]], rows[p[j]]);
    }
    forall i | i in FailedAt(rows) ensures exists k :: k in FailedAt(Table(rows)) && p[k] == i {
      assert i in p;
      var k :| 0 <= k < |p| && p[k] == i;
      assert k in FailedAt(Table(rows));
    }
    SameSize(p, FailedAt(Table(rows)), FailedAt(rows));
  }

  /** The whole run: in whatever order the checks complete, the table, the counts and the exit code
      are functions of their outcomes alone; the count of failures is that of the checks that failed,
      and the exit code is 0 exactly when all passed. */
  method RunSnapshot(outcomes: seq<Row>, order: seq<nat>)
    returns (table: seq<Row>, passed: nat, failed: nat, exitCode: int)
    requires Schedule(order, |outcomes|)
    ensures table == Table(outcomes)
    ensures failed == |set k: nat | k < |outcomes| && !outcomes[k].success| && passed + failed == |outcomes|
    ensures exitCode == 0 <==> forall k | 0 <= k < |outcomes| :: outcomes[k].success
    ensures exitCode == 0 || exitCode == 1
  {
    var results := FanOut(outcomes, order);
    SortStable(results);
    table := results[..];
    failed := 0;
    for k := 0 to results.Length
      invariant failed == Failures(table[..k]) <= k
    {
      assert table[..k + 1][..k] == table[..k];
      if !results[k].success {
        failed := failed + 1;
      }
    }
    assert table[..|table|] == table;
    passed := results.Length - failed;
    exitCode := if failed == 0 then 0 else 1;
    NoFailures(table);
    SameSuccesses(outcomes);
    FailuresOfTable(outcomes);
  }

  lemma SameSuccesses(rows: seq<Row>)
    ensures (forall k | 0 <= k < |rows| :: rows[k].success)
       <==> (forall k | 0 <= k < |Table(rows)| :: Table(rows)[k].success)
  {
    SortedArranges(rows, |rows|);
    var p := Sorted(rows, |rows|);
    forall i | 0 <= i < |rows| ensures exists k :: 0 <= k < |p| && Table(rows)[k] == rows[i] {
      assert i in p;
      var k :| 0 <= k < |p| && p[k] == i;
      assert Table(rows)[k] == rows[i];
    }
  }
}
