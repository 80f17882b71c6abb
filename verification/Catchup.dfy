/** The ledger ranges that parallel catchup jobs replay. */
module Catchup {
  import opened Text
  import opened Thresholds

  /** The job "last/count": replay count ledgers, the last of them being last. */
  datatype Range = Range(last: int, count: int)

  predicate Replays(r: Range, ledger: int) { r.last - r.count < ledger <= r.last }

  /** The ranges that end at last and every ledgersPerJob before it, above start. */
  function Ranges(ledgersPerJob: int, start: int, last: int, overlap: int): seq<Range>
    requires ledgersPerJob > 0
    decreases last - start
  {
    if last <= start then []
    else Ranges(ledgersPerJob, start, last - ledgersPerJob, overlap) + [Range(last, ledgersPerJob + overlap)]
  }

  function JobText(r: Range): string { IntText(r.last) + "/" + IntText(r.count) }

  function Commands(q: seq<Range>): (r: seq<seq<string>>)
    ensures |r| == |q|
  {
    if q == [] then [] else [["catchup", JobText(q[0])]] + Commands(q[1..])
  }

  /** The loop never ends for a job size of zero or less, so that is refused. */
  method GetCatchupRanges(ledgersPerJob: int, startingLedger: int, latestLedgerNum: int, overlapLedgers: int)
    returns (ranges: seq<seq<string>>)
    requires ledgersPerJob > 0 || latestLedgerNum <= startingLedger
    ensures latestLedgerNum <= startingLedger ==> ranges == []
    ensures ledgersPerJob > 0 ==>
      ranges == Commands(Ranges(ledgersPerJob, startingLedger, latestLedgerNum, overlapLedgers))
  {
    var endRange := latestLedgerNum;
    ghost var made: seq<Range> := [];
    ranges := [];
    while endRange > startingLedger
      invariant ranges == Commands(made)
      invariant ledgersPerJob > 0 ==>
        Ranges(ledgersPerJob, startingLedger, latestLedgerNum, overlapLedgers)
        == Ranges(ledgersPerJob, startingLedger, endRange, overlapLedgers) + made
      invariant latestLedgerNum <= startingLedger ==> ranges == [] && endRange == latestLedgerNum
      decreases endRange - startingLedger
    {
      var range := IntText(endRange) + "/" + IntText(ledgersPerJob + overlapLedgers);
      ranges := [["catchup", range]] + ranges;
      made := [Range(endRange, ledgersPerJob + overlapLedgers)] + made;
      endRange := endRange - ledgersPerJob;
    }
    assert [] + made == made;
  }

  lemma {:induction false} CountGrows(lpj: int, start: int, last: int, overlap: int)
    requires lpj > 0 && last > start
    ensures var n := |Ranges(lpj, start, last, overlap)|; lpj * (n - 1) < last - start <= lpj * n
    decreases last - start
  {
    var n := |Ranges(lpj, start, last, overlap)|;
    if last - lpj > start {
      CountGrows(lpj, start, last - lpj, overlap);
      assert lpj * (n - 1) == lpj * (n - 2) + lpj && lpj * n == lpj * (n - 1) + lpj;
    }
  }

  /** There are as many jobs as it takes to go from start to the last ledger. */
  lemma CountIs(lpj: int, start: int, last: int, overlap: int)
    requires lpj > 0 && last > start
    ensures |Ranges(lpj, start, last, overlap)| == (last - start + lpj - 1) / lpj
  {
    CountGrows(lpj, start, last, overlap);
    Ceiling(last - start, lpj, |Ranges(lpj, start, last, overlap)|);
  }

  lemma Ceiling(a: int, b: int, n: int)
    requires a > 0 && b > 0 && b * (n - 1) < a <= b * n
    ensures (a + b - 1) / b == n
  {
    var q := (a + b - 1) / b;
    DivBounds(a + b - 1, b);
    if q < n { MulMonotone(q + 1, n, b); }
    if q > n { MulMonotone(n + 1, q, b); }
  }

  /** Every range ends one job size after the one before; the last ends at the last ledger. */
  lemma {:induction false} Ascending(lpj: int, start: int, last: int, overlap: int, i: nat)
    requires lpj > 0 && i < |Ranges(lpj, start, last, overlap)|
    ensures var q := Ranges(lpj, start, last, overlap);
      && q[i].count == lpj + overlap
      && q[i].last == if i + 1 < |q| then q[i + 1].last - lpj else last
    decreases last - start
  {
    var q := Ranges(lpj, start, last, overlap);
    if i + 1 < |q| { Ascending(lpj, start, last - lpj, overlap, i); }
  }

  /** The first range ends at most one job size above start. */
  lemma {:induction false} FirstReachesStart(lpj: int, start: int, last: int, overlap: int)
    requires lpj > 0 && last > start
    ensures Ranges(lpj, start, last, overlap) != []
    ensures start < Ranges(lpj, start, last, overlap)[0].last <= start + lpj
    decreases last - start
  {
    if last - lpj > start { FirstReachesStart(lpj, start, last - lpj, overlap); }
  }

  /** Two neighbours have exactly the overlap in common: the last ledgers of the earlier. */
  lemma NeighboursOverlap(lpj: int, start: int, last: int, overlap: nat, i: nat, ledger: int)
    requires lpj > 0 && i + 1 < |Ranges(lpj, start, last, overlap)|
    ensures var q := Ranges(lpj, start, last, overlap);
      Replays(q[i], ledger) && Replays(q[i + 1], ledger) <==> q[i].last - overlap < ledger <= q[i].last
  {
    Ascending(lpj, start, last, overlap, i);
    Ascending(lpj, start, last, overlap, i + 1);
  }

  /** Together the ranges replay an unbroken stretch up to the last ledger that contains
      every ledger after start. */
  lemma {:induction false} Covers(lpj: int, start: int, last: int, overlap: nat, ledger: int)
    requires lpj > 0 && last > start
    ensures var q := Ranges(lpj, start, last, overlap);
      && q != [] && q[0].last - q[0].count <= start
      && ((exists r :: r in q && Replays(r, ledger)) <==> q[0].last - q[0].count < ledger <= last)
    decreases last - start
  {
    var q := Ranges(lpj, start, last, overlap);
    var top := Range(last, lpj + overlap);
    assert q[|q| - 1] == top && top in q;
    FirstReachesStart(lpj, start, last, overlap);
    Ascending(lpj, start, last, overlap, 0);
    if last - lpj > start {
      var rest := Ranges(lpj, start, last - lpj, overlap);
      Covers(lpj, start, last - lpj, overlap, ledger);
      assert q == rest + [top] && q[0] == rest[0];
      assert forall r :: r in q <==> r in rest || r == top;
      assert Replays(top, ledger) ==> exists r :: r in q && Replays(r, ledger);
    } else {
      assert q == [top];
    }
  }

  lemma {:induction false} DecimalHasNoSlash(n: nat)
    ensures '/' !in Decimal(n) && '-' !in Decimal(n)
  {
    if n >= 10 { DecimalHasNoSlash(n / 10); }
  }

  lemma SignOf(i: int)
    ensures IntText(i) != "" && (IntText(i)[0] == '-' <==> i < 0)
  {
    if i >= 0 {
      DecimalHasNoSlash(i);
      assert IntText(i)[0] in Decimal(i);
    }
  }

  lemma IntTextInjective(i: int, j: int)
    requires IntText(i) == IntText(j)
    ensures i == j
  {
    SignOf(i);
    SignOf(j);
    if i < 0 {
      assert IntText(i)[1..] == Decimal(-i) && IntText(j)[1..] == Decimal(-j);
      DecimalValue(-i);
      DecimalValue(-j);
    } else {
      DecimalValue(i);
      DecimalValue(j);
    }
  }

  lemma IntTextHasNoSlash(i: int)
    ensures '/' !in IntText(i)
  {
    DecimalHasNoSlash(if i < 0 then -i else i);
  }

  function BeforeSlash(s: string): nat {
    if s == "" || s[0] == '/' then 0 else 1 + BeforeSlash(s[1..])
  }

  lemma {:induction false} SlashAt(a: string, b: string)
    requires '/' !in a
    ensures BeforeSlash(a + "/" + b) == |a|
  {
    if a != "" {
      SlashAt(a[1..], b);
      assert (a + "/" + b)[1..] == a[1..] + "/" + b;
    }
  }

  lemma SplitAtSlash(a: string, b: string, c: string, d: string)
    requires '/' !in a && '/' !in c && a + "/" + b == c + "/" + d
    ensures a == c && b == d
  {
    SlashAt(a, b);
    SlashAt(c, d);
    var x, y := a + "/" + b, c + "/" + d;
    assert x[..|a|] == a && y[..|c|] == c && x[|a| + 1..] == b && y[|c| + 1..] == d;
  }

  /** A job's text tells its range, so the jobs of one run are distinct texts. */
  lemma JobTextInjective(r: Range, s: Range)
    requires JobText(r) == JobText(s)
    ensures r == s
  {
    IntTextHasNoSlash(r.last);
    IntTextHasNoSlash(s.last);
    SplitAtSlash(IntText(r.last), IntText(r.count), IntText(s.last), IntText(s.count));
    IntTextInjective(r.last, s.last);
    IntTextInjective(r.count, s.count);
  }

  /** The text is the number in decimal digits, after a minus sign if it is negative. */
  predicate Says(s: string, n: int) {
    var digits := if n < 0 && s != "" && s[0] == '-' then s[1..] else s;
    digits != "" && AllDigits(digits) && (if n < 0 then s != digits && Value(digits) == -n else Value(digits) == n)
  }

  lemma IntTextSays(n: int)
    ensures Says(IntText(n), n)
  {
    DecimalValue(if n < 0 then -n else n);
    if n < 0 { assert IntText(n)[1..] == Decimal(-n); }
  }

  /** Before its only slash the text of a job says the last ledger, after it the count. */
  lemma JobTextSays(r: Range) returns (k: nat)
    ensures var t := JobText(r);
      && k < |t| && t[k] == '/' && '/' !in t[..k] && '/' !in t[k + 1..]
      && Says(t[..k], r.last) && Says(t[k + 1..], r.count)
  {
    IntTextHasNoSlash(r.last);
    IntTextHasNoSlash(r.count);
    IntTextSays(r.last);
    IntTextSays(r.count);
    k := |IntText(r.last)|;
    assert JobText(r)[..k] == IntText(r.last) && JobText(r)[k + 1..] == IntText(r.count);
  }

  lemma {:induction false} EndsAscend(lpj: int, start: int, last: int, overlap: int, i: nat, j: nat)
    requires lpj > 0 && i < j < |Ranges(lpj, start, last, overlap)|
    ensures var q := Ranges(lpj, start, last, overlap); q[i].last < q[j].last
    decreases j
  {
    Ascending(lpj, start, last, overlap, j - 1);
    if i < j - 1 { EndsAscend(lpj, start, last, overlap, i, j - 1); }
  }

  lemma JobsDistinct(lpj: int, start: int, last: int, overlap: int, i: nat, j: nat)
    requires lpj > 0 && i < j < |Ranges(lpj, start, last, overlap)|
    ensures var q := Ranges(lpj, start, last, overlap);
      q[i].last < q[j].last && JobText(q[i]) != JobText(q[j])
  {
    EndsAscend(lpj, start, last, overlap, i, j);
    var q := Ranges(lpj, start, last, overlap);
    if JobText(q[i]) == JobText(q[j]) { JobTextInjective(q[i], q[j]); }
  }
}
