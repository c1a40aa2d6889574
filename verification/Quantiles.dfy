/** The percentile ladder of the race (src/race.rs). Leads are whole
    nanoseconds and a percentile is an exact hundredth, so `round` is exact. */
module Quantiles {
  import opened Prelude
  import opened Sorting

  datatype Quantile = Quantile(at: string, lead: int)

  const LADDER: seq<(string, nat)> := [
    ("P1", 1), ("P5", 5), ("P10", 10), ("P25", 25), ("P50", 50),
    ("P75", 75), ("P80", 80), ("P90", 90), ("P95", 95), ("P99", 99)
  ]

  function IntLe(a: int, b: int): bool { a <= b }

  function Sorted1(leads: seq<int>): seq<int> { Sort(leads, IntLe) }

  function Led(sorted: seq<int>): seq<int> { Filter(sorted, (d: int) => d > 0) }

  /** Which of `n` sorted values stands for `p` percent: half rounds up. */
  function Rung(n: nat, p: nat): nat
    requires n > 0
  {
    Min(((n - 1) * p + 50) / 100, n - 1)
  }

  function Percentile(sorted: seq<int>, p: nat): Option<int>
  {
    if sorted == [] then None else Some(sorted[Rung(|sorted|, p)])
  }

  function Ladder(sorted: seq<int>): seq<Quantile>
  {
    if sorted == [] then [] else
      seq(|LADDER|, i requires 0 <= i < |LADDER| =>
        Quantile(LADDER[i].0, Percentile(sorted, LADDER[i].1).value))
  }

  /** Share of `n` in tenths of a percent, rounded half up. */
  function PctTenths(ahead: nat, n: nat): nat
    requires n > 0
  {
    (2000 * ahead + n) / (2 * n)
  }

  lemma SortedLeads(leads: seq<int>)
    ensures Sorted(Sorted1(leads), IntLe)
    ensures multiset(Sorted1(leads)) == multiset(leads)
    ensures |Sorted1(leads)| == |leads|
  {
    SortSorts(leads, IntLe);
    SortPermutes(leads, IntLe);
  }

  // ----- what a rung is, said without sorting -----

  function Below(leads: seq<int>, v: int): nat { |Filter(leads, (d: int) => d < v)| }

  function AtMost(leads: seq<int>, v: int): nat { |Filter(leads, (d: int) => d <= v)| }

  lemma {:induction false} FilterInsert(x: int, s: seq<int>, p: int -> bool)
    ensures |Filter(Insert(x, s, IntLe), p)| == |Filter(s, p)| + if p(x) then 1 else 0
  {
    FilterAppend([x], s, p);
    assert Filter([x], p) == if p(x) then [x] else [] by { assert Front([x]) == []; }
    if s != [] && !IntLe(x, s[0]) {
      FilterInsert(x, s[1..], p);
      FilterAppend([s[0]], Insert(x, s[1..], IntLe), p);
      FilterAppend([s[0]], s[1..], p);
      assert s == [s[0]] + s[1..];
    }
  }

  lemma {:induction false} FilterSort(s: seq<int>, p: int -> bool)
    ensures |Filter(Sort(s, IntLe), p)| == |Filter(s, p)|
  {
    if s != [] {
      FilterSort(s[1..], p);
      FilterInsert(s[0], Sort(s[1..], IntLe), p);
      FilterAppend([s[0]], s[1..], p);
      assert Filter([s[0]], p) == if p(s[0]) then [s[0]] else [] by { assert Front([s[0]]) == []; }
      assert s == [s[0]] + s[1..];
    }
  }

  lemma UnderSorted(s: seq<int>, k: nat)
    requires Sorted(s, IntLe) && k < |s|
    ensures Below(s, s[k]) <= k
  {
    var v := s[k];
    var under := (d: int) => d < v;
    assert s == s[..k] + s[k..];
    FilterAppend(s[..k], s[k..], under);
    FilterMembers(s[..k], under);
    assert Filter(s[k..], under) == [] by { FilterNone(s[k..], under); }
  }

  lemma UptoSorted(s: seq<int>, k: nat)
    requires Sorted(s, IntLe) && k < |s|
    ensures k < AtMost(s, s[k])
  {
    var v := s[k];
    var upto := (d: int) => d <= v;
    assert s == s[..k + 1] + s[k + 1..];
    FilterAppend(s[..k + 1], s[k + 1..], upto);
    assert Filter(s[..k + 1], upto) == s[..k + 1] by { FilterAll(s[..k + 1], upto); }
  }

  /** A percentile is the order statistic of its rung: no more than that many
      leads are under it, more than that many are at most it. */
  lemma PercentileIsTheOrderStatistic(leads: seq<int>, p: nat)
    requires leads != []
    ensures |Sorted1(leads)| == |leads|
    ensures var v := Percentile(Sorted1(leads), p).value;
            v in leads && Below(leads, v) <= Rung(|leads|, p) < AtMost(leads, v)
  {
    var s, k := Sorted1(leads), Rung(|leads|, p);
    SortedLeads(leads);
    var v := s[k];
    assert v in leads by { SortPermutes(leads, IntLe); }
    UnderSorted(s, k);
    UptoSorted(s, k);
    FilterSort(leads, (d: int) => d < v);
    FilterSort(leads, (d: int) => d <= v);
  }

  // ----- the two ladders against each other -----

  lemma {:induction false} LedIsASuffix(s: seq<int>)
    requires Sorted(s, IntLe)
    ensures |Led(s)| <= |s| && Led(s) == s[|s| - |Led(s)|..]
  {
    if s != [] {
      if Last(s) > 0 {
        var f := Front(s);
        LedIsASuffix(f);
        assert Led(s) == Led(f) + [Last(s)];
        assert s[|s| - |Led(s)|..] == f[|f| - |Led(f)|..] + [Last(s)];
      } else {
        FilterNone(s, (d: int) => d > 0);
      }
    }
  }

  lemma RungDominance(n: nat, m: nat, p: nat)
    requires 0 < m <= n && p <= 100
    ensures Rung(n, p) <= (n - m) + Rung(m, p)
  {
    RankGap(n, m, p);
    Hundredths((n - 1) * p, (m - 1) * p, n - m);
  }

  lemma {:induction false} RankGap(n: nat, m: nat, p: nat)
    requires 0 < m <= n && p <= 100
    ensures (n - 1) * p <= (m - 1) * p + 100 * (n - m)
  {
    if n > m {
      RankGap(n - 1, m, p);
      OneMore(n - 2, p);
    }
  }

  lemma OneMore(k: nat, p: nat)
    ensures (k + 1) * p == k * p + p
  {
  }

  lemma Hundredths(x: nat, y: nat, k: nat)
    requires x <= y + 100 * k
    ensures (x + 50) / 100 <= (y + 50) / 100 + k
  {
  }

  lemma RungMonotone(n: nat, p: nat, q: nat)
    requires n > 0 && p <= q
    ensures Rung(n, p) <= Rung(n, q)
  {
    MulMono(n - 1, p, q);
    DivMono((n - 1) * p + 50, (n - 1) * q + 50, 100);
  }

  lemma DivMono(a: nat, b: nat, d: nat)
    requires a <= b && d > 0
    ensures a / d <= b / d
  {
    if a / d > b / d {
      assert b < d * (b / d) + d;
      MulMono(d, b / d + 1, a / d);
    }
  }

  ghost predicate Rises(ladder: seq<Quantile>) {
    forall i, j :: 0 <= i <= j < |ladder| ==> ladder[i].lead <= ladder[j].lead
  }

  lemma LadderRises(s: seq<int>)
    requires Sorted(s, IntLe)
    ensures Rises(Ladder(s))
    ensures forall i :: 0 <= i < |Ladder(s)| ==> Ladder(s)[i].lead in s
  {
    var ladder := Ladder(s);
    forall i, j | 0 <= i <= j < |ladder|
      ensures ladder[i].lead <= ladder[j].lead && ladder[i].lead in s
    {
      var (p, q) := (LADDER[i].1, LADDER[j].1);
      assert p <= q;
      RungMonotone(|s|, p, q);
      InOrder(s, Rung(|s|, p), Rung(|s|, q));
    }
  }

  lemma InOrder(s: seq<int>, i: nat, j: nat)
    requires Sorted(s, IntLe) && i <= j < |s|
    ensures s[i] <= s[j] && s[i] in s
  {
  }

  /** Rung for rung, the second ladder names the same percentile and is no
      lower; it may be empty. */
  ghost predicate Dominated(low: seq<Quantile>, high: seq<Quantile>) {
    && |high| <= |low|
    && forall i :: 0 <= i < |high| ==> low[i].at == high[i].at && low[i].lead <= high[i].lead
  }

  lemma SuffixDominates(full: seq<int>, led: seq<int>)
    requires Sorted(full, IntLe)
    requires |led| <= |full| && led == full[|full| - |led|..]
    ensures Dominated(Ladder(full), Ladder(led))
  {
    var low, high := Ladder(full), Ladder(led);
    forall i | 0 <= i < |high|
      ensures low[i].at == high[i].at && low[i].lead <= high[i].lead
    {
      RungDominance(|full|, |led|, LADDER[i].1);
    }
  }

  /** For every window: both ladders rise, every rung is a lead of the window,
      every "when ahead" rung is a win, and no "when ahead" rung is below the
      same rung of the full ladder. */
  lemma LadderDominance(leads: seq<int>)
    ensures var full, led := Ladder(Sorted1(leads)), Ladder(Led(Sorted1(leads)));
            && Rises(full) && Rises(led)
            && |full| == (if leads == [] then 0 else |LADDER|)
            && (led == [] <==> forall d :: d in leads ==> d <= 0)
            && (forall i :: 0 <= i < |full| ==> full[i].lead in leads)
            && (forall i :: 0 <= i < |led| ==>
                  led[i].lead in leads && led[i].lead > 0)
            && Dominated(full, led)
  {
    var s := Sorted1(leads);
    SortedLeads(leads);
    SortPermutes(leads, IntLe);
    LedIsASuffix(s);
    FilterMembers(s, (d: int) => d > 0);
    LadderRises(s);
    LadderRises(Led(s));
    SuffixDominates(s, Led(s));
  }

  /** The published share is the nearest tenth to the exact one, and is 0 or
      100 per cent exactly at the ends. */
  lemma PctIsNearest(ahead: nat, n: nat)
    requires 0 < n && ahead <= n
    ensures 2 * n * PctTenths(ahead, n) <= 2000 * ahead + n < 2 * n * (PctTenths(ahead, n) + 1)
    ensures PctTenths(ahead, n) <= 1000
    ensures PctTenths(0, n) == 0 && PctTenths(n, n) == 1000
  {
    Euclid(2000 * ahead + n, 2 * n);
    Euclid(2000 * n + n, 2 * n);
    Nearest(n, ahead, PctTenths(ahead, n));
    Nearest(n, n, PctTenths(n, n));
    assert PctTenths(0, n) == 0 by { Euclid(n, 2 * n); }
    AtLeast(n, PctTenths(n, n));
  }

  lemma Euclid(a: nat, d: nat)
    requires d > 0
    ensures d * (a / d) <= a < d * (a / d + 1)
  {
  }

  lemma MulMono(n: nat, a: nat, b: nat)
    requires a <= b
    ensures n * a <= n * b
  {
  }

  lemma Nearest(n: nat, ahead: nat, q: nat)
    requires 0 < n && ahead <= n && 2 * n * q <= 2000 * ahead + n
    ensures q <= 1000
  {
    if q >= 1001 {
      MulMono(2 * n, 1001, q);
    }
  }

  lemma AtLeast(n: nat, q: nat)
    requires 0 < n && 2000 * n + n < 2 * n * (q + 1)
    ensures q >= 1000
  {
    if q <= 999 {
      MulMono(2 * n, q + 1, 1000);
    }
  }
}
