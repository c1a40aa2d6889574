/** Where each pair stands right now (src/bot/market.rs): a second computation
    over the same book the bot reads, and how far the two agree. */
module Market {
  import opened Prelude
  import opened Sorting
  import opened Whirlpool
  import opened Arb
  import opened Pools

  datatype MarketRow = MarketRow(
    pair: string, gapBps: nat, needsBps: nat, route: string, shortByBps: nat, ageMs: nat,
    priced: bool, poolsPriced: nat, poolsTotal: nat, stale: bool)

  /** What the screen is asked with. */
  datatype Ask = Ask(marginBps: nat, maxPriceAge: Duration, now: Instant)

  predicate Both(ms: seq<Pool>, book: Book, i: nat, j: nat) {
    i < j < |ms| && ms[i].address in book && ms[j].address in book
  }

  function Between(ms: seq<Pool>, book: Book, i: nat, j: nat): nat
    requires Both(ms, book, i, j)
  {
    GapBps(book[ms[i].address], book[ms[j].address])
  }

  /** The order the index loops visit the pairs in. */
  predicate Earlier(a: nat, b: nat, i: nat, j: nat) { a < i || (a == i && b < j) }

  /** The first of the widest among the pairs visited before `(hi, hj)`. */
  ghost predicate FirstWidest(ms: seq<Pool>, book: Book, i: nat, j: nat, hi: nat, hj: nat) {
    && Both(ms, book, i, j) && Earlier(i, j, hi, hj)
    && (forall a: nat, b: nat :: Both(ms, book, a, b) && Earlier(a, b, hi, hj) ==>
          && Between(ms, book, a, b) <= Between(ms, book, i, j)
          && (Earlier(a, b, i, j) ==> Between(ms, book, a, b) < Between(ms, book, i, j)))
  }

  datatype Best = NoBest | Best(gap: nat, needs: nat, route: string, age: nat)

  function Measured(ms: seq<Pool>, book: Book, i: nat, j: nat, ask: Ask): Best
    requires Both(ms, book, i, j)
  {
    var (a, b) := (book[ms[i].address], book[ms[j].address]);
    Best(GapBps(a, b), FeeBps(a.state) + FeeBps(b.state) + ask.marginBps,
         ms[i].tag + " | " + ms[j].tag, Millis(SatSub(ask.now, Min(a.at, b.at))))
  }

  ghost predicate BestSoFar(ms: seq<Pool>, book: Book, ask: Ask, best: Best, hi: nat, hj: nat) {
    if best.NoBest?
    then forall a: nat, b: nat :: Both(ms, book, a, b) ==> !Earlier(a, b, hi, hj)
    else exists i: nat, j: nat :: FirstWidest(ms, book, i, j, hi, hj) && best == Measured(ms, book, i, j, ask)
  }

  function RowOf(pair: string, ms: seq<Pool>, book: Book, ask: Ask, best: Best): MarketRow {
    var reporting := |Filter(ms, (p: Pool) => p.address in book)|;
    match best
    case Best(gap, needs, route, age) =>
      MarketRow(pair, gap, needs, route, SatSub(needs, gap), age, true, reporting, |ms|,
                age > Millis(ask.maxPriceAge))
    case NoBest =>
      MarketRow(pair, 0, 0, "", U64_MAX, 0, false, reporting, |ms|, false)
  }

  /** The row is the pair's: measured on its first widest route, or blank. */
  ghost predicate RowRight(pools: seq<Pool>, book: Book, ask: Ask, row: MarketRow) {
    var ms := Members(pools, row.pair);
    exists best :: BestSoFar(ms, book, ask, best, |ms|, 0) && row == RowOf(row.pair, ms, book, ask, best)
  }

  function RowLe(a: MarketRow, b: MarketRow): bool {
    if a.stale != b.stale then b.stale
    else if a.shortByBps != b.shortByBps then a.shortByBps < b.shortByBps
    else StrLe(a.pair, b.pair)
  }

  function PairOf(row: MarketRow): string { row.pair }

  lemma StepKeeps(ms: seq<Pool>, book: Book, ask: Ask, best: Best, i: nat, j: nat)
    requires i < j < |ms| && BestSoFar(ms, book, ask, best, i, j)
    ensures BestSoFar(ms, book, ask,
              if Both(ms, book, i, j) && (best.NoBest? || Between(ms, book, i, j) > best.gap)
              then Measured(ms, book, i, j, ask) else best, i, j + 1)
  {
  }

  lemma NextRow(ms: seq<Pool>, book: Book, ask: Ask, best: Best, i: nat)
    requires i < |ms| && BestSoFar(ms, book, ask, best, i, |ms|)
    ensures BestSoFar(ms, book, ask, best, i + 1, i + 2)
  {
  }

  lemma AllVisited(ms: seq<Pool>, book: Book, ask: Ask, best: Best)
    requires BestSoFar(ms, book, ask, best, |ms|, |ms| + 1)
    ensures BestSoFar(ms, book, ask, best, |ms|, 0)
  {
  }

  /** One pair's row: every two of its pools that both have a price. */
  method PairRow(pools: seq<Pool>, prices: PriceBook, ask: Ask, pair: string) returns (row: MarketRow)
    ensures row.pair == pair && RowRight(pools, prices.inner, ask, row)
  {
    var best := NoBest;
    var members := Members(pools, pair);
    var book := prices.inner;
    for i := 0 to |members|
      invariant BestSoFar(members, book, ask, best, i, i + 1)
    {
      for j := i + 1 to |members|
        invariant BestSoFar(members, book, ask, best, i, j)
      {
        var a, b := prices.Get(members[i].address), prices.Get(members[j].address);
        StepKeeps(members, book, ask, best, i, j);
        if a.None? || b.None? {
          continue;
        }
        var gap := GapBps(a.value, b.value);
        var needs := FeeBps(a.value.state) + FeeBps(b.value.state) + ask.marginBps;
        var age := Millis(SatSub(ask.now, Min(a.value.at, b.value.at)));
        var route := members[i].tag + " | " + members[j].tag;
        if best.NoBest? || gap > best.gap {
          best := Best(gap, needs, route, age);
        }
      }
      NextRow(members, book, ask, best, i);
    }
    AllVisited(members, book, ask, best);
    row := RowOf(pair, members, book, ask, best);
  }

  lemma RowOrder()
    ensures TotalPreorder(RowLe)
  {
    StrOrder();
    forall a, b, c | RowLe(a, b) && RowLe(b, c)
      ensures RowLe(a, c)
    {
    }
  }

  ghost predicate RowsRight(pools: seq<Pool>, book: Book, ask: Ask, rows: seq<MarketRow>) {
    && (forall r :: r in rows ==> RowRight(pools, book, ask, r))
    && (forall p :: p in Pairs(pools) <==> exists r :: r in rows && r.pair == p)
    && DistinctBy(rows, PairOf) && Sorted(rows, RowLe) && |rows| == |Pairs(pools)|
  }

  /** One row per pair, the closest to actionable first and the stale last. */
  method Snapshot(pools: seq<Pool>, prices: PriceBook, ask: Ask) returns (rows: seq<MarketRow>)
    ensures RowsRight(pools, prices.inner, ask, rows)
  {
    var pairs := Pairs(pools);
    PairsAreOnce(pools);
    var unsorted: seq<MarketRow> := [];
    for k := 0 to |pairs|
      invariant |unsorted| == k
      invariant forall i :: 0 <= i < k ==>
                  unsorted[i].pair == pairs[i] && RowRight(pools, prices.inner, ask, unsorted[i])
    {
      var row := PairRow(pools, prices, ask, pairs[k]);
      unsorted := unsorted + [row];
    }
    rows := Sort(unsorted, RowLe);
    SortedRows(pools, prices.inner, ask, pairs, unsorted);
  }

  lemma SortedRows(pools: seq<Pool>, book: Book, ask: Ask, pairs: seq<string>, unsorted: seq<MarketRow>)
    requires pairs == Pairs(pools) && NoDuplicates(pairs) && |unsorted| == |pairs|
    requires forall i :: 0 <= i < |pairs| ==>
               unsorted[i].pair == pairs[i] && RowRight(pools, book, ask, unsorted[i])
    ensures RowsRight(pools, book, ask, Sort(unsorted, RowLe))
  {
    var rows := Sort(unsorted, RowLe);
    RowOrder();
    SortSorts(unsorted, RowLe);
    SortKeepsDistinct(unsorted, RowLe, PairOf);
    assert |rows| == |unsorted| && forall r :: r in rows <==> r in unsorted by {
      SortPermutes(unsorted, RowLe);
    }
    PairsCovered(pairs, unsorted);
    assert forall r :: r in unsorted ==> RowRight(pools, book, ask, r);
  }

  lemma PairsCovered(pairs: seq<string>, rows: seq<MarketRow>)
    requires |rows| == |pairs| && forall i :: 0 <= i < |pairs| ==> rows[i].pair == pairs[i]
    ensures forall p :: p in pairs <==> exists r :: r in rows && r.pair == p
  {
  }

  // ----- what a row says -----

  lemma {:induction false} TwoReporting<T>(s: seq<T>, p: T -> bool)
    ensures |Filter(s, p)| >= 1 <==> exists i :: 0 <= i < |s| && p(s[i])
    ensures |Filter(s, p)| >= 2 <==> exists i, j :: 0 <= i < j < |s| && p(s[i]) && p(s[j])
  {
    if s != [] {
      TwoReporting(Front(s), p);
      assert forall i :: 0 <= i < |s| - 1 ==> Front(s)[i] == s[i];
    }
  }

  lemma ReportingPairs(ms: seq<Pool>, book: Book)
    ensures |Filter(ms, (p: Pool) => p.address in book)| >= 2 <==> exists i: nat, j: nat :: Both(ms, book, i, j)
  {
    var p := (p: Pool) => p.address in book;
    TwoReporting(ms, p);
    if i, j :| 0 <= i < j < |ms| && p(ms[i]) && p(ms[j]) {
      assert Both(ms, book, i, j);
    }
  }

  /** A row is priced exactly when two of its pools report; its gap is then the
      widest between any two reporting pools, and reached. */
  lemma RowIsWidest(pools: seq<Pool>, book: Book, ask: Ask, row: MarketRow)
    requires RowRight(pools, book, ask, row)
    ensures row.priced <==> row.poolsPriced >= 2
    ensures var ms := Members(pools, row.pair);
            && (forall i: nat, j: nat :: Both(ms, book, i, j) ==> row.priced && Between(ms, book, i, j) <= row.gapBps)
            && (row.priced ==> exists i: nat, j: nat :: Both(ms, book, i, j) && Between(ms, book, i, j) == row.gapBps)
  {
    var ms := Members(pools, row.pair);
    var best :| BestSoFar(ms, book, ask, best, |ms|, 0) && row == RowOf(row.pair, ms, book, ask, best);
    ReportingPairs(ms, book);
    assert forall i: nat, j: nat :: Both(ms, book, i, j) ==> Earlier(i, j, |ms|, 0);
    if best.Best? {
      var i: nat, j: nat :| FirstWidest(ms, book, i, j, |ms|, 0) && best == Measured(ms, book, i, j, ask);
      assert Both(ms, book, i, j);
    }
  }

  /** The route a priced row was measured on. */
  lemma WidestRoute(pools: seq<Pool>, book: Book, ask: Ask, row: MarketRow, a: nat, b: nat) returns (i: nat, j: nat)
    requires RowRight(pools, book, ask, row) && Both(Members(pools, row.pair), book, a, b)
    ensures var ms := Members(pools, row.pair);
            && Both(ms, book, i, j) && Between(ms, book, a, b) <= Between(ms, book, i, j)
            && row == RowOf(row.pair, ms, book, ask, Measured(ms, book, i, j, ask))
  {
    var ms := Members(pools, row.pair);
    var best :| BestSoFar(ms, book, ask, best, |ms|, 0) && row == RowOf(row.pair, ms, book, ask, best);
    assert Earlier(a, b, |ms|, 0);
    i, j :| FirstWidest(ms, book, i, j, |ms|, 0) && best == Measured(ms, book, i, j, ask);
  }

  /** Whatever the bot is offered on a pair, the pair's row is at least as wide. */
  lemma AcceptedWithinRow(pools: seq<Pool>, book: Book, ask: Ask, row: MarketRow,
                          size: nat, sell: Pool, buy: Pool, costs: Costs)
    requires RowRight(pools, book, ask, row)
    requires sell in pools && buy in pools && sell.pair == buy.pair == row.pair && sell.address != buy.address
    requires sell.address in book && buy.address in book
    requires Evaluate(size, Side(sell.tag, book[sell.address]), Side(buy.tag, book[buy.address]), costs, ask.now).Ok?
    ensures row.priced
    ensures Evaluate(size, Side(sell.tag, book[sell.address]), Side(buy.tag, book[buy.address]), costs, ask.now)
              .value.grossBps <= row.gapBps
  {
    var ms := Members(pools, row.pair);
    RowIsWidest(pools, book, ask, row);
    AcceptedFacts(size, Side(sell.tag, book[sell.address]), Side(buy.tag, book[buy.address]), costs, ask.now);
    FilterMembers(pools, (p: Pool) => p.pair == row.pair);
    var i :| 0 <= i < |ms| && ms[i] == sell;
    var j :| 0 <= j < |ms| && ms[j] == buy;
    GapIsSymmetric(book[sell.address], book[buy.address]);
    assert Both(ms, book, Min(i, j), Max(i, j));
    assert Between(ms, book, Min(i, j), Max(i, j)) <= row.gapBps;
  }

  /** The screen's age is in whole milliseconds: a stale row is one the bot
      refuses, but within the last millisecond the bot refuses first. */
  lemma StaleAgainstFresh(one: Priced, other: Priced, now: Instant, maxAge: Duration)
    ensures var age := SatSub(now, Min(one.at, other.at));
            && (FreshEnough(one, other, now, maxAge) <==> age <= maxAge)
            && (Millis(age) > Millis(maxAge) ==> !FreshEnough(one, other, now, maxAge))
            && (maxAge / NANOS_PER_MILLI < U64_MAX ==>
                  (Millis(age) <= Millis(maxAge) <==> age < (maxAge / NANOS_PER_MILLI + 1) * NANOS_PER_MILLI))
  {
  }

  lemma MembersApart(pools: seq<Pool>, pair: string, i: nat, j: nat)
    requires DistinctAddresses(pools) && i < j < |Members(pools, pair)|
    ensures var ms := Members(pools, pair);
            && ms[i].address != ms[j].address && ms[i].pair == ms[j].pair == pair
            && ms[i] in pools && ms[j] in pools
  {
    var idx := FilterIndex(pools, (p: Pool) => p.pair == pair);
    assert idx[i] < idx[j];
  }
}
