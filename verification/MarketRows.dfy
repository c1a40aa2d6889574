/** What the table on the screen says, read off the listed pools and the book
    alone: whose gap, age and cost a row shows, how many pools stand behind it,
    and in what order the rows come. */
module MarketRows {
  import opened Prelude
  import opened Sorting
  import opened Whirlpool
  import opened Arb
  import opened Pools
  import opened Market

  // ----- the route of a row -----

  /** Two listed pools of the pair that both have a price. */
  ghost predicate Reporting(pools: seq<Pool>, book: Book, pair: string, i: nat, j: nat) {
    i < j < |pools| && pools[i].pair == pools[j].pair == pair && pools[i].address in book && pools[j].address in book
  }

  ghost function Apart(pools: seq<Pool>, book: Book, i: nat, j: nat): nat
    requires i < |pools| && j < |pools| && pools[i].address in book && pools[j].address in book
  {
    GapBps(book[pools[i].address], book[pools[j].address])
  }

  /** The first listed of the pair's widest routes. */
  ghost predicate WidestListed(pools: seq<Pool>, book: Book, pair: string, i: nat, j: nat) {
    && Reporting(pools, book, pair, i, j)
    && forall a: nat, b: nat :: Reporting(pools, book, pair, a, b) ==>
         && Apart(pools, book, a, b) <= Apart(pools, book, i, j)
         && (a < i || (a == i && b < j) ==> Apart(pools, book, a, b) < Apart(pools, book, i, j))
  }

  /** How old a price is in whole milliseconds. */
  ghost function AgeMs(priced: Priced, now: Instant): nat { Min(SatSub(now, priced.at) / 1_000_000, U64_MAX) }

  /** Every figure of the row is these two pools'. */
  ghost predicate SpeaksOf(pools: seq<Pool>, book: Book, ask: Ask, row: MarketRow, i: nat, j: nat)
    requires Reporting(pools, book, row.pair, i, j)
  {
    var (one, other) := (book[pools[i].address], book[pools[j].address]);
    var (mine, its) := (AgeMs(one, ask.now), AgeMs(other, ask.now));
    var limit := Min(ask.maxPriceAge / 1_000_000, U64_MAX);
    && row.gapBps == GapBps(one, other)
    && row.needsBps == FeeBps(one.state) + FeeBps(other.state) + ask.marginBps
    && row.route == pools[i].tag + " | " + pools[j].tag
    && (row.shortByBps == 0 <==> row.needsBps <= row.gapBps)
    && (row.shortByBps > 0 ==> row.gapBps + row.shortByBps == row.needsBps)
    && mine <= row.ageMs && its <= row.ageMs && (row.ageMs == mine || row.ageMs == its)
    && (row.stale <==> mine > limit || its > limit)
  }

  ghost predicate Blank(row: MarketRow) {
    && row.gapBps == 0 && row.needsBps == 0 && row.route == "" && row.ageMs == 0 && !row.stale
    && row.shortByBps == U64_MAX
  }

  /** Where the pair's pools are listed, and where those with a price are. */
  ghost function PairPlaces(pools: seq<Pool>, pair: string): set<nat> {
    set k: nat | k < |pools| && pools[k].pair == pair
  }

  ghost function PricedPlaces(pools: seq<Pool>, book: Book, pair: string): set<nat> {
    set k: nat | k < |pools| && pools[k].pair == pair && pools[k].address in book
  }

  /** A row speaks of the first listed of the pair's widest routes and is as old
      as the older of its two prices: stale exactly when one of them, by itself,
      is over the limit. Without two priced pools it is blank; and it counts the
      pair's pools, and those with a price. */
  lemma RowSpeaksOfItsRoute(pools: seq<Pool>, book: Book, ask: Ask, row: MarketRow)
    requires RowRight(pools, book, ask, row)
    ensures row.priced ==>
              exists i: nat, j: nat ::
                WidestListed(pools, book, row.pair, i, j) && SpeaksOf(pools, book, ask, row, i, j)
    ensures !row.priced ==> Blank(row) && forall i: nat, j: nat :: !Reporting(pools, book, row.pair, i, j)
    ensures row.poolsTotal == |PairPlaces(pools, row.pair)|
    ensures row.poolsPriced == |PricedPlaces(pools, book, row.pair)|
  {
    RowCountsItsPools(pools, book, ask, row);
    var ms := Members(pools, row.pair);
    var idx := FilterIndex(pools, (p: Pool) => p.pair == row.pair);
    var best :| BestSoFar(ms, book, ask, best, |ms|, 0) && row == RowOf(row.pair, ms, book, ask, best);
    if best.Best? {
      var i: nat, j: nat :| FirstWidest(ms, book, i, j, |ms|, 0) && best == Measured(ms, book, i, j, ask);
      WidestIsListed(pools, book, row.pair, idx, i, j);
      MeasuredSpeaks(pools, book, ask, row, i, j, idx[i], idx[j]);
    } else {
      NoneReporting(pools, book, row.pair, idx);
    }
  }

  lemma MeasuredSpeaks(pools: seq<Pool>, book: Book, ask: Ask, row: MarketRow, i: nat, j: nat, a: nat, b: nat)
    requires Both(Members(pools, row.pair), book, i, j) && Reporting(pools, book, row.pair, a, b)
    requires Members(pools, row.pair)[i] == pools[a] && Members(pools, row.pair)[j] == pools[b]
    requires var ms := Members(pools, row.pair);
             row == RowOf(row.pair, ms, book, ask, Measured(ms, book, i, j, ask))
    ensures SpeaksOf(pools, book, ask, row, a, b)
  {
    OlderOfTwo(book[pools[a].address], book[pools[b].address], ask.now);
  }

  /** The age of the earlier price is the larger of the two ages. */
  lemma OlderOfTwo(one: Priced, other: Priced, now: Instant)
    ensures Millis(SatSub(now, Min(one.at, other.at))) == Max(AgeMs(one, now), AgeMs(other, now))
  {
  }

  lemma NoneReporting(pools: seq<Pool>, book: Book, pair: string, idx: seq<nat>)
    requires Indexes(pools, pair, idx)
    requires var ms := Members(pools, pair);
             forall a: nat, b: nat :: Both(ms, book, a, b) ==> !Earlier(a, b, |ms|, 0)
    ensures forall i: nat, j: nat :: !Reporting(pools, book, pair, i, j)
  {
    forall a: nat, b: nat | Reporting(pools, book, pair, a, b)
      ensures false
    {
      var k, l := MemberPlaces(pools, book, pair, idx, a, b);
    }
  }

  /** `idx` says where each member of the pair is listed. */
  ghost predicate Indexes(pools: seq<Pool>, pair: string, idx: seq<nat>) {
    var ms := Members(pools, pair);
    && |idx| == |ms|
    && (forall k :: 0 <= k < |idx| ==> idx[k] < |pools| && ms[k] == pools[idx[k]] && ms[k].pair == pair)
    && (forall k, l :: 0 <= k < l < |idx| ==> idx[k] < idx[l])
    && (forall m :: 0 <= m < |pools| && pools[m].pair == pair ==> m in idx)
  }

  lemma MemberPlaces(pools: seq<Pool>, book: Book, pair: string, idx: seq<nat>, a: nat, b: nat)
    returns (k: nat, l: nat)
    requires Indexes(pools, pair, idx) && Reporting(pools, book, pair, a, b)
    ensures k < |idx| && l < |idx| && idx[k] == a && idx[l] == b
    ensures Both(Members(pools, pair), book, k, l)
    ensures Between(Members(pools, pair), book, k, l) == Apart(pools, book, a, b)
  {
    k :| 0 <= k < |idx| && idx[k] == a;
    l :| 0 <= l < |idx| && idx[l] == b;
  }

  lemma WidestIsListed(pools: seq<Pool>, book: Book, pair: string, idx: seq<nat>, i: nat, j: nat)
    requires Indexes(pools, pair, idx)
    requires FirstWidest(Members(pools, pair), book, i, j, |Members(pools, pair)|, 0)
    ensures WidestListed(pools, book, pair, idx[i], idx[j])
  {
    forall a: nat, b: nat | Reporting(pools, book, pair, a, b)
      ensures Apart(pools, book, a, b) <= Apart(pools, book, idx[i], idx[j])
      ensures Earlier(a, b, idx[i], idx[j]) ==> Apart(pools, book, a, b) < Apart(pools, book, idx[i], idx[j])
    {
      var k, l := MemberPlaces(pools, book, pair, idx, a, b);
      assert Earlier(k, l, |idx|, 0);
    }
  }

  lemma RowCountsItsPools(pools: seq<Pool>, book: Book, ask: Ask, row: MarketRow)
    requires RowRight(pools, book, ask, row)
    ensures row.poolsTotal == |PairPlaces(pools, row.pair)|
    ensures row.poolsPriced == |PricedPlaces(pools, book, row.pair)|
  {
    var mine := (p: Pool) => p.pair == row.pair;
    var priced := (p: Pool) => p.address in book;
    var both := (p: Pool) => p.pair == row.pair && p.address in book;
    FilterBoth(pools, mine, priced, both);
    FilterPlaces(pools, mine);
    FilterPlaces(pools, both);
    assert Places(pools, mine) == PairPlaces(pools, row.pair);
    assert Places(pools, both) == PricedPlaces(pools, book, row.pair);
  }

  // ----- what the rows depend on -----

  /** The same prices, fees and ages for these pools, at two moments. */
  ghost predicate Alike(pools: seq<Pool>, one: Book, now: Instant, other: Book, later: Instant) {
    forall p :: p in pools ==>
      && (p.address in one <==> p.address in other)
      && (p.address in one && p.address in other ==>
            && one[p.address].state == other[p.address].state
            && SatSub(now, one[p.address].at) == SatSub(later, other[p.address].at))
  }

  lemma RoutesAlike(pools: seq<Pool>, one: Book, now: Instant, other: Book, later: Instant, pair: string)
    requires Alike(pools, one, now, other, later)
    ensures forall i: nat, j: nat :: Reporting(pools, one, pair, i, j) <==> Reporting(pools, other, pair, i, j)
    ensures forall i: nat, j: nat :: Reporting(pools, one, pair, i, j) ==>
              Apart(pools, one, i, j) == Apart(pools, other, i, j)
  {
    forall i: nat, j: nat
      ensures Reporting(pools, one, pair, i, j) <==> Reporting(pools, other, pair, i, j)
      ensures Reporting(pools, one, pair, i, j) ==> Apart(pools, one, i, j) == Apart(pools, other, i, j)
    {
      if i < j < |pools| {
        assert pools[i] in pools && pools[j] in pools;
      }
    }
  }

  lemma OneWidest(pools: seq<Pool>, one: Book, now: Instant, other: Book, later: Instant, pair: string,
                  i: nat, j: nat, k: nat, l: nat)
    requires Alike(pools, one, now, other, later)
    requires WidestListed(pools, one, pair, i, j) && WidestListed(pools, other, pair, k, l)
    ensures i == k && j == l
  {
    RoutesAlike(pools, one, now, other, later, pair);
    assert Reporting(pools, one, pair, k, l) && Reporting(pools, other, pair, i, j);
  }

  lemma SpeaksOnce(pools: seq<Pool>, one: Book, ask: Ask, row: MarketRow, other: Book, ask': Ask, row': MarketRow,
                   i: nat, j: nat)
    requires Alike(pools, one, ask.now, other, ask'.now)
    requires ask'.marginBps == ask.marginBps && ask'.maxPriceAge == ask.maxPriceAge && row'.pair == row.pair
    requires Reporting(pools, one, row.pair, i, j) && Reporting(pools, other, row.pair, i, j)
    requires SpeaksOf(pools, one, ask, row, i, j) && SpeaksOf(pools, other, ask', row', i, j)
    ensures row'.gapBps == row.gapBps && row'.needsBps == row.needsBps && row'.route == row.route
    ensures row'.shortByBps == row.shortByBps && row'.ageMs == row.ageMs && row'.stale == row.stale
  {
    assert pools[i] in pools && pools[j] in pools;
  }

  lemma CountsAlike(pools: seq<Pool>, one: Book, ask: Ask, row: MarketRow, other: Book, ask': Ask, row': MarketRow)
    requires Alike(pools, one, ask.now, other, ask'.now) && row'.pair == row.pair
    requires RowRight(pools, one, ask, row) && RowRight(pools, other, ask', row')
    ensures row'.poolsTotal == row.poolsTotal && row'.poolsPriced == row.poolsPriced
  {
    RowCountsItsPools(pools, one, ask, row);
    RowCountsItsPools(pools, other, ask', row');
    forall k: nat
      ensures k in PricedPlaces(pools, one, row.pair) <==> k in PricedPlaces(pools, other, row.pair)
    {
      assert k < |pools| ==> pools[k] in pools;
    }
    assert PricedPlaces(pools, one, row.pair) == PricedPlaces(pools, other, row.pair);
  }

  /** A row is a function of the pair's prices, fees and ages and of the screen's
      limits: of nothing else in the book, and not of the moment as such. */
  lemma RowsAlike(pools: seq<Pool>, one: Book, ask: Ask, row: MarketRow, other: Book, ask': Ask, row': MarketRow)
    requires Alike(pools, one, ask.now, other, ask'.now)
    requires ask'.marginBps == ask.marginBps && ask'.maxPriceAge == ask.maxPriceAge && row'.pair == row.pair
    requires RowRight(pools, one, ask, row) && RowRight(pools, other, ask', row')
    ensures row' == row
  {
    RoutesAlike(pools, one, ask.now, other, ask'.now, row.pair);
    PricedIfReporting(pools, one, ask, row);
    PricedIfReporting(pools, other, ask', row');
    RowSpeaksOfItsRoute(pools, one, ask, row);
    RowSpeaksOfItsRoute(pools, other, ask', row');
    CountsAlike(pools, one, ask, row, other, ask', row');
    if row.priced {
      var i: nat, j: nat :| WidestListed(pools, one, row.pair, i, j) && SpeaksOf(pools, one, ask, row, i, j);
      var k: nat, l: nat :| WidestListed(pools, other, row.pair, k, l) && SpeaksOf(pools, other, ask', row', k, l);
      OneWidest(pools, one, ask.now, other, ask'.now, row.pair, i, j, k, l);
      SpeaksOnce(pools, one, ask, row, other, ask', row', i, j);
    }
  }

  lemma PricedIfReporting(pools: seq<Pool>, book: Book, ask: Ask, row: MarketRow)
    requires RowRight(pools, book, ask, row)
    ensures row.priced <==> exists i: nat, j: nat :: Reporting(pools, book, row.pair, i, j)
  {
    RowSpeaksOfItsRoute(pools, book, ask, row);
    if row.priced {
      var i: nat, j: nat :| WidestListed(pools, book, row.pair, i, j);
    }
  }

  /** And so is the whole table, its order included. */
  lemma TablesAlike(pools: seq<Pool>, one: Book, ask: Ask, rows: seq<MarketRow>,
                    other: Book, ask': Ask, rows': seq<MarketRow>)
    requires Alike(pools, one, ask.now, other, ask'.now)
    requires ask'.marginBps == ask.marginBps && ask'.maxPriceAge == ask.maxPriceAge
    requires RowsRight(pools, one, ask, rows) && RowsRight(pools, other, ask', rows')
    ensures rows' == rows
  {
    RowsAreAmong(pools, one, ask, rows, other, ask', rows');
    RowsAreAmong(pools, other, ask', rows', one, ask, rows);
    RowOrder();
    PairsTellApart(pools, one, ask, rows);
    PairsTellApart(pools, other, ask', rows');
    SortedOneWay(rows, rows', RowLe);
  }

  lemma RowsAreAmong(pools: seq<Pool>, one: Book, ask: Ask, rows: seq<MarketRow>,
                     other: Book, ask': Ask, rows': seq<MarketRow>)
    requires Alike(pools, one, ask.now, other, ask'.now)
    requires ask'.marginBps == ask.marginBps && ask'.maxPriceAge == ask.maxPriceAge
    requires RowsRight(pools, one, ask, rows) && RowsRight(pools, other, ask', rows')
    ensures forall r :: r in rows ==> r in rows'
  {
    forall r | r in rows
      ensures r in rows'
    {
      assert r.pair in Pairs(pools);
      var s :| s in rows' && s.pair == r.pair;
      RowsAlike(pools, one, ask, r, other, ask', s);
    }
  }

  lemma PairsTellApart(pools: seq<Pool>, book: Book, ask: Ask, rows: seq<MarketRow>)
    requires RowsRight(pools, book, ask, rows)
    ensures forall i, j :: 0 <= i < j < |rows| ==> rows[i] != rows[j]
    ensures forall x, y :: x in rows && y in rows && RowLe(x, y) && RowLe(y, x) ==> x == y
  {
    StrOrder();
    forall x, y | x in rows && y in rows && RowLe(x, y) && RowLe(y, x)
      ensures x == y
    {
      var i :| 0 <= i < |rows| && rows[i] == x;
      var j :| 0 <= j < |rows| && rows[j] == y;
      assert PairOf(x) == PairOf(y);
    }
    assert forall i, j :: 0 <= i < j < |rows| ==> PairOf(rows[i]) != PairOf(rows[j]);
  }

  // ----- the order of the rows -----

  /** Character by character, the shorter first when it runs out. */
  ghost predicate Alphabetic(a: string, b: string) {
    exists k: nat :: k <= |a| && k <= |b| && a[..k] == b[..k] && (k == |a| || (k < |b| && a[k] < b[k]))
  }

  lemma {:induction false} StrLeIsAlphabetic(a: string, b: string)
    requires StrLe(a, b)
    ensures Alphabetic(a, b)
  {
    if a == [] {
      assert a[..0] == b[..0];
    } else if a[0] != b[0] {
      assert a[..0] == b[..0];
    } else {
      StrLeIsAlphabetic(a[1..], b[1..]);
      var k: nat :| k <= |a[1..]| && k <= |b[1..]| && a[1..][..k] == b[1..][..k]
                  && (k == |a[1..]| || (k < |b[1..]| && a[1..][k] < b[1..][k]));
      assert a[..k + 1] == [a[0]] + a[1..][..k] && b[..k + 1] == [b[0]] + b[1..][..k];
    }
  }

  /** Of two rows in the published order, the later is never the only current
      one; alike in that, never the closer to clearing; and alike in both, its
      pair comes after in the alphabet. */
  lemma ClosestFirst(pools: seq<Pool>, book: Book, ask: Ask, rows: seq<MarketRow>, i: nat, j: nat)
    requires RowsRight(pools, book, ask, rows) && i < j < |rows|
    ensures var (above, below) := (rows[i], rows[j]);
            && (above.stale ==> below.stale)
            && (above.stale == below.stale ==> above.shortByBps <= below.shortByBps)
            && (above.stale == below.stale && above.shortByBps == below.shortByBps ==>
                  above.pair != below.pair && Alphabetic(above.pair, below.pair))
  {
    var (above, below) := (rows[i], rows[j]);
    assert RowLe(above, below) && PairOf(above) != PairOf(below);
    if StrLe(above.pair, below.pair) {
      StrLeIsAlphabetic(above.pair, below.pair);
    }
  }

  // ----- a row that clears -----

  /** Neither price is older than the limit's last millisecond. */
  ghost predicate BothYoung(one: Priced, other: Priced, now: Instant, maxAge: Duration) {
    && SatSub(now, one.at) < (maxAge / NANOS_PER_MILLI + 1) * NANOS_PER_MILLI
    && SatSub(now, other.at) < (maxAge / NANOS_PER_MILLI + 1) * NANOS_PER_MILLI
  }

  /** A row that is short of nothing and plausible is a trade: sold on the dear
      side of its own route, the bot takes it or finds it too small for the
      network fee -- if and only if both prices are fresh to the nanosecond;
      otherwise the bot calls it stale. And a row not marked stale has both
      prices fresh up to the last millisecond. */
  lemma ClearingRowIsATrade(pools: seq<Pool>, book: Book, ask: Ask, row: MarketRow, size: nat, costs: Costs)
    requires RowRight(pools, book, ask, row) && DistinctTags(pools) && DistinctAddresses(pools)
    requires costs.marginBps == ask.marginBps && costs.maxPriceAge == ask.maxPriceAge && size > 0
    requires row.shortByBps == 0 && 0 < row.gapBps <= IMPLAUSIBLE_BPS
    ensures exists sell, buy ::
              && sell in pools && buy in pools && sell.pair == buy.pair == row.pair
              && sell.address in book && buy.address in book
              && (row.route == sell.tag + " | " + buy.tag || row.route == buy.tag + " | " + sell.tag)
              && GapBps(book[sell.address], book[buy.address]) == row.gapBps
              && ClearsUnlessStale(size, sell, buy, book, costs, ask.now)
              && (ask.maxPriceAge / NANOS_PER_MILLI < U64_MAX ==>
                    (row.stale <==> !BothYoung(book[sell.address], book[buy.address], ask.now, ask.maxPriceAge)))
  {
    RowSpeaksOfItsRoute(pools, book, ask, row);
    var i: nat, j: nat :| WidestListed(pools, book, row.pair, i, j) && SpeaksOf(pools, book, ask, row, i, j);
    var (p, q) := (pools[i], pools[j]);
    assert p in pools && q in pools && IsSibling(p, q);
    GapIsSymmetric(book[p.address], book[q.address]);
    YoungIsNotStale(book[p.address], book[q.address], ask.now, ask.maxPriceAge);
    if book[p.address].state.price > book[q.address].state.price {
      ClearingRoute(size, p, q, book, costs, ask.now);
    } else {
      ClearingRoute(size, q, p, book, costs, ask.now);
    }
  }

  lemma YoungIsNotStale(one: Priced, other: Priced, now: Instant, maxAge: Duration)
    ensures maxAge / NANOS_PER_MILLI < U64_MAX ==>
              (AgeMs(one, now) <= Millis(maxAge) && AgeMs(other, now) <= Millis(maxAge)
               <==> BothYoung(one, other, now, maxAge))
  {
  }

  ghost predicate ClearsUnlessStale(size: nat, sell: Pool, buy: Pool, book: Book, costs: Costs, now: Instant)
    requires sell.address in book && buy.address in book
  {
    var (a, b) := (book[sell.address], book[buy.address]);
    var r := Evaluate(size, Side(sell.tag, a), Side(buy.tag, b), costs, now);
    if FreshEnough(a, b, now, costs.maxPriceAge)
    then r.Ok? || r == Err(TooSmallForTheFee) else r == Err(Stale)
  }

  lemma ClearingRoute(size: nat, sell: Pool, buy: Pool, book: Book, costs: Costs, now: Instant)
    requires size > 0 && sell.tag != buy.tag && sell.address in book && buy.address in book
    requires var (a, b) := (book[sell.address], book[buy.address]);
             && !(a.state.price < b.state.price)
             && 0 < GapBps(a, b) <= IMPLAUSIBLE_BPS
             && FeeBps(a.state) + FeeBps(b.state) + costs.marginBps <= GapBps(a, b)
    ensures ClearsUnlessStale(size, sell, buy, book, costs, now)
  {
  }
}
