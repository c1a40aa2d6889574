/** The market table against the bot on one book: what a lane reports on a pair
    never exceeds what the pair's row shows. */
module ScreenVsBot {
  import opened Prelude
  import opened Whirlpool
  import opened Arb
  import opened Pools
  import opened Lanes
  import opened LaneRuns
  import Market

  /** Where the two pools stand among the pair's members. */
  lemma Places(pools: seq<Pool>, book: Book, pool: Pool, sib: Pool) returns (lo: nat, hi: nat)
    requires pool in pools && sib in Siblings(pools, pool) && pool.address in book && sib.address in book
    ensures var ms := Members(pools, pool.pair);
            && Market.Both(ms, book, lo, hi)
            && ((ms[lo] == pool && ms[hi] == sib) || (ms[lo] == sib && ms[hi] == pool))
            && Market.Between(ms, book, lo, hi) == GapTo(book, pool, sib)
  {
    var ms := Members(pools, pool.pair);
    SiblingsAre(pools, pool);
    FilterMembers(pools, (p: Pool) => p.pair == pool.pair);
    var i :| 0 <= i < |ms| && ms[i] == pool;
    var j :| 0 <= j < |ms| && ms[j] == sib;
    GapIsSymmetric(book[pool.address], book[sib.address]);
    lo, hi := Min(i, j), Max(i, j);
  }

  lemma ComparedIsBoth(pools: seq<Pool>, book: Book, pool: Pool, sib: Pool, row: Market.MarketRow, ask: Market.Ask)
    requires Market.RowRight(pools, book, ask, row) && row.pair == pool.pair
    requires pool in pools && sib in Siblings(pools, pool) && pool.address in book && sib.address in book
    ensures row.priced && GapTo(book, pool, sib) <= row.gapBps
  {
    var lo, hi := Places(pools, book, pool, sib);
    Market.RowIsWidest(pools, book, ask, row);
    assert Market.Both(Members(pools, row.pair), book, lo, hi);
  }

  /** Whatever a lane reports on a first look -- a trade's gap or only the widest
      plausible one -- the pair's row on the same book is priced and at least as
      wide, and so is the gross gap of the trade. */
  lemma ReportWithinRow(su: Setup, book: Book, ev: TriggerEvent, now: Instant, row: Market.MarketRow, ask: Market.Ask)
    requires Decide(su, book, ev, now).Some?
    requires Market.RowRight(su.pools, book, ask, row)
    requires row.pair == Decide(su, book, ev, now).value.pairLabel
    ensures var found := Decide(su, book, ev, now).value;
            && found.gapBps <= row.gapBps
            && row.priced
            && (found.opportunity.Some? ==> found.opportunity.value.grossBps <= row.gapBps)
  {
    var found, pool := Decide(su, book, ev, now).value, Find(su.pools, ev.pool).value;
    DecisionIsBestOnOffer(su, book, ev, now);
    var some :| some in Siblings(su.pools, pool) && Comparable(su, book, pool, some, now);
    ComparedIsBoth(su.pools, book, pool, some, row, ask);
    if found.opportunity.Some? {
      var best := found.opportunity.value;
      var s :| s in Siblings(su.pools, pool) && Offers(su, book, pool, s, now, best);
      OffersFacts(su, book, pool, s, now, best);
      ComparedIsBoth(su.pools, book, pool, s, row, ask);
    } else if found.gapBps > 0 {
      var s :| s in Siblings(su.pools, pool) && Comparable(su, book, pool, s, now) && GapTo(book, pool, s)
          == found.gapBps;
      ComparedIsBoth(su.pools, book, pool, s, row, ask);
    }
  }

  // ----- when the row clears with the bot, and when it does not -----

  /** With exactly two reporting pools the row is the bot's own comparison:
      whenever the bot would trade, the row is short of nothing and not stale. */
  lemma TwoPoolsAgree(su: Setup, book: Book, pool: Pool, sib: Pool, now: Instant, o: Opportunity, row: Market.MarketRow)
    requires pool in su.pools && sib in Siblings(su.pools, pool) && row.pair == pool.pair
    requires Offers(su, book, pool, sib, now, o)
    requires Market.RowRight(su.pools, book, Market.Ask(su.costs.marginBps, su.costs.maxPriceAge, now), row)
    requires row.poolsPriced == 2
    ensures row.shortByBps == 0 && !row.stale && row.gapBps == o.grossBps
  {
    var ask := Market.Ask(su.costs.marginBps, su.costs.maxPriceAge, now);
    OffersFacts(su, book, pool, sib, now, o);
    var lo, hi := Places(su.pools, book, pool, sib);
    OnlyRoute(su.pools, book, ask, row, lo, hi);
    GapIsSymmetric(book[pool.address], book[sib.address]);
    Market.StaleAgainstFresh(book[pool.address], book[sib.address], now, su.costs.maxPriceAge);
  }

  /** With two reporting pools there is one route, and the row is measured on it. */
  lemma OnlyRoute(pools: seq<Pool>, book: Book, ask: Market.Ask, row: Market.MarketRow, lo: nat, hi: nat)
    requires Market.RowRight(pools, book, ask, row) && row.poolsPriced == 2
    requires Market.Both(Members(pools, row.pair), book, lo, hi)
    ensures var ms := Members(pools, row.pair);
            row == Market.RowOf(row.pair, ms, book, ask, Market.Measured(ms, book, lo, hi, ask))
  {
    var i, j := Market.WidestRoute(pools, book, ask, row, lo, hi);
    OnlyOnePair(Members(pools, row.pair), book, lo, hi, i, j);
  }

  lemma OnlyOnePair(ms: seq<Pool>, book: Book, a: nat, b: nat, i: nat, j: nat)
    requires |Filter(ms, (p: Pool) => p.address in book)| == 2
    requires Market.Both(ms, book, a, b) && Market.Both(ms, book, i, j)
    ensures a == i && b == j
  {
    if a != i || b != j {
      var k := if a != i && a != j then a else b;
      ThreeReporting(ms, (p: Pool) => p.address in book, i, j, k);
    }
  }

  lemma {:induction false} ThreeReporting<T>(s: seq<T>, p: T -> bool, i: nat, j: nat, k: nat)
    requires i < |s| && j < |s| && k < |s| && i != j && j != k && i != k
    requires p(s[i]) && p(s[j]) && p(s[k])
    ensures |Filter(s, p)| >= 3
  {
    var n := |s| - 1;
    if i < n && j < n && k < n {
      ThreeReporting(Front(s), p, i, j, k);
    } else {
      var x := if i == n then j else i;
      var y := if k == n then j else k;
      assert x < n && y < n && x != y && p(Last(s));
      assert Front(s)[Min(x, y)] == s[Min(x, y)] && Front(s)[Max(x, y)] == s[Max(x, y)];
      Market.TwoReporting(Front(s), p);
    }
  }

  // ----- which pairs the row always follows the bot on -----

  /** The row the screen shows at the bot's own margin, age limit and moment. */
  ghost predicate RowNow(su: Setup, book: Book, now: Instant, row: Market.MarketRow) {
    Market.RowRight(su.pools, book, Market.Ask(su.costs.marginBps, su.costs.maxPriceAge, now), row)
  }

  /** Whatever the prices and the moment, the pair's row is short of nothing and
      not stale whenever the bot is offered a trade between two of its pools. */
  ghost predicate RowFollowsBot(su: Setup, pair: string) {
    forall book: Book, pool: Pool, sib: Pool, now: Instant, o: Opportunity, row: Market.MarketRow ::
      && pool in su.pools && sib in Siblings(su.pools, pool) && pool.pair == pair == row.pair
      && Offers(su, book, pool, sib, now, o) && RowNow(su, book, now, row)
      ==> row.shortByBps == 0 && !row.stale
  }

  /** Some plausible gap is wide enough for this size, margin and network fee. */
  predicate CanTrade(su: Setup) {
    su.costs.marginBps <= IMPLAUSIBLE_BPS && su.size * IMPLAUSIBLE_BPS / 10_000 > su.costs.networkFee
  }

  lemma OfferedCanTrade(su: Setup, book: Book, pool: Pool, sib: Pool, now: Instant, o: Opportunity)
    requires su.size <= U64_MAX && Offers(su, book, pool, sib, now, o)
    ensures CanTrade(su)
  {
    var (a, b) := (Side(pool.tag, book[pool.address]), Side(sib.tag, book[sib.address]));
    OffersFacts(su, book, pool, sib, now, o);
    if Forward(su, book, pool, sib, now) == Ok(o) {
      AcceptedCanTrade(su, a, b, now);
    } else {
      AcceptedCanTrade(su, b, a, now);
    }
  }

  lemma AcceptedCanTrade(su: Setup, sell: Side, buy: Side, now: Instant)
    requires su.size <= U64_MAX && Evaluate(su.size, sell, buy, su.costs, now).Ok?
    ensures CanTrade(su)
  {
    AcceptedFacts(su.size, sell, buy, su.costs, now);
    AcceptsExactly(su.size, sell, buy, su.costs, now);
    WiderEarnsMore(su.size, GapBps(sell.priced, buy.priced) - FeeBps(sell.priced.state) - FeeBps(buy.priced.state));
  }

  lemma WiderEarnsMore(size: nat, netBps: nat)
    requires netBps <= IMPLAUSIBLE_BPS
    ensures size * netBps / 10_000 <= size * IMPLAUSIBLE_BPS / 10_000
  {
    assert size * netBps <= size * IMPLAUSIBLE_BPS;
  }

  /** With two pools or fewer, a trade on offer means exactly two report. */
  lemma BothReport(su: Setup, book: Book, pool: Pool, sib: Pool, now: Instant, o: Opportunity, row: Market.MarketRow)
    requires pool in su.pools && sib in Siblings(su.pools, pool) && pool.pair == row.pair
    requires Offers(su, book, pool, sib, now, o) && RowNow(su, book, now, row)
    requires |Members(su.pools, row.pair)| <= 2
    ensures row.poolsPriced == 2
  {
    var ms := Members(su.pools, row.pair);
    var lo, hi := Places(su.pools, book, pool, sib);
    Market.ReportingPairs(ms, book);
    FilterMembers(ms, (p: Pool) => p.address in book);
  }

  function Account(sqrtPrice: nat, feeRate: nat, like: Pool): Priced {
    Priced(PoolState(PriceOf(sqrtPrice, like.decimalsA, like.decimalsB), feeRate), 1, 0)
  }

  /** Three pools of one pair report: the first two 500 basis points apart for
      no fee, the third a little dearer still and at the highest fee rate an
      account can hold. */
  function ThreeReport(ms: seq<Pool>): Book
    requires |ms| >= 3
  {
    map[ms[0].address := Account(2_900, 0, ms[0]), ms[1].address := Account(2_830, 0, ms[0]),
        ms[2].address := Account(2_902, 65_535, ms[0])]
  }

  ghost predicate Apart(ms: seq<Pool>) { forall i, j :: 0 <= i < j < |ms| ==> ms[i].address != ms[j].address }

  lemma ThreeGaps(ms: seq<Pool>)
    requires |ms| >= 3 && Apart(ms)
    ensures var book := ThreeReport(ms);
            && (forall i: nat, j: nat :: Market.Both(ms, book, i, j) <==> i < j < 3)
            && GapBps(book[ms[0].address], book[ms[1].address]) == 500
            && GapBps(book[ms[0].address], book[ms[2].address]) == 13
            && GapBps(book[ms[1].address], book[ms[2].address]) == 515
  {
    var (book, a, b) := (ThreeReport(ms), ms[0].decimalsA, ms[0].decimalsB);
    DecodedGap(2_900, 2_830, a, b, book[ms[0].address], book[ms[1].address]);
    DecodedGap(2_902, 2_900, a, b, book[ms[2].address], book[ms[0].address]);
    DecodedGap(2_902, 2_830, a, b, book[ms[2].address], book[ms[1].address]);
    GapIsSymmetric(book[ms[2].address], book[ms[0].address]);
    GapIsSymmetric(book[ms[2].address], book[ms[1].address]);
  }

  /** The row shows the route to the third pool, which its fee keeps from clearing. */
  lemma ThirdPoolRow(su: Setup, pair: string) returns (row: Market.MarketRow)
    requires DistinctAddresses(su.pools) && |Members(su.pools, pair)| >= 3
    ensures RowNow(su, ThreeReport(Members(su.pools, pair)), 0, row) && row.pair == pair
    ensures row.gapBps == 515 && row.shortByBps == 141 + su.costs.marginBps
  {
    var (ms, ask) := (Members(su.pools, pair), Market.Ask(su.costs.marginBps, su.costs.maxPriceAge, 0));
    var book := ThreeReport(ms);
    MembersAreApart(su.pools, pair);
    ThreeGaps(ms);
    assert Market.Both(ms, book, 1, 2);
    var best := Market.Measured(ms, book, 1, 2, ask);
    row := Market.RowOf(pair, ms, book, ask, best);
    ThirdIsWidest(ms);
    assert Market.BestSoFar(ms, book, ask, best, |ms|, 0);
  }

  lemma ThirdIsWidest(ms: seq<Pool>)
    requires |ms| >= 3 && Apart(ms)
    ensures Market.FirstWidest(ms, ThreeReport(ms), 1, 2, |ms|, 0)
  {
    ThreeGaps(ms);
  }

  lemma MembersAreApart(pools: seq<Pool>, pair: string)
    requires DistinctAddresses(pools)
    ensures Apart(Members(pools, pair))
  {
    forall i, j | 0 <= i < j < |Members(pools, pair)|
      ensures Members(pools, pair)[i].address != Members(pools, pair)[j].address
    {
      Market.MembersApart(pools, pair, i, j);
    }
  }

  /** On the same book the bot is offered the trade between the first two. */
  lemma FirstTwoTrade(su: Setup, pair: string) returns (o: Opportunity)
    requires su.size <= U64_MAX && CanTrade(su)
    requires DistinctAddresses(su.pools) && DistinctTags(su.pools) && |Members(su.pools, pair)| >= 3
    ensures var ms := Members(su.pools, pair);
            && ms[0] in su.pools && ms[1] in Siblings(su.pools, ms[0]) && ms[0].pair == pair
            && Offers(su, ThreeReport(ms), ms[0], ms[1], 0, o) && o.grossBps == 500
  {
    var ms := Members(su.pools, pair);
    var book := ThreeReport(ms);
    MembersAreApart(su.pools, pair);
    Market.MembersApart(su.pools, pair, 0, 1);
    SiblingsAre(su.pools, ms[0]);
    assert IsSibling(ms[0], ms[1]);
    ThreeGaps(ms);
    FirstTwoPrices(ms);
    AcceptsExactly(su.size, Side(ms[0].tag, book[ms[0].address]), Side(ms[1].tag, book[ms[1].address]), su.costs, 0);
    var r := Forward(su, book, ms[0], ms[1], 0);
    assert r.Ok?;
    o := r.value;
    OffersFacts(su, book, ms[0], ms[1], 0, o);
  }

  lemma FirstTwoPrices(ms: seq<Pool>)
    requires |ms| >= 3 && Apart(ms)
    ensures var book := ThreeReport(ms);
            && book[ms[0].address].state.price > book[ms[1].address].state.price > 0.0
            && FeeBps(book[ms[0].address].state) == FeeBps(book[ms[1].address].state) == 0
  {
    DearerBySquares(2_900, 2_830, ms[0].decimalsA, ms[0].decimalsB);
    PriceIsPositive(2_830, ms[0].decimalsA, ms[0].decimalsB);
  }

  /** Where the bot can trade at all, the row follows it on every book if and
      only if the pair has no third pool: a third one can widen the route shown
      until its fee no longer clears, while the bot trades the narrower one. */
  lemma RowFollowsPairsOfTwo(su: Setup, pair: string)
    requires su.size <= U64_MAX && DistinctAddresses(su.pools) && DistinctTags(su.pools)
    ensures RowFollowsBot(su, pair) <==> |Members(su.pools, pair)| <= 2 || !CanTrade(su)
  {
    if |Members(su.pools, pair)| <= 2 || !CanTrade(su) {
      forall book: Book, pool: Pool, sib: Pool, now: Instant, o: Opportunity, row: Market.MarketRow
        | && pool in su.pools && sib in Siblings(su.pools, pool) && pool.pair == pair == row.pair
          && Offers(su, book, pool, sib, now, o) && RowNow(su, book, now, row)
        ensures row.shortByBps == 0 && !row.stale
      {
        OfferedCanTrade(su, book, pool, sib, now, o);
        BothReport(su, book, pool, sib, now, o, row);
        TwoPoolsAgree(su, book, pool, sib, now, o, row);
      }
    } else {
      var ms := Members(su.pools, pair);
      var o := FirstTwoTrade(su, pair);
      var row := ThirdPoolRow(su, pair);
      assert Offers(su, ThreeReport(ms), ms[0], ms[1], 0, o) && RowNow(su, ThreeReport(ms), 0, row);
    }
  }
}
