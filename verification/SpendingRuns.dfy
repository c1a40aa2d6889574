/** What all lanes spend together, over every run: the cap of src/bot/config.rs
    is each lane's own. */
module SpendingRuns {
  import opened Prelude
  import opened Whirlpool
  import opened Arb
  import opened Pools
  import opened Lanes
  import opened LaneRuns
  import opened Execute
  import opened Ledgers
  import opened Engine
  import opened EngineRuns
  import ScreenVsBot

  function Spent(execs: map<string, ExecutionStats>): map<string, nat> { map l | l in execs :: execs[l].spent }

  lemma {:induction false} SumScaled(m: map<string, nat>, scaled: map<string, nat>, times: nat)
    requires scaled.Keys == m.Keys && forall k :: k in m ==> scaled[k] == m[k] * times
    ensures SumMap(scaled) == SumMap(m) * times
    decreases |m|
  {
    if m != map[] {
      var k :| k in m;
      SumRemove(m, k);
      SumRemove(scaled, k);
      SumScaled(m - {k}, scaled - {k}, times);
      Distributes(m[k], SumMap(m - {k}), times);
    }
  }

  lemma Distributes(a: nat, b: nat, times: nat)
    ensures (a + b) * times == a * times + b * times
  {
  }

  lemma {:induction false} SumBounded(m: map<string, nat>, bound: nat)
    requires forall k :: k in m ==> m[k] <= bound
    ensures SumMap(m) <= |m| * bound
    decreases |m|
  {
    if m != map[] {
      var k :| k in m;
      SumRemove(m, k);
      SumBounded(m - {k}, bound);
      OneLess(m, k, bound);
    }
  }

  lemma {:induction false} SumOfSame(m: map<string, nat>, value: nat)
    requires forall k :: k in m ==> m[k] == value
    ensures SumMap(m) == |m| * value
    decreases |m|
  {
    if m != map[] {
      var k :| k in m;
      SumRemove(m, k);
      SumOfSame(m - {k}, value);
      OneLess(m, k, value);
    }
  }

  lemma OneLess(m: map<string, nat>, k: string, value: nat)
    requires k in m
    ensures |m| * value == |m - {k}| * value + value
  {
    assert m.Keys == (m - {k}).Keys + {k};
    assert |m| == |m.Keys| && |m - {k}| == |(m - {k}).Keys|;
    Distributes(|m - {k}|, 1, value);
  }

  /** Over every run, all lanes together have spent the ledger's sends times the
      size of an attempt; and below the top of the 64-bit range that is at most
      one cap for every lane. */
  lemma TotalSpent(c: Session, lanes: set<string>, arrivals: seq<Arrival>)
    ensures var s := AfterArrivals(c, lanes, arrivals);
            && SumMap(Spent(s.execs)) == TotalsOf(s.history).sent * c.limits.perAttempt
            && (c.limits.sessionCap < U64_MAX ==> SumMap(Spent(s.execs)) <= |lanes| * c.limits.sessionCap)
  {
    var s := AfterArrivals(c, lanes, arrivals);
    LanesAlwaysBalance(c, lanes, arrivals, false);
    SameLanes(c, lanes, arrivals);
    SpentIsSent(c, s);
    if c.limits.sessionCap < U64_MAX {
      SpentIsCapped(c, s);
      assert |s.bots| == |s.bots.Keys|;
    }
  }

  lemma SpentIsSent(c: Session, s: System)
    requires SystemBalances(c, s, false)
    ensures SumMap(Spent(s.execs)) == Number(s.history, Is(Realised)) * c.limits.perAttempt
  {
    SharesOf(c, s, false);
    SentAndOffered(c, s, false);
    SumScaled(map l | l in s.execs :: s.execs[l].sent, Spent(s.execs), c.limits.perAttempt);
  }

  lemma SpentIsCapped(c: Session, s: System)
    requires SystemBalances(c, s, false) && c.limits.sessionCap < U64_MAX
    ensures SumMap(Spent(s.execs)) <= |s.bots| * c.limits.sessionCap
  {
    SharesOf(c, s, false);
    SumBounded(Spent(s.execs), c.limits.sessionCap);
    assert Spent(s.execs).Keys == s.bots.Keys;
    assert |Spent(s.execs)| == |Spent(s.execs).Keys| && |s.bots| == |s.bots.Keys|;
  }

  // ----- the bound is reached -----

  /** The transaction touches one pool, and whoever looks at it first on this book
      finds a trade. */
  ghost predicate Tempts(su: Setup, book: Book, tx: Races.SeenTx, pool: Pubkey) {
    && Touched(su.pools, tx.accountKeys) == [pool]
    && Decide(su, book, EventOn(tx, pool), 0).Some?
    && Decide(su, book, EventOn(tx, pool), 0).value.opportunity.Some?
  }

  /** A live session whose cap is just one attempt. */
  ghost predicate OneShot(c: Session) {
    && c.mode != DryRun && c.wallet <= c.limits.maxWallet
    && 0 < c.limits.perAttempt == c.limits.sessionCap < U64_MAX
  }

  const SENT: Moment := Moment(0, false, Some(Sent("")))

  function OneEach(order: seq<string>, tx: Races.SeenTx, book: Book): seq<Arrival> {
    seq(|order|, i requires 0 <= i < |order| => Arrival(order[i], tx, book, _ => SENT))
  }

  /** A fresh lane that is tempted sends once, and that is its cap. */
  lemma FreshLaneSends(c: Session, lane: string, book: Book, tx: Races.SeenTx, pool: Pubkey, h: seq<Trade>)
    requires OneShot(c) && Tempts(c.su, book, tx, pool)
    ensures var out := LookedAt(c, lane, Desk(FRESH_LANE, Some(NO_EXECUTION), h, []), book, tx, [pool], _ => SENT);
            out.exec.Some? && out.exec.value.spent == c.limits.sessionCap
  {
    var d := Desk(FRESH_LANE, Some(NO_EXECUTION), h, []);
    assert Front([pool]) == [];
    assert LookedAt(c, lane, d, book, tx, [], _ => SENT) == d;
    assert Answer(c.su, FRESH_LANE, book, EventOn(tx, pool), 0) == Decide(c.su, book, EventOn(tx, pool), 0);
  }

  /** After one transaction each, the lanes that had theirs have spent the cap. */
  ghost predicate SpentUpTo(c: Session, lanes: set<string>, order: seq<string>, s: System) {
    && s.bots.Keys == lanes && s.execs.Keys == lanes
    && forall l :: l in lanes ==>
         if l in order then s.execs[l].spent == c.limits.sessionCap
         else s.bots[l] == FRESH_LANE && s.execs[l] == NO_EXECUTION
  }

  lemma {:induction false} EachSpendsItsCap(c: Session, lanes: set<string>, order: seq<string>, book: Book,
                                            tx: Races.SeenTx, pool: Pubkey)
    requires OneShot(c) && Tempts(c.su, book, tx, pool)
    requires NoDuplicates(order) && forall l :: l in order ==> l in lanes
    ensures SpentUpTo(c, lanes, order, AfterArrivals(c, lanes, OneEach(order, tx, book)))
  {
    if order != [] {
      var lane := Last(order);
      assert order == Front(order) + [lane] && lane in order && lane !in Front(order);
      EachSpendsItsCap(c, lanes, Front(order), book, tx, pool);
      assert Front(OneEach(order, tx, book)) == OneEach(Front(order), tx, book);
      OneMoreSpends(c, lanes, Front(order), lane, book, tx, pool,
                    AfterArrivals(c, lanes, OneEach(Front(order), tx, book)));
    }
  }

  lemma OneMoreSpends(c: Session, lanes: set<string>, order: seq<string>, lane: string, book: Book,
                      tx: Races.SeenTx, pool: Pubkey, s: System)
    requires OneShot(c) && Tempts(c.su, book, tx, pool)
    requires SpentUpTo(c, lanes, order, s) && lane in lanes && lane !in order
    ensures SpentUpTo(c, lanes, order + [lane], Offered(c, s, Arrival(lane, tx, book, _ => SENT)))
  {
    FreshLaneSends(c, lane, book, tx, pool, s.history);
  }

  lemma {:induction false} InSomeOrder(lanes: set<string>) returns (order: seq<string>)
    ensures NoDuplicates(order) && forall l :: l in order <==> l in lanes
    decreases lanes
  {
    order := [];
    if lanes != {} {
      var l :| l in lanes;
      var rest := InSomeOrder(lanes - {l});
      order := rest + [l];
    }
  }

  /** In a live session whose cap is one attempt, and which can be tempted at all,
      the lanes together can spend one cap each: the bound is reached. */
  lemma OneCapEach(c: Session, lanes: set<string>, book: Book, tx: Races.SeenTx, pool: Pubkey)
    requires OneShot(c) && Tempts(c.su, book, tx, pool)
    ensures exists arrivals ::
              SumMap(Spent(AfterArrivals(c, lanes, arrivals).execs)) == |lanes| * c.limits.sessionCap
  {
    var order := InSomeOrder(lanes);
    EachSpendsItsCap(c, lanes, order, book, tx, pool);
    var s := AfterArrivals(c, lanes, OneEach(order, tx, book));
    assert Spent(s.execs).Keys == lanes;
    SumOfSame(Spent(s.execs), c.limits.sessionCap);
  }

  /** A session that can be tempted: two pools 500 basis points apart. */
  const POOLS: seq<Pool> := [Pool("p", "A", "a", 9, 6), Pool("p", "B", "b", 9, 6)]
  const PRICES: Book :=
    map["A" := ScreenVsBot.Account(2_900, 0, POOLS[0]), "B" := ScreenVsBot.Account(2_830, 0, POOLS[0])]
  const TX: Races.SeenTx := Races.SeenTx("s", 1, 0, ["A"])
  const LIVE: Session :=
    Session(Setup(POOLS, Costs(5_000, 5, 0), 250_000_000), BotLimits(250_000_000, 250_000_000, 0), Live, 0, 0)

  lemma OfferedOnA(o: Opportunity)
    requires Forward(LIVE.su, PRICES, POOLS[0], POOLS[1], 0) == Ok(o)
    ensures Tempts(LIVE.su, PRICES, TX, "A")
  {
    assert Find(POOLS, "A") == Some(POOLS[0]);
    assert Front(["A"]) == [];
    assert Touched(POOLS, ["A"]) == ["A"];
    SiblingsAre(POOLS, POOLS[0]);
    assert POOLS[1] in Siblings(POOLS, POOLS[0]);
    DecisionIsBestOnOffer(LIVE.su, PRICES, EventOn(TX, "A"), 0);
    OffersFacts(LIVE.su, PRICES, POOLS[0], POOLS[1], 0, o);
    assert Offers(LIVE.su, PRICES, POOLS[0], POOLS[1], 0, o);
  }

  /** So it happens: on these two pools, any number of lanes spends a cap each. */
  lemma CapIsPerLane(lanes: set<string>)
    ensures exists arrivals ::
              SumMap(Spent(AfterArrivals(LIVE, lanes, arrivals).execs)) == |lanes| * LIVE.limits.sessionCap
  {
    var (a, b) := (PRICES["A"], PRICES["B"]);
    DecodedGap(2_900, 2_830, 9, 6, a, b);
    DearerBySquares(2_900, 2_830, 9, 6);
    PriceIsPositive(2_830, 9, 6);
    AcceptsExactly(250_000_000, Side("a", a), Side("b", b), LIVE.su.costs, 0);
    OfferedOnA(Forward(LIVE.su, PRICES, POOLS[0], POOLS[1], 0).value);
    OneCapEach(LIVE, lanes, PRICES, TX, "A");
  }
}
