/** The decision (src/bot/arb.rs) as functions of two prices, the costs and the
    moment. Prices are exact reals where the program uses f64. */
module Arb {
  import opened Prelude
  import opened Whirlpool

  const IMPLAUSIBLE_BPS: nat := 500

  datatype Priced = Priced(state: PoolState, slot: nat, at: Instant)

  datatype Costs = Costs(networkFee: u64, marginBps: nat, maxPriceAge: Duration)

  datatype Opportunity = Opportunity(
    sellOn: string, buyOn: string, inLamports: nat, grossBps: nat, netLamports: nat, stalenessMs: nat)

  datatype Decline =
    | NotATrade | Stale | WrongWayRound | Implausible | UnderFees | UnderMargin | TooSmallForTheFee

  /** One side of a trade: what the screen calls the pool, and its price. */
  datatype Side = Side(name: string, priced: Priced)

  /** How much dearer, in whole basis points. */
  function Bps(dear: real, cheap: real): int
    requires cheap > 0.0
  {
    ((dear / cheap - 1.0) * 10000.0).Floor
  }

  /** How far apart two prices are, dearer over cheaper; nothing without both. */
  function GapBps(one: Priced, other: Priced): nat
  {
    var (a, b) := (one.state.price, other.state.price);
    if a <= 0.0 || b <= 0.0 then 0 else
      var gap := if a > b then Bps(a, b) else Bps(b, a);
      if gap <= 0 then 0 else Min(gap, U64_MAX)
  }

  predicate FreshEnough(one: Priced, other: Priced, now: Instant, maxAge: Duration)
  {
    SatSub(now, one.at) <= maxAge && SatSub(now, other.at) <= maxAge
  }

  function Millis(span: Duration): nat { Min(span / NANOS_PER_MILLI, U64_MAX) }

  function Evaluate(inLamports: nat, sell: Side, buy: Side, costs: Costs, now: Instant): Result<Opportunity, Decline>
  {
    if inLamports == 0 || sell.name == buy.name then Err(NotATrade) else
    if !FreshEnough(sell.priced, buy.priced, now, costs.maxPriceAge) then Err(Stale) else
      var (dear, cheap) := (sell.priced.state.price, buy.priced.state.price);
      if !(dear > cheap) || cheap <= 0.0 then Err(WrongWayRound) else
        var grossBps := Bps(dear, cheap);
        if grossBps <= 0 then Err(WrongWayRound) else
        if grossBps > IMPLAUSIBLE_BPS then Err(Implausible) else
          var feeBps := FeeBps(sell.priced.state) + FeeBps(buy.priced.state);
          if grossBps < feeBps then Err(UnderFees) else
            var netBps := grossBps - feeBps;
            if netBps < costs.marginBps then Err(UnderMargin) else
              var gain := Min(inLamports * netBps / 10_000, U64_MAX);
              var net := SatSub(gain, costs.networkFee);
              if net == 0 then Err(TooSmallForTheFee) else
                var stalenessMs := Millis(SatSub(now, Min(sell.priced.at, buy.priced.at)));
                Ok(Opportunity(sell.name, buy.name, inLamports, grossBps, net, stalenessMs))
  }

  // ----- the gap -----

  lemma GapIsSymmetric(one: Priced, other: Priced)
    ensures GapBps(one, other) == GapBps(other, one)
  {
  }

  /** Selling the dear side, the direction's own gap is the reported one. */
  lemma GapOfTheDearSide(sell: Priced, buy: Priced)
    requires sell.state.price > buy.state.price > 0.0
    ensures GapBps(sell, buy) == Max(0, Min(Bps(sell.state.price, buy.state.price), U64_MAX))
  {
  }

  /** Trying both ways round finds the trade once: with no gap both ways are
      backwards; with a gap exactly one is, and the other is refused as
      implausible exactly when the gap is too wide. */
  lemma OneWayIsBackwards(size: nat, one: Side, other: Side, costs: Costs, now: Instant)
    requires size > 0 && one.name != other.name
    requires FreshEnough(one.priced, other.priced, now, costs.maxPriceAge)
    ensures var (r, q, gap) := (Evaluate(size, one, other, costs, now), Evaluate(size, other, one, costs, now),
                                GapBps(one.priced, other.priced));
            && (gap == 0 ==> r == q == Err(WrongWayRound))
            && (gap > 0 ==> (r == Err(WrongWayRound) <==> q != Err(WrongWayRound)))
            && (r == Err(Implausible) || q == Err(Implausible) <==> gap > IMPLAUSIBLE_BPS)
  {
  }

  /** What an accepted trade rests on. */
  lemma AcceptedFacts(size: nat, sell: Side, buy: Side, costs: Costs, now: Instant)
    requires Evaluate(size, sell, buy, costs, now).Ok?
    ensures var o := Evaluate(size, sell, buy, costs, now).value;
            && sell.name == o.sellOn && buy.name == o.buyOn && o.sellOn != o.buyOn
            && o.inLamports == size > 0
            && FreshEnough(sell.priced, buy.priced, now, costs.maxPriceAge)
            && sell.priced.state.price > buy.priced.state.price > 0.0
            && o.grossBps == GapBps(sell.priced, buy.priced)
            && 0 < o.grossBps <= IMPLAUSIBLE_BPS
            && FeeBps(sell.priced.state) + FeeBps(buy.priced.state) + Max(1, costs.marginBps) <= o.grossBps
            && 0 < o.netLamports && o.netLamports + costs.networkFee <= U64_MAX
            && o.stalenessMs == Millis(Max(SatSub(now, sell.priced.at), SatSub(now, buy.priced.at)))
            && o.stalenessMs <= Millis(costs.maxPriceAge)
  {
  }

  // ----- what the trade is worth -----

  /** A pool fee as a fraction of the trade. */
  function FeeFraction(s: PoolState): real { s.feeRate as real / 1000000.0 }

  /** The round trip's gain per lamport with the fees taken off the gap. */
  function AdditiveTrip(sell: PoolState, buy: PoolState): real
    requires buy.price > 0.0
  {
    sell.price / buy.price - 1.0 - FeeFraction(sell) - FeeFraction(buy)
  }

  lemma CeilingFee(s: PoolState)
    ensures FeeFraction(s) * 10000.0 <= FeeBps(s) as real < FeeFraction(s) * 10000.0 + 1.0
  {
  }

  /** Floors only ever lose: net basis points are at most the additive trip. */
  lemma NetBpsBelowAdditive(sell: PoolState, buy: PoolState)
    requires buy.price > 0.0
    ensures (Bps(sell.price, buy.price) - FeeBps(sell) - FeeBps(buy)) as real
            <= AdditiveTrip(sell, buy) * 10000.0
  {
  }

  lemma GainBelow(size: nat, netBps: nat, trip: real)
    requires netBps as real <= trip * 10000.0
    ensures (size * netBps / 10_000) as real <= size as real * trip
  {
  }

  /** What is promised, the network fee included, never exceeds the size times
      the price ratio less one less both pool fees. */
  lemma ProfitBound(size: nat, sell: Side, buy: Side, costs: Costs, now: Instant)
    requires Evaluate(size, sell, buy, costs, now).Ok?
    ensures buy.priced.state.price > 0.0
    ensures var o := Evaluate(size, sell, buy, costs, now).value;
            (o.netLamports + costs.networkFee) as real
            <= size as real * AdditiveTrip(sell.priced.state, buy.priced.state)
  {
    AcceptedFacts(size, sell, buy, costs, now);
    var (s, b) := (sell.priced.state, buy.priced.state);
    var netBps := Bps(s.price, b.price) - FeeBps(s) - FeeBps(b);
    NetBpsBelowAdditive(s, b);
    GainBelow(size, netBps, AdditiveTrip(s, b));
  }

  /** A fresh, dearer side is sold exactly when the reported gap is plausible,
      covers both fees and the margin, and what is left of it on this size is
      more than the network fee; and that remainder is what is promised. */
  lemma AcceptsExactly(size: u64, sell: Side, buy: Side, costs: Costs, now: Instant)
    requires size > 0 && sell.name != buy.name
    requires FreshEnough(sell.priced, buy.priced, now, costs.maxPriceAge)
    requires sell.priced.state.price > buy.priced.state.price > 0.0
    ensures var (r, gap, fees) := (Evaluate(size, sell, buy, costs, now), GapBps(sell.priced, buy.priced),
                                   FeeBps(sell.priced.state) + FeeBps(buy.priced.state));
            && (r.Ok? <==>
                  && 0 < gap <= IMPLAUSIBLE_BPS && fees + costs.marginBps <= gap
                  && size * (gap - fees) / 10_000 > costs.networkFee)
            && (r.Ok? ==> r.value.netLamports == size * (gap - fees) / 10_000 - costs.networkFee)
  {
    var (gap, fees) := (GapBps(sell.priced, buy.priced), FeeBps(sell.priced.state) + FeeBps(buy.priced.state));
    GapOfTheDearSide(sell.priced, buy.priced);
    if 0 < gap <= IMPLAUSIBLE_BPS && fees <= gap {
      ShareFits(size, gap - fees);
    }
  }

  /** Which refusal it is, each exactly. With two pools that could trade and whose
      prices are fresh, they differ by where the reported gap stands
      against the plausible limit, the two fees, and the fees with the margin. */
  lemma RefusedExactly(size: u64, sell: Side, buy: Side, costs: Costs, now: Instant)
    ensures var (r, gap, fees) := (Evaluate(size, sell, buy, costs, now), GapBps(sell.priced, buy.priced),
                                   FeeBps(sell.priced.state) + FeeBps(buy.priced.state));
            var trade := size > 0 && sell.name != buy.name;
            var limit := costs.maxPriceAge;
            var recent := trade && now <= sell.priced.at + limit && now <= buy.priced.at + limit;
            var dearer := recent && sell.priced.state.price > buy.priced.state.price > 0.0 && gap > 0;
            && (r == Err(NotATrade) <==> !trade)
            && (r == Err(Stale) <==> trade && !recent)
            && (r == Err(WrongWayRound) <==> recent && !dearer)
            && (r == Err(Implausible) <==> dearer && gap > IMPLAUSIBLE_BPS)
            && (r == Err(UnderFees) <==> dearer && gap <= IMPLAUSIBLE_BPS && gap < fees)
            && (r == Err(UnderMargin) <==> dearer && gap <= IMPLAUSIBLE_BPS && fees <= gap < fees + costs.marginBps)
            && (r == Err(TooSmallForTheFee) <==>
                  && dearer && gap <= IMPLAUSIBLE_BPS && fees + costs.marginBps <= gap
                  && size * (gap - fees) < (costs.networkFee + 1) * 10_000)
  {
    var (gap, fees) := (GapBps(sell.priced, buy.priced), FeeBps(sell.priced.state) + FeeBps(buy.priced.state));
    if sell.priced.state.price > buy.priced.state.price > 0.0 {
      GapOfTheDearSide(sell.priced, buy.priced);
      if 0 < gap <= IMPLAUSIBLE_BPS && fees <= gap {
        ShareFits(size, gap - fees);
        ShareIsOver(size, gap - fees, costs.networkFee);
      }
    }
  }

  lemma ShareIsOver(size: u64, netBps: nat, fee: nat)
    ensures size * netBps / 10_000 > fee <==> size * netBps >= (fee + 1) * 10_000
  {
  }

  lemma ShareFits(size: u64, netBps: nat)
    requires netBps <= IMPLAUSIBLE_BPS
    ensures size * netBps / 10_000 <= U64_MAX
  {
    assert size * netBps <= size * 10_000;
  }

  /** What is promised is never more than three basis points and a lamport short
      of the additive trip: one lost to each of the three roundings. */
  lemma ProfitIsTight(size: u64, sell: Side, buy: Side, costs: Costs, now: Instant)
    requires Evaluate(size, sell, buy, costs, now).Ok?
    ensures buy.priced.state.price > 0.0
    ensures var o := Evaluate(size, sell, buy, costs, now).value;
            (o.netLamports + costs.networkFee) as real + 1.0
            > size as real * (AdditiveTrip(sell.priced.state, buy.priced.state) - 0.0003)
  {
    AcceptedFacts(size, sell, buy, costs, now);
    AcceptsExactly(size, sell, buy, costs, now);
    GapOfTheDearSide(sell.priced, buy.priced);
    var (s, b) := (sell.priced.state, buy.priced.state);
    NetBpsNearAdditive(s, b);
    GainAbove(size, Bps(s.price, b.price) - FeeBps(s) - FeeBps(b), AdditiveTrip(s, b));
  }

  lemma NetBpsNearAdditive(sell: PoolState, buy: PoolState)
    requires buy.price > 0.0
    ensures (Bps(sell.price, buy.price) - FeeBps(sell) - FeeBps(buy)) as real
            > AdditiveTrip(sell, buy) * 10000.0 - 3.0
  {
    CeilingFee(sell);
    CeilingFee(buy);
  }

  lemma GainAbove(size: nat, netBps: nat, trip: real)
    requires netBps as real > trip * 10000.0 - 3.0 && size > 0
    ensures (size * netBps / 10_000) as real + 1.0 > size as real * (trip - 0.0003)
  {
    var gain := size * netBps / 10_000;
    assert 10_000 * gain + 10_000 > size * netBps;
    assert 10000.0 * gain as real + 10000.0 > size as real * netBps as real by {
      assert (size * netBps) as real == size as real * netBps as real;
    }
    Lift(gain as real, size as real, netBps as real, trip);
  }

  lemma Lift(gain: real, size: real, netBps: real, trip: real)
    requires size > 0.0 && 10000.0 * gain + 10000.0 > size * netBps && netBps > trip * 10000.0 - 3.0
    ensures gain + 1.0 > size * (trip - 0.0003)
  {
    PositiveProduct(size, netBps - (trip * 10000.0 - 3.0));
    Expand(size, netBps, trip);
    LiftLinear(gain, size * netBps, size * trip, size);
  }

  lemma Expand(size: real, netBps: real, trip: real)
    ensures size * (netBps - (trip * 10000.0 - 3.0)) == size * netBps - 10000.0 * (size * trip) + 3.0 * size
    ensures size * (trip - 0.0003) == size * trip - 0.0003 * size
  {
  }

  lemma LiftLinear(gain: real, earned: real, whole: real, size: real)
    requires 10000.0 * gain + 10000.0 > earned && earned > 10000.0 * whole - 3.0 * size
    ensures gain + 1.0 > whole - 0.0003 * size
  {
  }

  // ----- from account bytes to the decision -----

  lemma FloorByProduct(t: real, y: real, n: int, r: real)
    requires y > 0.0 && t * y == n as real * y + r && 0.0 <= r < y
    ensures t.Floor == n
  {
    assert (t - n as real) * y == r;
    assert t - n as real == r / y;
  }

  lemma FloorOfRatio(x: nat, y: nat)
    requires y > 0
    ensures ((x as real / y as real - 1.0) * 10000.0).Floor == ((x - y) * 10_000) / y
  {
    var n, r := ((x - y) * 10_000) / y, ((x - y) * 10_000) % y;
    assert (x - y) * 10_000 == n * y + r;
    var q := x as real / y as real;
    assert q * y as real == x as real;
    assert (q - 1.0) * 10000.0 * y as real == (x as real - y as real) * 10000.0;
    RealProduct(n, y);
    FloorByProduct((q - 1.0) * 10000.0, y as real, n, r as real);
  }

  lemma RealProduct(n: int, y: int)
    ensures (n * y) as real == n as real * y as real
  {
  }

  /** Two accounts read with the same decimals are apart by exactly the integer
      `(s1^2 - s2^2) * 10^4 / s2^2`, whatever the decimals: they cancel. */
  lemma DecodedGap(s1: nat, s2: nat, decimalsA: int, decimalsB: int, one: Priced, other: Priced)
    requires s1 >= s2 > 0
    requires one.state.price == PriceOf(s1, decimalsA, decimalsB)
    requires other.state.price == PriceOf(s2, decimalsA, decimalsB)
    ensures GapBps(one, other) == Min((s1 * s1 - s2 * s2) * 10_000 / (s2 * s2), U64_MAX)
  {
    PriceIsPositive(s1, decimalsA, decimalsB);
    PriceIsPositive(s2, decimalsA, decimalsB);
    if s1 == s2 {
      EqualPricesNoGap(one, other);
      assert s1 * s1 - s2 * s2 == 0;
    } else {
      DearerBySquares(s1, s2, decimalsA, decimalsB);
      DecodedBps(s1, s2, decimalsA, decimalsB);
      SquaresGap(s1, s2);
    }
  }

  lemma EqualPricesNoGap(one: Priced, other: Priced)
    requires one.state.price == other.state.price
    ensures GapBps(one, other) == 0
  {
  }

  lemma SquaresGap(s1: nat, s2: nat)
    requires s1 >= s2 > 0
    ensures s2 * s2 > 0 && (s1 * s1 - s2 * s2) * 10_000 / (s2 * s2) >= 0
  {
  }

  lemma DearerBySquares(s1: nat, s2: nat, decimalsA: int, decimalsB: int)
    requires s1 > s2 > 0
    ensures PriceOf(s1, decimalsA, decimalsB) > PriceOf(s2, decimalsA, decimalsB)
  {
  }

  lemma PriceRatio(s1: nat, s2: nat, decimalsA: int, decimalsB: int)
    requires s2 > 0
    ensures PriceOf(s2, decimalsA, decimalsB) > 0.0 && s2 * s2 > 0
    ensures PriceOf(s1, decimalsA, decimalsB) / PriceOf(s2, decimalsA, decimalsB)
         == (s1 * s1) as real / (s2 * s2) as real
  {
  }

  lemma DecodedBps(s1: nat, s2: nat, decimalsA: int, decimalsB: int)
    requires s1 > s2 > 0
    ensures s2 * s2 > 0 && PriceOf(s2, decimalsA, decimalsB) > 0.0
    ensures Bps(PriceOf(s1, decimalsA, decimalsB), PriceOf(s2, decimalsA, decimalsB))
         == (s1 * s1 - s2 * s2) * 10_000 / (s2 * s2)
  {
    PriceRatio(s1, s2, decimalsA, decimalsB);
    var (x, y) := (s1 * s1, s2 * s2);
    FloorOfRatio(x, y);
  }

  /** A sibling whose tokens are the other way round reads as the reciprocal
      price, and is refused as implausible exactly from p^2 = 1.0501 on. */
  lemma ReciprocalIsImplausible(size: nat, sell: Side, buy: Side, costs: Costs, now: Instant)
    requires size > 0 && sell.name != buy.name
    requires FreshEnough(sell.priced, buy.priced, now, costs.maxPriceAge)
    requires sell.priced.state.price >= 1.0
    requires buy.priced.state.price == 1.0 / sell.priced.state.price
    ensures var p := sell.priced.state.price;
            Evaluate(size, sell, buy, costs, now) == Err(Implausible) <==> p * p >= 1.0501
  {
  }
}
