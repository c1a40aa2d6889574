/** What a trade is promised to be worth against what its two legs earn once the
    pool fees compound (src/bot/arb.rs:122-140). */
module Promises {
  import opened Prelude
  import opened Whirlpool
  import opened Arb

  /** The round trip's gain per lamport as the two legs really compound. */
  function CompoundTrip(sell: PoolState, buy: PoolState): real
    requires buy.price > 0.0
  {
    sell.price / buy.price * (1.0 - FeeFraction(sell)) * (1.0 - FeeFraction(buy)) - 1.0
  }

  /** The additive figure overstates the compounded trip, by at most the gap
      times the fees. */
  lemma CompoundingGap(sell: PoolState, buy: PoolState)
    requires buy.price > 0.0
    ensures var (q, f, g) := (sell.price / buy.price, FeeFraction(sell), FeeFraction(buy));
            AdditiveTrip(sell, buy) - CompoundTrip(sell, buy) == (q - 1.0) * (f + g) - q * f * g
  {
  }

  /** An accepted gap is under 501 basis points. */
  lemma AcceptedRatio(size: nat, sell: Side, buy: Side, costs: Costs, now: Instant)
    requires Evaluate(size, sell, buy, costs, now).Ok?
    ensures buy.priced.state.price > 0.0
    ensures 1.0 < sell.priced.state.price / buy.priced.state.price < 1.0501
  {
  }

  /** The additive figure overstates what the size earns once the fees compound
      by at most the size times the gap times the fees. */
  lemma CompoundBound(size: nat, s: PoolState, b: PoolState)
    requires b.price > 0.0 && s.price / b.price > 0.0
    ensures size as real * AdditiveTrip(s, b)
         <= size as real * (CompoundTrip(s, b) + (s.price / b.price - 1.0) * (FeeFraction(s) + FeeFraction(b)))
  {
  }

  lemma AdditiveBelow(s: PoolState, b: PoolState)
    requires b.price > 0.0 && s.price / b.price > 0.0
    ensures AdditiveTrip(s, b)
         <= CompoundTrip(s, b) + (s.price / b.price - 1.0) * (FeeFraction(s) + FeeFraction(b))
  {
  }

  lemma WhatIsLeft(additive: real, compound: real, gap: real, fees: real)
    requires 0.0 <= gap <= 0.0501 && 0.0 <= fees <= 0.0476
    requires 0.0024 <= additive <= compound + gap * fees
    ensures compound > 0.0
  {
    var eaten := gap * fees;
    assert eaten <= 0.0501 * fees;
    assert 0.0501 * fees <= 0.00238476;
  }

  /** The accepted gap covers both fees by the margin, and is plausible. */
  lemma AcceptedFees(size: nat, sell: Side, buy: Side, costs: Costs, now: Instant)
    requires Evaluate(size, sell, buy, costs, now).Ok? && costs.marginBps >= 24
    ensures var (s, b) := (sell.priced.state, buy.priced.state);
            && s.price > b.price > 0.0 && Bps(s.price, b.price) <= IMPLAUSIBLE_BPS
            && 0.0 <= FeeFraction(s) + FeeFraction(b) <= 0.0476
            && AdditiveTrip(s, b) >= 0.0024
  {
    AcceptedFacts(size, sell, buy, costs, now);
    CeilingFee(sell.priced.state);
    CeilingFee(buy.priced.state);
    NetBpsBelowAdditive(sell.priced.state, buy.priced.state);
  }

  /** A margin of 24 basis points is enough for the compounded trip to gain. */
  lemma MarginCoversCompounding(size: nat, sell: Side, buy: Side, costs: Costs, now: Instant)
    requires Evaluate(size, sell, buy, costs, now).Ok? && costs.marginBps >= 24
    ensures buy.priced.state.price > 0.0
    ensures CompoundTrip(sell.priced.state, buy.priced.state) > 0.0
  {
    var (s, b) := (sell.priced.state, buy.priced.state);
    AcceptedFees(size, sell, buy, costs, now);
    AcceptedRatio(size, sell, buy, costs, now);
    SomethingIsLeft(s, b);
  }

  lemma SomethingIsLeft(s: PoolState, b: PoolState)
    requires b.price > 0.0 && 1.0 < s.price / b.price < 1.0501
    requires FeeFraction(s) + FeeFraction(b) <= 0.0476 && AdditiveTrip(s, b) >= 0.0024
    ensures CompoundTrip(s, b) > 0.0
  {
    AdditiveBelow(s, b);
    WhatIsLeft(AdditiveTrip(s, b), CompoundTrip(s, b), s.price / b.price - 1.0, FeeFraction(s) + FeeFraction(b));
  }

  ghost predicate AlwaysGains(marginBps: nat) {
    forall size: nat, sell: Side, buy: Side, costs: Costs, now: Instant ::
      costs.marginBps == marginBps && Evaluate(size, sell, buy, costs, now).Ok? && buy.priced.state.price > 0.0
      ==> CompoundTrip(sell.priced.state, buy.priced.state) > 0.0
  }

  /** Two accounts whose prices are apart by 1.05 and no more than a rounding:
      twenty squares of the one are twenty-one of the other, and twenty. */
  const DEAR_SQRT: nat := 22_592_641
  const CHEAP_SQRT: nat := 22_048_160

  function Dear(feeRate: nat): Side { Side("dear", Priced(PoolState(PriceOf(DEAR_SQRT, 0, 0), feeRate), 1, 0)) }

  function Cheap(feeRate: nat): Side { Side("cheap", Priced(PoolState(PriceOf(CHEAP_SQRT, 0, 0), feeRate), 1, 0)) }

  lemma WorstGap(dearRate: nat, cheapRate: nat)
    ensures var (s, b) := (Dear(dearRate).priced, Cheap(cheapRate).priced);
            && s.state.price > b.state.price > 0.0
            && GapBps(s, b) == IMPLAUSIBLE_BPS
            && 1.05 < s.state.price / b.state.price < 1.05 + 0.000000000000009
  {
    var (s, b) := (Dear(dearRate).priced, Cheap(cheapRate).priced);
    DecodedGap(DEAR_SQRT, CHEAP_SQRT, 0, 0, s, b);
    PriceIsPositive(CHEAP_SQRT, 0, 0);
    DearerBySquares(DEAR_SQRT, CHEAP_SQRT, 0, 0);
    PriceRatio(DEAR_SQRT, CHEAP_SQRT, 0, 0);
  }

  /** On ten thousand lamports the worst gap is promised to bring what is left
      of it once the ceiling fees are off, whatever the margin asked. */
  lemma WorstPromise(dearRate: nat, cheapRate: nat, marginBps: nat)
    requires CeilingFees(dearRate, cheapRate) + Max(1, marginBps) <= IMPLAUSIBLE_BPS
    ensures var r := Evaluate(10_000, Dear(dearRate), Cheap(cheapRate), Costs(0, marginBps, 0), 0);
            r.Ok? && r.value.netLamports == IMPLAUSIBLE_BPS - CeilingFees(dearRate, cheapRate)
  {
    WorstGap(dearRate, cheapRate);
    AcceptsExactly(10_000, Dear(dearRate), Cheap(cheapRate), Costs(0, marginBps, 0), 0);
  }

  /** 24 basis points is exactly the margin at which every accepted trade gains
      before the network fee once the fees compound: with any smaller margin a
      500 basis point gap against one fee of 477 is accepted at a loss. */
  lemma BreakEvenMargin(marginBps: nat)
    ensures AlwaysGains(marginBps) <==> marginBps >= 24
  {
    if marginBps >= 24 {
      forall size: nat, sell: Side, buy: Side, costs: Costs, now: Instant
        | costs.marginBps == marginBps && Evaluate(size, sell, buy, costs, now).Ok? && buy.priced.state.price > 0.0
        ensures CompoundTrip(sell.priced.state, buy.priced.state) > 0.0
      {
        MarginCoversCompounding(size, sell, buy, costs, now);
      }
    } else {
      WorstGap(47_700, 0);
      WorstPromise(47_700, 0, marginBps);
      assert Evaluate(10_000, Dear(47_700), Cheap(0), Costs(0, marginBps, 0), 0).Ok?;
      assert CompoundTrip(Dear(47_700).priced.state, Cheap(0).priced.state) < 0.0;
    }
  }

  // ----- when the promise is never too much -----

  /** Both pool fees in whole basis points, each rounded up. */
  function CeilingFees(sellRate: nat, buyRate: nat): nat { (sellRate + 99) / 100 + (buyRate + 99) / 100 }

  /** No trade between pools with these two fee rates is ever promised more than
      its legs earn, the network fee included. */
  ghost predicate NeverOverstates(sellRate: nat, buyRate: nat, marginBps: nat) {
    forall size: u64, sell: Side, buy: Side, costs: Costs, now: Instant ::
      && costs.marginBps == marginBps && buy.priced.state.price > 0.0
      && sell.priced.state.feeRate == sellRate && buy.priced.state.feeRate == buyRate
      && Evaluate(size, sell, buy, costs, now).Ok?
      ==> (Evaluate(size, sell, buy, costs, now).value.netLamports + costs.networkFee) as real
          <= size as real * CompoundTrip(sell.priced.state, buy.priced.state)
  }

  /** What is left of a million millions after both fees. */
  function Parts(sellRate: nat, buyRate: nat): int { (1_000_000 - sellRate) * (1_000_000 - buyRate) }

  /** Both fees and the margin leave no plausible gap; or what rounding the fees
      up adds to them makes up for what compounding takes at the widest one. */
  predicate RoundingCovers(sellRate: nat, buyRate: nat, marginBps: nat) {
    var fees := CeilingFees(sellRate, buyRate);
    || fees + Max(1, marginBps) > IMPLAUSIBLE_BPS
    || 105 * Parts(sellRate, buyRate) - 100_000_000_000_000 >= (IMPLAUSIBLE_BPS - fees) * 10_000_000_000
  }

  function Kept(sellRate: nat, buyRate: nat): real { Parts(sellRate, buyRate) as real / 1000000000000.0 }

  lemma CompoundIsKept(s: PoolState, b: PoolState)
    requires b.price > 0.0
    ensures CompoundTrip(s, b) == s.price / b.price * Kept(s.feeRate, b.feeRate) - 1.0
  {
    var (x, y) := (1_000_000 - s.feeRate, 1_000_000 - b.feeRate);
    RealProduct(x, y);
    assert 1.0 - FeeFraction(s) == x as real / 1000000.0 && 1.0 - FeeFraction(b) == y as real / 1000000.0;
    InParts(s.price / b.price, x as real, y as real);
  }

  lemma InParts(q: real, x: real, y: real)
    ensures q * (x / 1000000.0) * (y / 1000000.0) == q * (x * y / 1000000000000.0)
  {
  }

  /** Small fees keep nearly everything, and never more than everything. */
  lemma KeptBounds(sellRate: nat, buyRate: nat)
    requires CeilingFees(sellRate, buyRate) <= IMPLAUSIBLE_BPS
    ensures 0 < Parts(sellRate, buyRate) <= 1_000_000_000_000 && 0.0 < Kept(sellRate, buyRate) <= 1.0
  {
    TwoShares(1_000_000 - sellRate, 1_000_000 - buyRate);
  }

  lemma TwoShares(x: nat, y: nat)
    requires 0 < x <= 1_000_000 && 0 < y <= 1_000_000
    ensures 0 < x * y <= 1_000_000_000_000
  {
    assert x * y <= x * 1_000_000;
  }

  /** The rule of the widest gap, as the trips see it. */
  lemma CoversInReals(parts: int, fees: nat)
    ensures var (kept, rest) := (parts as real / 1000000000000.0, (IMPLAUSIBLE_BPS - fees) as real / 10000.0);
            if 105 * parts - 100_000_000_000_000 >= (IMPLAUSIBLE_BPS - fees) * 10_000_000_000
            then 1.05 * kept - 1.0 >= rest else 1.05 * kept - 1.0 + 0.00000000000001 <= rest
  {
  }

  /** A gap that is narrower by `short` loses less to compounding than the widest. */
  lemma NarrowerIsCovered(kept: real, q: real, short: real, promised: real)
    requires 0.0 < kept <= 1.0 && short >= 0.0 && q >= 1.05 - short
    requires 1.05 * kept - 1.0 >= promised + short
    ensures q * kept - 1.0 >= promised
  {
    NotNegative(q - (1.05 - short), kept);
    NotNegative(short, 1.0 - kept);
  }

  /** What an accepted trade is promised, in terms of what its gap leaves after
      the ceiling fees. */
  lemma AcceptedGain(size: u64, sell: Side, buy: Side, costs: Costs, now: Instant) returns (netBps: nat, fees: nat)
    requires Evaluate(size, sell, buy, costs, now).Ok?
    ensures var (s, b, o) := (sell.priced.state, buy.priced.state, Evaluate(size, sell, buy, costs, now).value);
            && b.price > 0.0 && s.price / b.price >= 1.0 + (netBps + fees) as real / 10000.0
            && fees == CeilingFees(s.feeRate, b.feeRate)
            && fees + Max(1, costs.marginBps) <= netBps + fees <= IMPLAUSIBLE_BPS
            && o.netLamports + costs.networkFee == size * netBps / 10_000
  {
    AcceptedFacts(size, sell, buy, costs, now);
    AcceptsExactly(size, sell, buy, costs, now);
    GapOfTheDearSide(sell.priced, buy.priced);
    fees := CeilingFees(sell.priced.state.feeRate, buy.priced.state.feeRate);
    netBps := GapBps(sell.priced, buy.priced) - fees;
  }

  lemma CoveredParts(sellRate: nat, buyRate: nat, marginBps: nat, netBps: nat)
    requires RoundingCovers(sellRate, buyRate, marginBps)
    requires Max(1, marginBps) <= netBps && netBps + CeilingFees(sellRate, buyRate) <= IMPLAUSIBLE_BPS
    ensures 0 < Parts(sellRate, buyRate) <= 1_000_000_000_000
    ensures 105 * Parts(sellRate, buyRate) - 100_000_000_000_000
            >= (IMPLAUSIBLE_BPS - CeilingFees(sellRate, buyRate)) * 10_000_000_000
  {
    KeptBounds(sellRate, buyRate);
  }

  lemma CoveredIsNeverTooMuch(size: u64, sell: Side, buy: Side, costs: Costs, now: Instant)
    requires Evaluate(size, sell, buy, costs, now).Ok? && buy.priced.state.price > 0.0
    requires RoundingCovers(sell.priced.state.feeRate, buy.priced.state.feeRate, costs.marginBps)
    ensures (Evaluate(size, sell, buy, costs, now).value.netLamports + costs.networkFee) as real
            <= size as real * CompoundTrip(sell.priced.state, buy.priced.state)
  {
    var netBps, fees := AcceptedGain(size, sell, buy, costs, now);
    CoveredParts(sell.priced.state.feeRate, buy.priced.state.feeRate, costs.marginBps, netBps);
    CompoundCovers(size, sell.priced.state, buy.priced.state, fees, netBps,
                   Evaluate(size, sell, buy, costs, now).value.netLamports + costs.networkFee);
  }

  lemma CompoundCovers(size: nat, s: PoolState, b: PoolState, fees: nat, netBps: nat, promised: nat)
    requires 0 < Parts(s.feeRate, b.feeRate) <= 1_000_000_000_000
    requires 105 * Parts(s.feeRate, b.feeRate) - 100_000_000_000_000 >= (IMPLAUSIBLE_BPS - fees) * 10_000_000_000
    requires netBps + fees <= IMPLAUSIBLE_BPS && promised == size * netBps / 10_000
    requires b.price > 0.0 && s.price / b.price >= 1.0 + (netBps + fees) as real / 10000.0
    ensures promised as real <= size as real * CompoundTrip(s, b)
  {
    CompoundIsKept(s, b);
    TripCovers(CompoundTrip(s, b), s.price / b.price, Kept(s.feeRate, b.feeRate), Parts(s.feeRate, b.feeRate),
               fees, netBps);
    GainBelow(size, netBps, CompoundTrip(s, b));
  }

  lemma TripCovers(trip: real, q: real, kept: real, parts: int, fees: nat, netBps: nat)
    requires kept == parts as real / 1000000000000.0 && 0.0 < kept <= 1.0 && trip == q * kept - 1.0
    requires netBps + fees <= IMPLAUSIBLE_BPS && q >= 1.0 + (netBps + fees) as real / 10000.0
    requires 105 * parts - 100_000_000_000_000 >= (IMPLAUSIBLE_BPS - fees) * 10_000_000_000
    ensures netBps as real <= trip * 10000.0
  {
    CoversInReals(parts, fees);
    var short := (IMPLAUSIBLE_BPS - fees - netBps) as real / 10000.0;
    NarrowerIsCovered(kept, q, short, netBps as real / 10000.0);
  }

  lemma UncoveredIsTooMuch(sellRate: nat, buyRate: nat, marginBps: nat)
    requires !RoundingCovers(sellRate, buyRate, marginBps)
    ensures var r := Evaluate(10_000, Dear(sellRate), Cheap(buyRate), Costs(0, marginBps, 0), 0);
            && Cheap(buyRate).priced.state.price > 0.0
            && r.Ok? && r.value.netLamports == IMPLAUSIBLE_BPS - CeilingFees(sellRate, buyRate)
            && r.value.netLamports as real
               > 10000.0 * CompoundTrip(Dear(sellRate).priced.state, Cheap(buyRate).priced.state)
  {
    WorstPromise(sellRate, buyRate, marginBps);
    WorstGap(sellRate, buyRate);
    CompoundFallsShort(Dear(sellRate).priced.state, Cheap(buyRate).priced.state, marginBps);
  }

  lemma CompoundFallsShort(s: PoolState, b: PoolState, marginBps: nat)
    requires !RoundingCovers(s.feeRate, b.feeRate, marginBps)
    requires b.price > 0.0 && 1.05 < s.price / b.price < 1.05 + 0.000000000000009
    ensures (IMPLAUSIBLE_BPS - CeilingFees(s.feeRate, b.feeRate)) as real > 10000.0 * CompoundTrip(s, b)
  {
    CoversInReals(Parts(s.feeRate, b.feeRate), CeilingFees(s.feeRate, b.feeRate));
    KeptBounds(s.feeRate, b.feeRate);
    CompoundIsKept(s, b);
    JustOverTheWidest(s.price / b.price, Kept(s.feeRate, b.feeRate));
  }

  lemma JustOverTheWidest(q: real, kept: real)
    requires 1.05 < q < 1.05 + 0.000000000000009 && 0.0 < kept <= 1.0
    ensures q * kept < 1.05 * kept + 0.00000000000001
  {
    NotNegative(q - 1.05, 1.0 - kept);
  }

  /** The promise against the legs, exactly. Between two pools of given fee
      rates, every accepted trade on any book is promised at most what its legs
      earn if and only if rounding the fees up covers what compounding takes at
      the widest plausible gap; else two accounts just that far apart are promised
      more. */
  lemma PromiseNeverTooMuch(sellRate: nat, buyRate: nat, marginBps: nat)
    ensures NeverOverstates(sellRate, buyRate, marginBps) <==> RoundingCovers(sellRate, buyRate, marginBps)
  {
    if RoundingCovers(sellRate, buyRate, marginBps) {
      forall size: u64, sell: Side, buy: Side, costs: Costs, now: Instant
        | && costs.marginBps == marginBps && buy.priced.state.price > 0.0
          && sell.priced.state.feeRate == sellRate && buy.priced.state.feeRate == buyRate
          && Evaluate(size, sell, buy, costs, now).Ok?
        ensures (Evaluate(size, sell, buy, costs, now).value.netLamports + costs.networkFee) as real
                <= size as real * CompoundTrip(sell.priced.state, buy.priced.state)
      {
        CoveredIsNeverTooMuch(size, sell, buy, costs, now);
      }
    } else {
      UncoveredIsTooMuch(sellRate, buyRate, marginBps);
      var size: u64, costs := 10_000, Costs(0, marginBps, 0);
      assert (Evaluate(size, Dear(sellRate), Cheap(buyRate), costs, 0).value.netLamports + costs.networkFee) as real
             > size as real * CompoundTrip(Dear(sellRate).priced.state, Cheap(buyRate).priced.state);
    }
  }

  /** One input, with the fee rates of two of the watched pools and any margin
      up to 491: ten thousand lamports are promised 491 and earn less. */
  lemma PromisedTooMuch(marginBps: nat)
    requires marginBps <= 491
    ensures var r := Evaluate(10_000, Dear(400), Cheap(500), Costs(0, marginBps, 0), 0);
            && Cheap(500).priced.state.price > 0.0
            && r.Ok? && r.value.netLamports == 491
            && 10000.0 * CompoundTrip(Dear(400).priced.state, Cheap(500).priced.state) < 490.56
  {
    UncoveredIsTooMuch(400, 500, marginBps);
    WorstGap(400, 500);
    CompoundIsKept(Dear(400).priced.state, Cheap(500).priced.state);
    JustOverTheWidest(Dear(400).priced.state.price / Cheap(500).priced.state.price, Kept(400, 500));
  }
}
