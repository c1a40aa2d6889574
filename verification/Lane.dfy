/** One lane's bot (src/bot/lane.rs): a double loop over siblings and
    directions that keeps the best trade, and the counters it bumps. */
module Lanes {
  import opened Prelude
  import opened Whirlpool
  import opened Arb
  import opened Pools

  datatype TriggerEvent = TriggerEvent(pool: Pubkey, signature: string, slot: nat, at: Instant)

  datatype LaneStats = LaneStats(
    seen: nat, actionable: nat, duplicates: nat, noPrice: nat, implausible: nat, belowCost: nat,
    bestGapBps: nat, bestNetBps: nat, declined: map<Decline, nat>)

  const NO_STATS: LaneStats := LaneStats(0, 0, 0, 0, 0, 0, 0, 0, map[])

  datatype Found = Found(
    pool: Pubkey, poolLabel: string, gapBps: nat, opportunity: Option<Opportunity>,
    triggerSignature: string, slot: nat, decidedAt: Instant, lookedAt: Instant,
    pairLabel: string, route: string)

  /** What two lanes share: the pools, the costs and the size of a trade. */
  datatype Setup = Setup(pools: seq<Pool>, costs: Costs, size: nat)

  datatype LaneState = LaneState(acted: set<(string, Pubkey)>, stats: LaneStats)

  const FRESH_LANE: LaneState := LaneState({}, NO_STATS)

  function ArrowRoute(sell: string, buy: string): string { sell + " \U{2192} " + buy }

  function BarRoute(one: string, other: string): string { one + " | " + other }

  // ----- one sibling, and all of them, as folds -----

  datatype Best = NoBest | Best(opportunity: Opportunity, gap: nat, route: string)

  /** What a look has gathered so far. */
  datatype Look = Look(best: Best, widest: nat, widestRoute: string)

  const NOTHING_SEEN: Look := Look(NoBest, 0, "")

  function Better(best: Best, gap: nat, route: string, r: Result<Opportunity, Decline>): Best {
    if r.Ok? && (best.NoBest? || r.value.netLamports > best.opportunity.netLamports)
    then Best(r.value, gap, route) else best
  }

  function Tally(declined: map<Decline, nat>, r: Result<Opportunity, Decline>): map<Decline, nat> {
    if r.Err? && r.error != WrongWayRound then Bump(declined, r.error) else declined
  }

  /** Selling the pool that moved, and selling its sibling. */
  function Forward(su: Setup, book: Book, pool: Pool, sib: Pool, now: Instant): Result<Opportunity, Decline>
    requires pool.address in book && sib.address in book
  {
    Evaluate(su.size, Side(pool.tag, book[pool.address]), Side(sib.tag, book[sib.address]), su.costs, now)
  }

  function Backward(su: Setup, book: Book, pool: Pool, sib: Pool, now: Instant): Result<Opportunity, Decline>
    requires pool.address in book && sib.address in book
  {
    Evaluate(su.size, Side(sib.tag, book[sib.address]), Side(pool.tag, book[pool.address]), su.costs, now)
  }

  function GapTo(book: Book, pool: Pool, sib: Pool): nat
    requires pool.address in book && sib.address in book
  {
    GapBps(book[pool.address], book[sib.address])
  }

  predicate Comparable(su: Setup, book: Book, pool: Pool, sib: Pool, now: Instant) {
    && pool.address in book && sib.address in book
    && FreshEnough(book[pool.address], book[sib.address], now, su.costs.maxPriceAge)
  }

  function LookAt(look: Look, su: Setup, book: Book, pool: Pool, sib: Pool, now: Instant): Look
    requires Comparable(su, book, pool, sib, now)
  {
    var gap := GapTo(book, pool, sib);
    var wider := gap > look.widest && gap <= IMPLAUSIBLE_BPS;
    Look(
      Better(Better(look.best, gap, ArrowRoute(pool.tag, sib.tag), Forward(su, book, pool, sib, now)),
             gap, ArrowRoute(sib.tag, pool.tag), Backward(su, book, pool, sib, now)),
      if wider then gap else look.widest,
      if wider then BarRoute(pool.tag, sib.tag) else look.widestRoute)
  }

  function CountAt(stats: LaneStats, su: Setup, book: Book, pool: Pool, sib: Pool, now: Instant): LaneStats
    requires Comparable(su, book, pool, sib, now)
  {
    var gap := GapTo(book, pool, sib);
    var fees := FeeBps(book[pool.address].state) + FeeBps(book[sib.address].state);
    var gapped := if gap <= IMPLAUSIBLE_BPS
                  then stats.(bestGapBps := Max(stats.bestGapBps, gap),
                              bestNetBps := Max(stats.bestNetBps, SatSub(gap, fees)))
                  else stats.(implausible := stats.implausible + 1);
    gapped.(declined := Tally(Tally(stats.declined, Forward(su, book, pool, sib, now)),
                              Backward(su, book, pool, sib, now)))
  }

  function ComparableOf(su: Setup, book: Book, pool: Pool, sibs: seq<Pool>, now: Instant): seq<Pool> {
    Filter(sibs, (s: Pool) => Comparable(su, book, pool, s, now))
  }

  function LookOver(su: Setup, book: Book, pool: Pool, cs: seq<Pool>, now: Instant): Look
    requires forall s :: s in cs ==> Comparable(su, book, pool, s, now)
  {
    if cs == [] then NOTHING_SEEN else
      assert Last(cs) in cs;
      LookAt(LookOver(su, book, pool, Front(cs), now), su, book, pool, Last(cs), now)
  }

  function CountOver(stats: LaneStats, su: Setup, book: Book, pool: Pool, cs: seq<Pool>, now: Instant): LaneStats
    requires forall s :: s in cs ==> Comparable(su, book, pool, s, now)
  {
    if cs == [] then stats else
      assert Last(cs) in cs;
      CountAt(CountOver(stats, su, book, pool, Front(cs), now), su, book, pool, Last(cs), now)
  }

  /** The siblings a trigger on `pool` is compared with, in listed order. */
  function Peers(su: Setup, book: Book, pool: Pool, now: Instant): (cs: seq<Pool>)
    ensures forall s :: s in cs ==> Comparable(su, book, pool, s, now)
    ensures forall s :: s in cs <==> s in Siblings(su.pools, pool) && Comparable(su, book, pool, s, now)
  {
    FilterMembers(Siblings(su.pools, pool), (s: Pool) => Comparable(su, book, pool, s, now));
    ComparableOf(su, book, pool, Siblings(su.pools, pool), now)
  }

  lemma NoPeers(su: Setup, book: Book, pool: Pool, now: Instant)
    requires pool.address !in book
    ensures Peers(su, book, pool, now) == []
  {
    FilterNone(Siblings(su.pools, pool), (s: Pool) => Comparable(su, book, pool, s, now));
  }

  function Concluded(pool: Pool, look: Look, ev: TriggerEvent, now: Instant): Found {
    var (opportunity, gap, route) :=
      match look.best
      case Best(o, g, r) => (Some(o), g, r)
      case NoBest => (None, look.widest, look.widestRoute);
    Found(pool.address, pool.tag, gap, opportunity, ev.signature, ev.slot, ev.at, now, pool.pair, route)
  }

  /** The decision on a first look: a function of the shared setup, the book and
      the moment, and of nothing the lane remembers. */
  function Decide(su: Setup, book: Book, ev: TriggerEvent, now: Instant): Option<Found> {
    var found := Find(su.pools, ev.pool);
    if found.None? then None else
      var pool := found.value;
      var cs := Peers(su, book, pool, now);
      if cs == [] then None else
        Some(Concluded(pool, LookOver(su, book, pool, cs, now), ev, now))
  }

  /** The counters after one pool is judged. */
  function Tallied(su: Setup, stats: LaneStats, book: Book, pool: Pool, now: Instant): LaneStats {
    var cs := Peers(su, book, pool, now);
    if cs == [] then stats.(noPrice := stats.noPrice + 1) else
      var counted := CountOver(stats, su, book, pool, cs, now);
      if LookOver(su, book, pool, cs, now).best.Best?
      then counted.(actionable := counted.actionable + 1)
      else counted.(belowCost := counted.belowCost + 1)
  }

  /** A trigger's whole effect on the lane. */
  function Triggered(su: Setup, st: LaneState, book: Book, ev: TriggerEvent, now: Instant): LaneState {
    if (ev.signature, ev.pool) in st.acted
    then st.(stats := st.stats.(duplicates := st.stats.duplicates + 1)) else
      var stats := st.stats.(seen := st.stats.seen + 1);
      var found := Find(su.pools, ev.pool);
      LaneState(
        st.acted + {(ev.signature, ev.pool)},
        if found.None? then stats else Tallied(su, stats, book, found.value, now))
  }

  /** What the lane answers: nothing on a repeat, else the decision. */
  function Answer(su: Setup, st: LaneState, book: Book, ev: TriggerEvent, now: Instant): Option<Found> {
    if (ev.signature, ev.pool) in st.acted then None else Decide(su, book, ev, now)
  }

  class LaneBot {
    const name: string
    const su: Setup
    const prices: PriceBook
    var acted: set<(string, Pubkey)>
    var stats: LaneStats

    ghost function State(): LaneState
      reads this
    {
      LaneState(acted, stats)
    }

    constructor (name: string, su: Setup, prices: PriceBook)
      ensures this.name == name && this.su == su && this.prices == prices
      ensures State() == FRESH_LANE
    {
      this.name, this.su, this.prices := name, su, prices;
      acted, stats := {}, NO_STATS;
    }

    /** A repeat is only counted; a first look answers with the decision. */
    method OnTrigger(ev: TriggerEvent, now: Instant) returns (r: Option<Found>)
      modifies this
      ensures State() == Triggered(su, old(State()), prices.inner, ev, now)
      ensures r == Answer(su, old(State()), prices.inner, ev, now)
    {
      if (ev.signature, ev.pool) in acted {
        stats := stats.(duplicates := stats.duplicates + 1);
        return None;
      }
      acted := acted + {(ev.signature, ev.pool)};
      stats := stats.(seen := stats.seen + 1);

      var found := Find(su.pools, ev.pool);
      if found.None? {
        return None;
      }
      var pool := found.value;
      var moved := prices.Get(pool.address);
      if moved.None? {
        NoPeers(su, prices.inner, pool, now);
        stats := stats.(noPrice := stats.noPrice + 1);
        return None;
      }
      r := JudgePriced(pool, ev, now);
    }

    /** The pool that moved has a price: compare it, and conclude if anything
        could be compared. */
    method JudgePriced(pool: Pool, ev: TriggerEvent, now: Instant) returns (r: Option<Found>)
      requires pool.address in prices.inner
      modifies this`stats
      ensures var cs := Peers(su, prices.inner, pool, now);
              && r == (if cs == [] then None else
                         Some(Concluded(pool, LookOver(su, prices.inner, pool, cs, now), ev, now)))
              && stats == Tallied(su, old(stats), prices.inner, pool, now)
    {
      var compared, look := Compare(pool, now);
      if compared == 0 {
        stats := stats.(noPrice := stats.noPrice + 1);
        return None;
      }
      r := Conclude(pool, look, ev, now);
    }

    /** The gap reported is the one of the pools named beside it. */
    method Conclude(pool: Pool, look: Look, ev: TriggerEvent, now: Instant) returns (r: Option<Found>)
      modifies this`stats
      ensures r == Some(Concluded(pool, look, ev, now))
      ensures stats == if look.best.Best? then old(stats).(actionable := old(stats).actionable + 1)
                       else old(stats).(belowCost := old(stats).belowCost + 1)
    {
      var opportunity: Option<Opportunity>, gap, route;
      match look.best {
        case Best(o, g, way) =>
          stats := stats.(actionable := stats.actionable + 1);
          opportunity, gap, route := Some(o), g, way;
        case NoBest =>
          stats := stats.(belowCost := stats.belowCost + 1);
          opportunity, gap, route := None, look.widest, look.widestRoute;
      }
      r := Some(Found(pool.address, pool.tag, gap, opportunity, ev.signature, ev.slot, ev.at, now, pool.pair, route));
    }

    /** The loop over the siblings. */
    method Compare(pool: Pool, now: Instant) returns (compared: nat, look: Look)
      requires pool.address in prices.inner
      modifies this`stats
      ensures compared == |Peers(su, prices.inner, pool, now)|
      ensures look == LookOver(su, prices.inner, pool, Peers(su, prices.inner, pool, now), now)
      ensures stats == CountOver(old(stats), su, prices.inner, pool, Peers(su, prices.inner, pool, now), now)
    {
      var siblings := Siblings(su.pools, pool);
      ghost var book := prices.inner;
      ghost var cs: seq<Pool> := [];
      compared, look := 0, NOTHING_SEEN;
      for i := 0 to |siblings|
        invariant cs == ComparableOf(su, book, pool, siblings[..i], now)
        invariant forall s :: s in cs ==> Comparable(su, book, pool, s, now)
        invariant compared == |cs|
        invariant look == LookOver(su, book, pool, cs, now)
        invariant stats == CountOver(old(stats), su, book, pool, cs, now)
      {
        var sibling := siblings[i];
        assert Front(siblings[..i + 1]) == siblings[..i];
        var other := prices.Get(sibling.address);
        if other.None? {
          continue;
        }
        if !FreshEnough(prices.inner[pool.address], other.value, now, su.costs.maxPriceAge) {
          continue;
        }
        compared := compared + 1;
        look := Weigh(pool, prices.inner[pool.address], sibling, other.value, look, now);
        assert Front(cs + [sibling]) == cs;
        cs := cs + [sibling];
      }
      assert siblings[..|siblings|] == siblings;
    }

    /** One sibling: the gap, the counters, and the trade both ways round. */
    method Weigh(pool: Pool, moved: Priced, sibling: Pool, other: Priced, before: Look, now: Instant)
      returns (look: Look)
      requires Comparable(su, prices.inner, pool, sibling, now)
      requires moved == prices.inner[pool.address] && other == prices.inner[sibling.address]
      modifies this`stats
      ensures look == LookAt(before, su, prices.inner, pool, sibling, now)
      ensures stats == CountAt(old(stats), su, prices.inner, pool, sibling, now)
    {
      look := before;
      var gap := GapBps(moved, other);
      if gap > look.widest && gap <= IMPLAUSIBLE_BPS {
        look := look.(widest := gap, widestRoute := BarRoute(pool.tag, sibling.tag));
      }
      if gap <= IMPLAUSIBLE_BPS {
        stats := stats.(bestGapBps := Max(stats.bestGapBps, gap));
        var fees := FeeBps(moved.state) + FeeBps(other.state);
        stats := stats.(bestNetBps := Max(stats.bestNetBps, SatSub(gap, fees)));
      } else {
        stats := stats.(implausible := stats.implausible + 1);
      }
      var legs := [(Side(pool.tag, moved), Side(sibling.tag, other)),
                   (Side(sibling.tag, other), Side(pool.tag, moved))];
      ghost var gapped, start := stats, look;
      for d := 0 to |legs|
        invariant stats == gapped.(declined := TallyUpto(gapped.declined, su, legs, d, now))
        invariant look == start.(best := BestUpto(start.best, gap, su, legs, d, now))
      {
        var (sell, buy) := legs[d];
        var verdict := Evaluate(su.size, sell, buy, su.costs, now);
        match verdict {
          case Err(why) =>
            if why != WrongWayRound {
              stats := stats.(declined := Bump(stats.declined, why));
            }
          case Ok(found) =>
            if look.best.NoBest? || found.netLamports > look.best.opportunity.netLamports {
              look := look.(best := Best(found, gap, ArrowRoute(sell.name, buy.name)));
            }
        }
      }
    }
  }

  // the inner loop, part way
  function TallyUpto(declined: map<Decline, nat>, su: Setup, legs: seq<(Side, Side)>, d: nat,
                     now: Instant): map<Decline, nat>
    requires d <= |legs|
  {
    if d == 0 then declined else
      Tally(TallyUpto(declined, su, legs, d - 1, now),
            Evaluate(su.size, legs[d - 1].0, legs[d - 1].1, su.costs, now))
  }

  function BestUpto(best: Best, gap: nat, su: Setup, legs: seq<(Side, Side)>, d: nat, now: Instant): Best
    requires d <= |legs|
  {
    if d == 0 then best else
      Better(BestUpto(best, gap, su, legs, d - 1, now), gap, ArrowRoute(legs[d - 1].0.name, legs[d - 1].1.name),
             Evaluate(su.size, legs[d - 1].0, legs[d - 1].1, su.costs, now))
  }
}
