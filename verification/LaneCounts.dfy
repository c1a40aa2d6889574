/** A lane's counters over every run, each one as what it counts: first looks,
    siblings and directions, read off the calls alone. */
module LaneCounts {
  import opened Prelude
  import opened Whirlpool
  import opened Arb
  import opened Pools
  import opened Lanes
  import opened LaneRuns

  // ----- what there is to count -----

  /** No earlier call was about the same transaction and pool. */
  ghost predicate FirstLook(calls: seq<Call>, i: nat) {
    i < |calls| &&
    forall j :: 0 <= j < i ==>
      !(calls[j].ev.signature == calls[i].ev.signature && calls[j].ev.pool == calls[i].ev.pool)
  }

  /** Both pools have a price on this book, neither older than allowed. */
  ghost predicate BothFresh(su: Setup, book: Book, one: Pool, other: Pool, now: Instant) {
    && one.address in book && other.address in book
    && SatSub(now, book[one.address].at) <= su.costs.maxPriceAge
    && SatSub(now, book[other.address].at) <= su.costs.maxPriceAge
  }

  /** The decision to sell on the one and buy on the other. */
  ghost predicate Refuses(su: Setup, book: Book, sell: Pool, buy: Pool, now: Instant, why: Decline) {
    && BothFresh(su, book, sell, buy, now)
    && Err(why)
       == Evaluate(su.size, Side(sell.tag, book[sell.address]), Side(buy.tag, book[buy.address]), su.costs, now)
  }

  ghost predicate Accepts(su: Setup, book: Book, sell: Pool, buy: Pool, now: Instant) {
    && BothFresh(su, book, sell, buy, now)
    && Evaluate(su.size, Side(sell.tag, book[sell.address]), Side(buy.tag, book[buy.address]), su.costs, now).Ok?
  }

  ghost predicate TooWide(su: Setup, book: Book, one: Pool, other: Pool, now: Instant) {
    && BothFresh(su, book, one, other, now)
    && GapBps(book[one.address], book[other.address]) > IMPLAUSIBLE_BPS
  }

  /** The pool a call is about, and its siblings. */
  ghost predicate About(su: Setup, call: Call, pool: Pool, sib: Pool) {
    && Find(su.pools, call.ev.pool) == Some(pool)
    && sib in su.pools && sib.pair == pool.pair && sib.address != pool.address
  }

  /** The listed pool at this place is a sibling of the one the call is about. */
  ghost predicate SiblingAt(su: Setup, call: Call, k: nat) {
    k < |su.pools| && Find(su.pools, call.ev.pool).Some? && IsSibling(Find(su.pools, call.ev.pool).value, su.pools[k])
  }

  /** At which places of the list a sibling refuses for this reason, sold from the
      pool that moved and the other way round. */
  ghost function SoldPlaces(su: Setup, call: Call, why: Decline): set<nat> {
    set k: nat | k < |su.pools| && SiblingAt(su, call, k)
              && Refuses(su, call.book, Find(su.pools, call.ev.pool).value, su.pools[k], call.now, why)
  }

  ghost function BoughtPlaces(su: Setup, call: Call, why: Decline): set<nat> {
    set k: nat | k < |su.pools| && SiblingAt(su, call, k)
              && Refuses(su, call.book, su.pools[k], Find(su.pools, call.ev.pool).value, call.now, why)
  }

  ghost function WidePlaces(su: Setup, call: Call): set<nat> {
    set k: nat | k < |su.pools| && SiblingAt(su, call, k)
              && TooWide(su, call.book, Find(su.pools, call.ev.pool).value, su.pools[k], call.now)
  }

  ghost function Refusals(su: Setup, calls: seq<Call>, why: Decline): nat {
    if calls == [] then 0 else
      Refusals(su, Front(calls), why) +
      if FirstLook(calls, |calls| - 1)
      then |SoldPlaces(su, Last(calls), why)| + |BoughtPlaces(su, Last(calls), why)| else 0
  }

  ghost function WideGaps(su: Setup, calls: seq<Call>): nat {
    if calls == [] then 0 else
      WideGaps(su, Front(calls)) + if FirstLook(calls, |calls| - 1) then |WidePlaces(su, Last(calls))| else 0
  }

  /** Some sibling could be compared, and some would trade, either way round. */
  ghost predicate CanCompare(su: Setup, call: Call) {
    exists pool, sib :: About(su, call, pool, sib) && BothFresh(su, call.book, pool, sib, call.now)
  }

  ghost predicate CanSell(su: Setup, call: Call) {
    exists pool, sib :: About(su, call, pool, sib) &&
      (Accepts(su, call.book, pool, sib, call.now) || Accepts(su, call.book, sib, pool, call.now))
  }

  ghost function FirstLooks(calls: seq<Call>): set<nat> { set i: nat | i < |calls| && FirstLook(calls, i) }

  // ----- positions against filtered lists -----

  /** The places of the siblings that can be compared and of which `q` holds. */
  ghost function PlacesOf(su: Setup, book: Book, pool: Pool, now: Instant, q: Pool -> bool): set<nat> {
    set k: nat | k < |su.pools| && IsSibling(pool, su.pools[k]) && BothFresh(su, book, pool, su.pools[k], now)
              && q(su.pools[k])
  }

  lemma PeerPlaces(su: Setup, book: Book, pool: Pool, now: Instant, q: Pool -> bool)
    ensures |Filter(Peers(su, book, pool, now), q)| == |PlacesOf(su, book, pool, now, q)|
  {
    var sibling := (other: Pool) => IsSibling(pool, other);
    var ready := (s: Pool) => Comparable(su, book, pool, s, now);
    var peer := (s: Pool) => IsSibling(pool, s) && Comparable(su, book, pool, s, now);
    var counted := (s: Pool) => IsSibling(pool, s) && Comparable(su, book, pool, s, now) && q(s);
    FilterBoth(su.pools, sibling, ready, peer);
    FilterBoth(su.pools, peer, q, counted);
    assert Peers(su, book, pool, now) == Filter(Filter(su.pools, sibling), ready);
    FilterPlaces(su.pools, counted);
    assert Places(su.pools, counted) == PlacesOf(su, book, pool, now, q);
  }

  // ----- one look -----

  /** The loop adds, per reason, the siblings that refuse for it either way. */
  lemma {:induction false} LoopRefusals(su: Setup, book: Book, pool: Pool, cs: seq<Pool>, now: Instant,
                                        stats: LaneStats, why: Decline)
    requires why != WrongWayRound && forall s :: s in cs ==> Comparable(su, book, pool, s, now)
    ensures Count(CountOver(stats, su, book, pool, cs, now).declined, why)
         == Count(stats.declined, why) + |Filter(cs, (s: Pool) => Refuses(su, book, pool, s, now, why))|
            + |Filter(cs, (s: Pool) => Refuses(su, book, s, pool, now, why))|
  {
    if cs != [] {
      assert cs == Front(cs) + [Last(cs)] && Last(cs) in cs;
      LoopRefusals(su, book, pool, Front(cs), now, stats, why);
      OneRefusal(su, book, pool, Last(cs), now, CountOver(stats, su, book, pool, Front(cs), now), why);
    }
  }

  lemma OneRefusal(su: Setup, book: Book, pool: Pool, sib: Pool, now: Instant, stats: LaneStats, why: Decline)
    requires why != WrongWayRound && Comparable(su, book, pool, sib, now)
    ensures Count(CountAt(stats, su, book, pool, sib, now).declined, why)
         == Count(stats.declined, why) + (if Refuses(su, book, pool, sib, now, why) then 1 else 0)
            + (if Refuses(su, book, sib, pool, now, why) then 1 else 0)
  {
    assert BothFresh(su, book, pool, sib, now) && BothFresh(su, book, sib, pool, now);
  }

  lemma {:induction false} LoopWideGaps(su: Setup, book: Book, pool: Pool, cs: seq<Pool>, now: Instant,
                                        stats: LaneStats)
    requires forall s :: s in cs ==> Comparable(su, book, pool, s, now)
    ensures CountOver(stats, su, book, pool, cs, now).implausible
         == stats.implausible + |Filter(cs, (s: Pool) => TooWide(su, book, pool, s, now))|
  {
    if cs != [] {
      assert cs == Front(cs) + [Last(cs)] && Last(cs) in cs;
      LoopWideGaps(su, book, pool, Front(cs), now, stats);
    }
  }

  /** A look at a known pool adds exactly its own refusals and wide gaps. */
  lemma LookCounts(su: Setup, stats: LaneStats, call: Call, pool: Pool, why: Decline)
    requires Find(su.pools, call.ev.pool) == Some(pool) && why != WrongWayRound
    ensures var t := Tallied(su, stats, call.book, pool, call.now);
            && Count(t.declined, why)
               == Count(stats.declined, why) + |SoldPlaces(su, call, why)| + |BoughtPlaces(su, call, why)|
            && t.implausible == stats.implausible + |WidePlaces(su, call)|
  {
    var (book, now) := (call.book, call.now);
    var cs := Peers(su, book, pool, now);
    LoopRefusals(su, book, pool, cs, now, stats, why);
    LoopWideGaps(su, book, pool, cs, now, stats);
    PeerPlaces(su, book, pool, now, (s: Pool) => Refuses(su, book, pool, s, now, why));
    PeerPlaces(su, book, pool, now, (s: Pool) => Refuses(su, book, s, pool, now, why));
    PeerPlaces(su, book, pool, now, (s: Pool) => TooWide(su, book, pool, s, now));
    LookPlaces(su, call, pool, why);
  }

  lemma LookPlaces(su: Setup, call: Call, pool: Pool, why: Decline)
    requires Find(su.pools, call.ev.pool) == Some(pool)
    ensures var (book, now) := (call.book, call.now);
            && SoldPlaces(su, call, why)
               == PlacesOf(su, book, pool, now, (s: Pool) => Refuses(su, book, pool, s, now, why))
            && BoughtPlaces(su, call, why)
               == PlacesOf(su, book, pool, now, (s: Pool) => Refuses(su, book, s, pool, now, why))
            && WidePlaces(su, call) == PlacesOf(su, book, pool, now, (s: Pool) => TooWide(su, book, pool, s, now))
  {
    RefusesFresh(su, call.book, pool, call.now, why);
  }

  lemma RefusesFresh(su: Setup, book: Book, pool: Pool, now: Instant, why: Decline)
    ensures forall s :: Refuses(su, book, pool, s, now, why) ==> BothFresh(su, book, pool, s, now)
    ensures forall s :: Refuses(su, book, s, pool, now, why) ==> BothFresh(su, book, pool, s, now)
    ensures forall s :: TooWide(su, book, pool, s, now) ==> BothFresh(su, book, pool, s, now)
  {
  }

  // ----- the best figures of one look -----

  ghost predicate Plausible(su: Setup, book: Book, one: Pool, other: Pool, now: Instant) {
    BothFresh(su, book, one, other, now) && GapBps(book[one.address], book[other.address]) <= IMPLAUSIBLE_BPS
  }

  function Gap(book: Book, one: Pool, other: Pool): nat
    requires one.address in book && other.address in book
  {
    GapBps(book[one.address], book[other.address])
  }

  /** What is left of the gap with both ceiling fees taken off. */
  function NetGap(book: Book, one: Pool, other: Pool): nat
    requires one.address in book && other.address in book
  {
    SatSub(Gap(book, one, other), FeeBps(book[one.address].state) + FeeBps(book[other.address].state))
  }

  /** A plausible peer's gap, and what is left of it. */
  datatype Figure = Figure(gap: nat, net: nat)

  ghost function PeerFigures(su: Setup, book: Book, pool: Pool, cs: seq<Pool>, now: Instant): seq<Figure> {
    if cs == [] then [] else
      PeerFigures(su, book, pool, Front(cs), now) +
      if Plausible(su, book, pool, Last(cs), now)
      then [Figure(Gap(book, pool, Last(cs)), NetGap(book, pool, Last(cs)))] else []
  }

  /** The best two figures cover these, and each is one of them or as before. */
  ghost predicate Covers(figures: seq<Figure>, before: LaneStats, after: LaneStats) {
    && before.bestGapBps <= after.bestGapBps && before.bestNetBps <= after.bestNetBps
    && (forall f :: f in figures ==> f.gap <= after.bestGapBps && f.net <= after.bestNetBps)
    && (after.bestGapBps == before.bestGapBps || exists f :: f in figures && f.gap == after.bestGapBps)
    && (after.bestNetBps == before.bestNetBps || exists f :: f in figures && f.net == after.bestNetBps)
  }

  lemma CoversMore(a: seq<Figure>, b: seq<Figure>, before: LaneStats, mid: LaneStats, after: LaneStats)
    requires Covers(a, before, mid) && Covers(b, mid, after)
    ensures Covers(a + b, before, after)
  {
    assert forall f :: f in a + b <==> f in a || f in b;
  }

  lemma {:induction false} LoopBests(su: Setup, book: Book, pool: Pool, cs: seq<Pool>, now: Instant, stats: LaneStats)
    requires forall s :: s in cs ==> Comparable(su, book, pool, s, now)
    ensures Covers(PeerFigures(su, book, pool, cs, now), stats, CountOver(stats, su, book, pool, cs, now))
  {
    if cs != [] {
      assert cs == Front(cs) + [Last(cs)] && Last(cs) in cs;
      LoopBests(su, book, pool, Front(cs), now, stats);
      var mid := CountOver(stats, su, book, pool, Front(cs), now);
      OneBest(su, book, pool, Last(cs), now, mid);
      CoversMore(PeerFigures(su, book, pool, Front(cs), now), FigureOf(su, book, pool, Last(cs), now),
                 stats, mid, CountAt(mid, su, book, pool, Last(cs), now));
    }
  }

  ghost function FigureOf(su: Setup, book: Book, pool: Pool, sib: Pool, now: Instant): seq<Figure> {
    if Plausible(su, book, pool, sib, now) then [Figure(Gap(book, pool, sib), NetGap(book, pool, sib))] else []
  }

  lemma OneBest(su: Setup, book: Book, pool: Pool, sib: Pool, now: Instant, stats: LaneStats)
    requires Comparable(su, book, pool, sib, now)
    ensures Covers(FigureOf(su, book, pool, sib, now), stats, CountAt(stats, su, book, pool, sib, now))
  {
    assert BothFresh(su, book, pool, sib, now);
    if Plausible(su, book, pool, sib, now) {
      assert Figure(Gap(book, pool, sib), NetGap(book, pool, sib)) in FigureOf(su, book, pool, sib, now);
    }
  }

  // ----- every run -----

  ghost function CallFigures(su: Setup, call: Call): seq<Figure> {
    var pool := Find(su.pools, call.ev.pool);
    if pool.None? then [] else
      PeerFigures(su, call.book, pool.value, Peers(su, call.book, pool.value, call.now), call.now)
  }

  ghost function Figures(su: Setup, calls: seq<Call>): seq<Figure> {
    if calls == [] then [] else
      Figures(su, Front(calls)) + if FirstLook(calls, |calls| - 1) then CallFigures(su, Last(calls)) else []
  }

  lemma LastLook(su: Setup, calls: seq<Call>)
    requires calls != []
    ensures var c := Last(calls);
            FirstLook(calls, |calls| - 1) <==> (c.ev.signature, c.ev.pool) !in AfterCalls(su, Front(calls)).acted
  {
    var c := Last(calls);
    ActedAre(su, Front(calls), c.ev);
    if b :| b in Front(calls) && b.ev.signature == c.ev.signature && b.ev.pool == c.ev.pool {
      var j :| 0 <= j < |calls| - 1 && calls[j] == b;
    }
  }

  lemma CallBests(su: Setup, st: LaneState, c: Call)
    ensures Covers(if (c.ev.signature, c.ev.pool) in st.acted then [] else CallFigures(su, c),
                   st.stats, Triggered(su, st, c.book, c.ev, c.now).stats)
  {
    if (c.ev.signature, c.ev.pool) !in st.acted && Find(su.pools, c.ev.pool).Some? {
      var pool := Find(su.pools, c.ev.pool).value;
      LoopBests(su, c.book, pool, Peers(su, c.book, pool, c.now), c.now, st.stats.(seen := st.stats.seen + 1));
    }
  }

  lemma {:induction false} FiguresAreCovered(su: Setup, calls: seq<Call>)
    ensures Covers(Figures(su, calls), NO_STATS, AfterCalls(su, calls).stats)
  {
    if calls != [] {
      FiguresAreCovered(su, Front(calls));
      LastLook(su, calls);
      var st, c := AfterCalls(su, Front(calls)), Last(calls);
      CallBests(su, st, c);
      CoversMore(Figures(su, Front(calls)), if FirstLook(calls, |calls| - 1) then CallFigures(su, c) else [],
                 NO_STATS, st.stats, Triggered(su, st, c.book, c.ev, c.now).stats);
    }
  }

  // ----- the figures are the first looks' -----

  /** This plausible comparison was made on the run's i-th call, a first look. */
  ghost predicate Makes(su: Setup, call: Call, pool: Pool, sib: Pool, f: Figure) {
    && About(su, call, pool, sib) && Plausible(su, call.book, pool, sib, call.now)
    && f == Figure(Gap(call.book, pool, sib), NetGap(call.book, pool, sib))
  }

  ghost predicate MadeAt(su: Setup, calls: seq<Call>, i: nat, f: Figure) {
    FirstLook(calls, i) && exists pool, sib :: Makes(su, calls[i], pool, sib, f)
  }

  lemma {:induction false} PeerFigureMembers(su: Setup, book: Book, pool: Pool, cs: seq<Pool>, now: Instant, f: Figure)
    ensures f in PeerFigures(su, book, pool, cs, now)
       <==> exists s :: s in cs && Plausible(su, book, pool, s, now)
                     && f == Figure(Gap(book, pool, s), NetGap(book, pool, s))
  {
    if cs != [] {
      assert cs == Front(cs) + [Last(cs)];
      PeerFigureMembers(su, book, pool, Front(cs), now, f);
    }
  }

  lemma CallFigureMembers(su: Setup, call: Call, f: Figure)
    ensures f in CallFigures(su, call) <==> exists pool, sib :: Makes(su, call, pool, sib, f)
  {
    var found := Find(su.pools, call.ev.pool);
    if found.Some? {
      var pool, cs := found.value, Peers(su, call.book, found.value, call.now);
      SiblingsAre(su.pools, pool);
      PeerFigureMembers(su, call.book, pool, cs, call.now, f);
      if f in CallFigures(su, call) {
        var s :| s in cs && Plausible(su, call.book, pool, s, call.now)
              && f == Figure(Gap(call.book, pool, s), NetGap(call.book, pool, s));
        assert Makes(su, call, pool, s, f);
      }
      if p, s :| Makes(su, call, p, s, f) {
        assert s in cs;
      }
    }
  }

  lemma {:induction false} FigureMembers(su: Setup, calls: seq<Call>, f: Figure)
    ensures f in Figures(su, calls) <==> exists i: nat :: MadeAt(su, calls, i, f)
  {
    if calls != [] {
      FigureMembers(su, Front(calls), f);
      CallFigureMembers(su, Last(calls), f);
      MadeSplits(su, calls, f);
    }
  }

  lemma MadeSplits(su: Setup, calls: seq<Call>, f: Figure)
    requires calls != []
    ensures (exists i: nat :: MadeAt(su, calls, i, f))
       <==> || (exists i: nat :: MadeAt(su, Front(calls), i, f))
            || (FirstLook(calls, |calls| - 1) && exists pool, sib :: Makes(su, Last(calls), pool, sib, f))
  {
    var n := |calls| - 1;
    forall i: nat | i < n
      ensures MadeAt(su, calls, i, f) <==> MadeAt(su, Front(calls), i, f)
    {
      assert FirstLook(calls, i) <==> FirstLook(Front(calls), i);
    }
    assert calls[n] == Last(calls);
    assert MadeAt(su, calls, n, f) <==> FirstLook(calls, n) && exists pool, sib :: Makes(su, Last(calls), pool, sib, f);
  }

  /** Over every run, the best gap is the widest plausible gap of any first look
      at any fresh, priced sibling, and the best net gap the widest of those less
      both ceiling fees; each is reached, or zero. */
  lemma BestsAreReached(su: Setup, calls: seq<Call>)
    ensures var stats := AfterCalls(su, calls).stats;
            && (forall i: nat, f :: MadeAt(su, calls, i, f) ==> f.gap <= stats.bestGapBps && f.net <= stats.bestNetBps)
            && (stats.bestGapBps > 0 ==> exists i: nat, f :: MadeAt(su, calls, i, f) && f.gap == stats.bestGapBps)
            && (stats.bestNetBps > 0 ==> exists i: nat, f :: MadeAt(su, calls, i, f) && f.net == stats.bestNetBps)
  {
    var stats := AfterCalls(su, calls).stats;
    FiguresAreCovered(su, calls);
    forall i: nat, f | MadeAt(su, calls, i, f)
      ensures f in Figures(su, calls)
    {
      FigureMembers(su, calls, f);
    }
    if stats.bestGapBps > 0 {
      var f :| f in Figures(su, calls) && f.gap == stats.bestGapBps;
      FigureMembers(su, calls, f);
    }
    if stats.bestNetBps > 0 {
      var f :| f in Figures(su, calls) && f.net == stats.bestNetBps;
      FigureMembers(su, calls, f);
    }
  }

  // ----- the counters -----

  datatype Kind = Unknown | Unpriced | BelowCost | Actionable

  /** What a first look comes to: on no listed pool, with nothing to compare, with
      a trade on offer, or with none. */
  ghost function KindOf(su: Setup, call: Call): Kind {
    if Find(su.pools, call.ev.pool).None? then Unknown
    else if !CanCompare(su, call) then Unpriced
    else if CanSell(su, call) then Actionable else BelowCost
  }

  ghost function LooksWhere(calls: seq<Call>, p: Call -> bool): set<nat> {
    set i: nat | i < |calls| && FirstLook(calls, i) && p(calls[i])
  }

  ghost function LooksOfKind(su: Setup, calls: seq<Call>, kind: Kind): set<nat> {
    LooksWhere(calls, (c: Call) => KindOf(su, c) == kind)
  }

  lemma OneMoreLookWhere(calls: seq<Call>, p: Call -> bool)
    requires calls != []
    ensures |LooksWhere(calls, p)| == |LooksWhere(Front(calls), p)|
            + if FirstLook(calls, |calls| - 1) && p(Last(calls)) then 1 else 0
  {
    forall i: nat | i < |calls| - 1
      ensures i in LooksWhere(calls, p) <==> i in LooksWhere(Front(calls), p)
    {
      assert FirstLook(calls, i) <==> FirstLook(Front(calls), i);
    }
    OneMoreIn(LooksWhere(calls, p), LooksWhere(Front(calls), p), |calls| - 1);
  }

  lemma OneMoreLookOfKind(su: Setup, calls: seq<Call>, kind: Kind)
    requires calls != []
    ensures |LooksOfKind(su, calls, kind)| == |LooksOfKind(su, Front(calls), kind)|
            + if FirstLook(calls, |calls| - 1) && KindOf(su, Last(calls)) == kind then 1 else 0
  {
    OneMoreLookWhere(calls, (c: Call) => KindOf(su, c) == kind);
  }

  lemma OneMoreIn(after: set<nat>, before: set<nat>, n: nat)
    requires forall i :: i in before ==> i < n
    requires forall i :: i in after ==> i <= n
    requires forall i: nat :: i < n ==> (i in after <==> i in before)
    ensures |after| == |before| + if n in after then 1 else 0
  {
    assert after == before + if n in after then {n} else {};
  }

  lemma KindByPeers(su: Setup, call: Call, pool: Pool)
    requires Find(su.pools, call.ev.pool) == Some(pool)
    ensures var cs := Peers(su, call.book, pool, call.now);
            && (CanCompare(su, call) <==> cs != [])
            && (CanSell(su, call) <==> LookOver(su, call.book, pool, cs, call.now).best.Best?)
  {
    var cs := Peers(su, call.book, pool, call.now);
    SiblingsAre(su.pools, pool);
    if cs != [] {
      assert cs[0] in cs;
      assert About(su, call, pool, cs[0]) && BothFresh(su, call.book, pool, cs[0], call.now);
    }
    LookOverIsBest(su, call.book, pool, cs, call.now);
    SellersOffer(su, call, pool, cs);
  }

  lemma SellersOffer(su: Setup, call: Call, pool: Pool, cs: seq<Pool>)
    requires Find(su.pools, call.ev.pool) == Some(pool) && cs == Peers(su, call.book, pool, call.now)
    ensures CanSell(su, call) <==> exists s, o :: s in cs && Offers(su, call.book, pool, s, call.now, o)
  {
    SiblingsAre(su.pools, pool);
    if CanSell(su, call) {
      var p, sib :| About(su, call, p, sib)
                 && (Accepts(su, call.book, p, sib, call.now) || Accepts(su, call.book, sib, p, call.now));
      var o := if Accepts(su, call.book, p, sib, call.now) then Forward(su, call.book, pool, sib, call.now).value
               else Backward(su, call.book, pool, sib, call.now).value;
      assert sib in cs && Offers(su, call.book, pool, sib, call.now, o);
    }
    if s, o :| s in cs && Offers(su, call.book, pool, s, call.now, o) {
      OffersFacts(su, call.book, pool, s, call.now, o);
      assert About(su, call, pool, s);
      assert Accepts(su, call.book, pool, s, call.now) || Accepts(su, call.book, s, pool, call.now);
    }
  }

  /** Each of the look counters is the number of first looks of its kind. */
  ghost predicate KindsCounted(su: Setup, calls: seq<Call>, stats: LaneStats) {
    && stats.noPrice == |LooksOfKind(su, calls, Unpriced)|
    && stats.belowCost == |LooksOfKind(su, calls, BelowCost)|
    && stats.actionable == |LooksOfKind(su, calls, Actionable)|
  }

  /** The kinds a first look adds to the counters. */
  lemma LookAddsItsKind(su: Setup, st: LaneState, c: Call)
    requires (c.ev.signature, c.ev.pool) !in st.acted
    ensures var (t, k) := (Triggered(su, st, c.book, c.ev, c.now).stats, KindOf(su, c));
            && t.noPrice == st.stats.noPrice + (if k.Unpriced? then 1 else 0)
            && t.belowCost == st.stats.belowCost + (if k.BelowCost? then 1 else 0)
            && t.actionable == st.stats.actionable + (if k.Actionable? then 1 else 0)
  {
    var found := Find(su.pools, c.ev.pool);
    if found.Some? {
      KindByPeers(su, c, found.value);
      CountOverFrame(su, c.book, found.value, Peers(su, c.book, found.value, c.now), c.now,
                     st.stats.(seen := st.stats.seen + 1));
    }
  }

  lemma {:induction false} KindsAreCounted(su: Setup, calls: seq<Call>)
    ensures KindsCounted(su, calls, AfterCalls(su, calls).stats)
  {
    if calls == [] {
      assert forall kind :: LooksOfKind(su, calls, kind) == {};
    } else {
      KindsAreCounted(su, Front(calls));
      LastLook(su, calls);
      OneMoreLookOfKind(su, calls, Unpriced);
      OneMoreLookOfKind(su, calls, BelowCost);
      OneMoreLookOfKind(su, calls, Actionable);
      if FirstLook(calls, |calls| - 1) {
        LookAddsItsKind(su, AfterCalls(su, Front(calls)), Last(calls));
      }
    }
  }

  lemma LookAddsRefusals(su: Setup, st: LaneState, c: Call, why: Decline)
    requires why != WrongWayRound
    ensures var t, first := Triggered(su, st, c.book, c.ev, c.now).stats, (c.ev.signature, c.ev.pool) !in st.acted;
            && Count(t.declined, why) == Count(st.stats.declined, why)
                 + (if first then |SoldPlaces(su, c, why)| + |BoughtPlaces(su, c, why)| else 0)
            && t.implausible == st.stats.implausible + (if first then |WidePlaces(su, c)| else 0)
  {
    var found := Find(su.pools, c.ev.pool);
    if (c.ev.signature, c.ev.pool) !in st.acted {
      if found.Some? {
        LookCounts(su, st.stats.(seen := st.stats.seen + 1), c, found.value, why);
      } else {
        assert SoldPlaces(su, c, why) == {} && BoughtPlaces(su, c, why) == {} && WidePlaces(su, c) == {};
      }
    }
  }

  /** Over every run: a reason's count is the number of first looks, siblings and
      directions the decision refuses for it, the implausible count the number of
      first looks and siblings too far apart, and the looks divide by what each
      could compare and sell. */
  lemma {:induction false} CountersAreCounts(su: Setup, calls: seq<Call>, why: Decline)
    requires why != WrongWayRound
    ensures var stats := AfterCalls(su, calls).stats;
            && Count(stats.declined, why) == Refusals(su, calls, why)
            && stats.implausible == WideGaps(su, calls)
            && KindsCounted(su, calls, stats)
            && stats.seen == |FirstLooks(calls)|
  {
    KindsAreCounted(su, calls);
    if calls == [] {
      assert FirstLooks(calls) == {};
    } else {
      CountersAreCounts(su, Front(calls), why);
      LastLook(su, calls);
      LookAddsRefusals(su, AfterCalls(su, Front(calls)), Last(calls), why);
      OneMoreFirstLook(su, calls);
    }
  }

  lemma OneMoreFirstLook(su: Setup, calls: seq<Call>)
    requires calls != []
    ensures |FirstLooks(calls)| == |FirstLooks(Front(calls))| + if FirstLook(calls, |calls| - 1) then 1 else 0
    ensures AfterCalls(su, calls).stats.seen == AfterCalls(su, Front(calls)).stats.seen
                                                + if FirstLook(calls, |calls| - 1) then 1 else 0
  {
    var n, st, c := |calls| - 1, AfterCalls(su, Front(calls)), Last(calls);
    assert forall i: nat :: i < n ==> (FirstLook(calls, i) <==> FirstLook(Front(calls), i));
    assert FirstLooks(calls) == FirstLooks(Front(calls)) + if FirstLook(calls, n) then {n} else {};
    LastLook(su, calls);
    if FirstLook(calls, n) {
      LookIsCountedOnce(su, st, c.book, c.ev, c.now);
    }
  }
}
