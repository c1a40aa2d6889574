/** What a decision is, and what a lane's counters keep over every run. */
module LaneRuns {
  import opened Prelude
  import opened Whirlpool
  import opened Arb
  import opened Pools
  import opened Lanes

  // ----- the decision is the best trade on offer -----

  /** Some priced sibling offers this trade, one way round or the other. */
  ghost predicate Offers(su: Setup, book: Book, pool: Pool, sib: Pool, now: Instant, o: Opportunity) {
    && pool.address in book && sib.address in book
    && (Forward(su, book, pool, sib, now) == Ok(o) || Backward(su, book, pool, sib, now) == Ok(o))
  }

  lemma OffersFacts(su: Setup, book: Book, pool: Pool, sib: Pool, now: Instant, o: Opportunity)
    requires Offers(su, book, pool, sib, now, o)
    ensures Comparable(su, book, pool, sib, now)
    ensures o.grossBps == GapTo(book, pool, sib) && 0 < o.grossBps <= IMPLAUSIBLE_BPS
    ensures {o.sellOn, o.buyOn} == {pool.tag, sib.tag} && o.inLamports == su.size && o.netLamports > 0
    ensures FeeBps(book[pool.address].state) + FeeBps(book[sib.address].state) + Max(1, su.costs.marginBps)
             <= o.grossBps
  {
    GapIsSymmetric(book[pool.address], book[sib.address]);
    var (a, b) := (Side(pool.tag, book[pool.address]), Side(sib.tag, book[sib.address]));
    if Forward(su, book, pool, sib, now) == Ok(o) {
      AcceptedFacts(su.size, a, b, su.costs, now);
    } else {
      AcceptedFacts(su.size, b, a, su.costs, now);
    }
  }

  /** What the loop has after some siblings: the first of the best trades among
      them with its own gap and route, and the widest plausible gap. */
  ghost predicate LookIsBest(su: Setup, book: Book, pool: Pool, cs: seq<Pool>, now: Instant, look: Look) {
    && (look.best.NoBest? <==> forall s, o :: s in cs ==> !Offers(su, book, pool, s, now, o))
    && (look.best.Best? ==>
          && (exists s :: s in cs && Offers(su, book, pool, s, now, look.best.opportunity))
          && (forall s, o :: s in cs && Offers(su, book, pool, s, now, o) ==>
                o.netLamports <= look.best.opportunity.netLamports)
          && look.best.gap == look.best.opportunity.grossBps
          && look.best.route == ArrowRoute(look.best.opportunity.sellOn, look.best.opportunity.buyOn))
    && (forall s ::
          (s in cs && Comparable(su, book, pool, s, now) && GapTo(book, pool, s) <= IMPLAUSIBLE_BPS)
          ==> GapTo(book, pool, s) <= look.widest)
    && (look.widest > 0 ==>
          exists s :: s in cs && Comparable(su, book, pool, s, now) && GapTo(book, pool, s) == look.widest
                   && look.widestRoute == BarRoute(pool.tag, s.tag))
    && look.widest <= IMPLAUSIBLE_BPS
  }

  /** Two looks at one direction: what `Better` keeps. */
  lemma BetterKeeps(best: Best, gap: nat, route: string, r: Result<Opportunity, Decline>)
    ensures var b := Better(best, gap, route, r);
            && (b.NoBest? <==> best.NoBest? && r.Err?)
            && (b.Best? ==> b == best || (r.Ok? && b == Best(r.value, gap, route)))
            && (best.Best? ==> best.opportunity.netLamports <= b.opportunity.netLamports)
            && (r.Ok? ==> b.Best? && r.value.netLamports <= b.opportunity.netLamports)
  {
  }

  lemma BestStep(su: Setup, book: Book, pool: Pool, sib: Pool, now: Instant, look: Look)
    requires Comparable(su, book, pool, sib, now)
    ensures var b := LookAt(look, su, book, pool, sib, now).best;
            && (b.NoBest? <==> look.best.NoBest? && forall o :: !Offers(su, book, pool, sib, now, o))
            && (b.Best? && b != look.best ==>
                  && Offers(su, book, pool, sib, now, b.opportunity)
                  && b.gap == b.opportunity.grossBps
                  && b.route == ArrowRoute(b.opportunity.sellOn, b.opportunity.buyOn))
            && (look.best.Best? ==> look.best.opportunity.netLamports <= b.opportunity.netLamports)
            && (forall o :: Offers(su, book, pool, sib, now, o) ==> o.netLamports <= b.opportunity.netLamports)
  {
    var (f, r) := (Forward(su, book, pool, sib, now), Backward(su, book, pool, sib, now));
    var gap := GapTo(book, pool, sib);
    BetterKeeps(look.best, gap, ArrowRoute(pool.tag, sib.tag), f);
    BetterKeeps(Better(look.best, gap, ArrowRoute(pool.tag, sib.tag), f), gap, ArrowRoute(sib.tag, pool.tag), r);
    assert f.Ok? ==> Offers(su, book, pool, sib, now, f.value);
    assert r.Ok? ==> Offers(su, book, pool, sib, now, r.value);
    if f.Ok? {
      OffersFacts(su, book, pool, sib, now, f.value);
      AcceptedFacts(su.size, Side(pool.tag, book[pool.address]), Side(sib.tag, book[sib.address]), su.costs, now);
    }
    if r.Ok? {
      OffersFacts(su, book, pool, sib, now, r.value);
      AcceptedFacts(su.size, Side(sib.tag, book[sib.address]), Side(pool.tag, book[pool.address]), su.costs, now);
    }
  }

  lemma {:induction false} LookOverIsBest(su: Setup, book: Book, pool: Pool, cs: seq<Pool>, now: Instant)
    requires forall s :: s in cs ==> Comparable(su, book, pool, s, now)
    ensures LookIsBest(su, book, pool, cs, now, LookOver(su, book, pool, cs, now))
  {
    if cs != [] {
      assert cs == Front(cs) + [Last(cs)] && Last(cs) in cs;
      LookOverIsBest(su, book, pool, Front(cs), now);
      OneMoreLook(su, book, pool, Front(cs), Last(cs), now, LookOver(su, book, pool, Front(cs), now));
    }
  }

  lemma OneMoreLook(su: Setup, book: Book, pool: Pool, f: seq<Pool>, sib: Pool, now: Instant, look: Look)
    requires Comparable(su, book, pool, sib, now) && LookIsBest(su, book, pool, f, now, look)
    ensures LookIsBest(su, book, pool, f + [sib], now, LookAt(look, su, book, pool, sib, now))
  {
    assert forall s :: s in f + [sib] <==> s in f || s == sib;
    BestStep(su, book, pool, sib, now, look);
  }

  /** The refinement: a first look answers with the best trade that any sibling
      offers in either direction, one whenever there is one, named and measured
      on its own two pools; with none it reports the widest plausible gap. */
  ghost predicate BestOnOffer(su: Setup, book: Book, pool: Pool, now: Instant, found: Found) {
    && found.pool == pool.address && found.poolLabel == pool.tag && found.pairLabel == pool.pair
    && found.gapBps <= IMPLAUSIBLE_BPS
    && (found.opportunity.None? <==>
          forall s, o :: s in Siblings(su.pools, pool) ==> !Offers(su, book, pool, s, now, o))
    && (found.opportunity.Some? ==>
          var best := found.opportunity.value;
          && (exists s :: s in Siblings(su.pools, pool) && Offers(su, book, pool, s, now, best))
          && (forall s, o :: s in Siblings(su.pools, pool) && Offers(su, book, pool, s, now, o) ==>
                o.netLamports <= best.netLamports)
          && found.gapBps == best.grossBps
          && found.route == ArrowRoute(best.sellOn, best.buyOn))
    && (found.opportunity.None? ==>
          && (forall s ::
                (s in Siblings(su.pools, pool) && Comparable(su, book, pool, s, now)
                 && GapTo(book, pool, s) <= IMPLAUSIBLE_BPS)
                ==> GapTo(book, pool, s) <= found.gapBps)
          && (found.gapBps > 0 ==>
                exists s :: s in Siblings(su.pools, pool) && Comparable(su, book, pool, s, now)
                         && GapTo(book, pool, s) == found.gapBps && found.route == BarRoute(pool.tag, s.tag)))
  }

  lemma DecisionIsBestOnOffer(su: Setup, book: Book, ev: TriggerEvent, now: Instant)
    ensures var found := Find(su.pools, ev.pool);
            && (Decide(su, book, ev, now).None? <==>
                  found.None? ||
                  forall s :: s in Siblings(su.pools, found.value) ==> !Comparable(su, book, found.value, s, now))
            && (Decide(su, book, ev, now).Some? ==>
                  && BestOnOffer(su, book, found.value, now, Decide(su, book, ev, now).value)
                  && Decide(su, book, ev, now).value.triggerSignature == ev.signature
                  && Decide(su, book, ev, now).value.decidedAt == ev.at
                  && Decide(su, book, ev, now).value.slot == ev.slot
                  && Decide(su, book, ev, now).value.lookedAt == now)
  {
    var found := Find(su.pools, ev.pool);
    if found.Some? {
      var pool := found.value;
      var cs := Peers(su, book, pool, now);
      LookOverIsBest(su, book, pool, cs, now);
      forall s, o | s in Siblings(su.pools, pool) && Offers(su, book, pool, s, now, o)
        ensures s in cs
      {
        OffersFacts(su, book, pool, s, now, o);
      }
      if cs != [] {
        assert cs[0] in cs;
        assert cs[0] in Siblings(su.pools, pool) && Comparable(su, book, pool, cs[0], now);
        PeersAnswer(su, book, pool, cs, now, Decide(su, book, ev, now).value);
      } else {
        forall s | s in Siblings(su.pools, pool)
          ensures !Comparable(su, book, pool, s, now)
        {
          assert s !in cs;
        }
      }
    }
  }

  lemma PeersAnswer(su: Setup, book: Book, pool: Pool, cs: seq<Pool>, now: Instant, found: Found)
    requires cs == Peers(su, book, pool, now)
    requires LookIsBest(su, book, pool, cs, now, LookOver(su, book, pool, cs, now))
    requires forall s, o :: s in Siblings(su.pools, pool) && Offers(su, book, pool, s, now, o) ==> s in cs
    requires var look := LookOver(su, book, pool, cs, now);
             && found.pool == pool.address && found.poolLabel == pool.tag && found.pairLabel == pool.pair
             && found.opportunity == (if look.best.Best? then Some(look.best.opportunity) else None)
             && found.gapBps == (if look.best.Best? then look.best.gap else look.widest)
             && found.route == (if look.best.Best? then look.best.route else look.widestRoute)
    ensures BestOnOffer(su, book, pool, now, found)
  {
    var look := LookOver(su, book, pool, cs, now);
    if look.best.Best? {
      var s :| s in cs && Offers(su, book, pool, s, now, look.best.opportunity);
      OffersFacts(su, book, pool, s, now, look.best.opportunity);
    }
  }

  // ----- among equals, the first listed -----

  /** What a look keeps is the first of its kind in the order it looked. */
  ghost predicate KeepsFirst(su: Setup, book: Book, pool: Pool, cs: seq<Pool>, now: Instant, look: Look) {
    && (look.best.Best? ==> exists k: nat :: FirstBest(su, book, pool, cs, now, look.best.opportunity, k))
    && (look.widest > 0 ==> exists k: nat :: FirstWidest(su, book, pool, cs, now, look.widest, look.widestRoute, k))
  }

  ghost predicate FirstBest(su: Setup, book: Book, pool: Pool, cs: seq<Pool>, now: Instant, o: Opportunity, k: nat) {
    && k < |cs| && Offers(su, book, pool, cs[k], now, o)
    && forall j, p :: 0 <= j < k && Offers(su, book, pool, cs[j], now, p) ==> p.netLamports < o.netLamports
  }

  ghost predicate FirstWidest(su: Setup, book: Book, pool: Pool, cs: seq<Pool>, now: Instant,
                              gap: nat, route: string, k: nat) {
    && k < |cs| && Comparable(su, book, pool, cs[k], now)
    && GapTo(book, pool, cs[k]) == gap && route == BarRoute(pool.tag, cs[k].tag)
    && forall j :: 0 <= j < k && Comparable(su, book, pool, cs[j], now) ==>
         GapTo(book, pool, cs[j]) < gap || GapTo(book, pool, cs[j]) > IMPLAUSIBLE_BPS
  }

  lemma {:induction false} LookKeepsFirst(su: Setup, book: Book, pool: Pool, cs: seq<Pool>, now: Instant)
    requires forall s :: s in cs ==> Comparable(su, book, pool, s, now)
    ensures KeepsFirst(su, book, pool, cs, now, LookOver(su, book, pool, cs, now))
  {
    if cs != [] {
      assert cs == Front(cs) + [Last(cs)] && Last(cs) in cs;
      var look, f, sib := LookOver(su, book, pool, Front(cs), now), Front(cs), Last(cs);
      LookKeepsFirst(su, book, pool, f, now);
      LookOverIsBest(su, book, pool, f, now);
      OneMoreBestKept(su, book, pool, f, sib, now, look);
      OneMoreWidestKept(su, book, pool, f, sib, now, look);
    }
  }

  lemma OneMoreBestKept(su: Setup, book: Book, pool: Pool, f: seq<Pool>, sib: Pool, now: Instant, look: Look)
    requires Comparable(su, book, pool, sib, now)
    requires KeepsFirst(su, book, pool, f, now, look) && LookIsBest(su, book, pool, f, now, look)
    ensures var b := LookAt(look, su, book, pool, sib, now).best;
            b.Best? ==> exists k: nat :: FirstBest(su, book, pool, f + [sib], now, b.opportunity, k)
  {
    var b := LookAt(look, su, book, pool, sib, now).best;
    if b == look.best && b.Best? {
      var k: nat :| FirstBest(su, book, pool, f, now, b.opportunity, k);
      assert forall j :: 0 <= j <= k ==> (f + [sib])[j] == f[j];
      assert FirstBest(su, book, pool, f + [sib], now, b.opportunity, k);
    } else if b.Best? {
      BestStep(su, book, pool, sib, now, look);
      StrictlyBetter(su, book, pool, sib, now, look);
      forall j, p | 0 <= j < |f| && Offers(su, book, pool, (f + [sib])[j], now, p)
        ensures p.netLamports < b.opportunity.netLamports
      {
        assert f[j] in f && (f + [sib])[j] == f[j];
      }
      assert FirstBest(su, book, pool, f + [sib], now, b.opportunity, |f|);
    }
  }

  /** A new best is more than the old one. */
  lemma StrictlyBetter(su: Setup, book: Book, pool: Pool, sib: Pool, now: Instant, look: Look)
    requires Comparable(su, book, pool, sib, now)
    ensures var b := LookAt(look, su, book, pool, sib, now).best;
            look.best.Best? && b != look.best ==> b.opportunity.netLamports > look.best.opportunity.netLamports
  {
  }

  lemma OneMoreWidestKept(su: Setup, book: Book, pool: Pool, f: seq<Pool>, sib: Pool, now: Instant, look: Look)
    requires Comparable(su, book, pool, sib, now)
    requires KeepsFirst(su, book, pool, f, now, look) && LookIsBest(su, book, pool, f, now, look)
    ensures var t := LookAt(look, su, book, pool, sib, now);
            t.widest > 0 ==> exists k: nat :: FirstWidest(su, book, pool, f + [sib], now, t.widest, t.widestRoute, k)
  {
    var t := LookAt(look, su, book, pool, sib, now);
    if t.widest > look.widest {
      forall j | 0 <= j < |f| && Comparable(su, book, pool, (f + [sib])[j], now)
                 && GapTo(book, pool, (f + [sib])[j]) <= IMPLAUSIBLE_BPS
        ensures GapTo(book, pool, (f + [sib])[j]) < t.widest
      {
        assert f[j] in f && (f + [sib])[j] == f[j];
      }
      assert FirstWidest(su, book, pool, f + [sib], now, t.widest, t.widestRoute, |f|);
    } else if t.widest > 0 {
      var k: nat :| FirstWidest(su, book, pool, f, now, look.widest, look.widestRoute, k);
      assert forall j :: 0 <= j <= k ==> (f + [sib])[j] == f[j];
      assert FirstWidest(su, book, pool, f + [sib], now, t.widest, t.widestRoute, k);
    }
  }

  /** The report is the first of its kind among the siblings looked at. */
  ghost predicate ReportsFirst(su: Setup, book: Book, pool: Pool, cs: seq<Pool>, now: Instant, found: Found) {
    if found.opportunity.Some?
    then exists k: nat :: FirstBest(su, book, pool, cs, now, found.opportunity.value, k)
    else found.gapBps > 0 ==> exists k: nat :: FirstWidest(su, book, pool, cs, now, found.gapBps, found.route, k)
  }

  lemma FirstIsReported(su: Setup, book: Book, pool: Pool, cs: seq<Pool>, ev: TriggerEvent, now: Instant, look: Look)
    requires KeepsFirst(su, book, pool, cs, now, look)
    ensures ReportsFirst(su, book, pool, cs, now, Concluded(pool, look, ev, now))
  {
  }

  /** The pool listed at `k` offers this trade, and no sibling listed before it
      offers one as good. */
  ghost predicate ListedBest(su: Setup, book: Book, pool: Pool, now: Instant, o: Opportunity, k: nat) {
    && k < |su.pools| && IsSibling(pool, su.pools[k]) && Offers(su, book, pool, su.pools[k], now, o)
    && forall j, p :: 0 <= j < k && IsSibling(pool, su.pools[j]) && Offers(su, book, pool, su.pools[j], now, p) ==>
         p.netLamports < o.netLamports
  }

  /** The pool listed at `k` is this far apart, and no sibling listed before it
      is plausibly as far. */
  ghost predicate ListedWidest(su: Setup, book: Book, pool: Pool, now: Instant, gap: nat, route: string, k: nat) {
    && k < |su.pools| && IsSibling(pool, su.pools[k]) && Comparable(su, book, pool, su.pools[k], now)
    && GapTo(book, pool, su.pools[k]) == gap && route == BarRoute(pool.tag, su.pools[k].tag)
    && forall j :: 0 <= j < k && IsSibling(pool, su.pools[j]) && Comparable(su, book, pool, su.pools[j], now) ==>
         GapTo(book, pool, su.pools[j]) < gap || GapTo(book, pool, su.pools[j]) > IMPLAUSIBLE_BPS
  }

  /** Where the `k`-th peer is listed, and which peers are listed before it. */
  lemma PeerIsListed(su: Setup, book: Book, pool: Pool, now: Instant, k: nat) returns (m: nat)
    requires k < |Peers(su, book, pool, now)|
    ensures m < |su.pools| && IsSibling(pool, su.pools[m]) && su.pools[m] == Peers(su, book, pool, now)[k]
    ensures forall j :: 0 <= j < m && IsSibling(pool, su.pools[j]) && Comparable(su, book, pool, su.pools[j], now) ==>
              su.pools[j] in Peers(su, book, pool, now)[..k]
  {
    var sibling := (s: Pool) => IsSibling(pool, s);
    var usable := (s: Pool) => Comparable(su, book, pool, s, now);
    FilterBoth(su.pools, sibling, usable, (s: Pool) => sibling(s) && usable(s));
    var idx := FilterIndex(su.pools, (s: Pool) => sibling(s) && usable(s));
    m := idx[k];
    EarlierPlaces(su.pools, Peers(su, book, pool, now), idx, k);
  }

  lemma EarlierPlaces(pools: seq<Pool>, cs: seq<Pool>, idx: seq<nat>, k: nat)
    requires |idx| == |cs| && k < |cs|
    requires forall l :: 0 <= l < |idx| ==> idx[l] < |pools| && cs[l] == pools[idx[l]]
    requires forall l, n :: 0 <= l < n < |idx| ==> idx[l] < idx[n]
    ensures forall j :: 0 <= j < idx[k] && j in idx ==> pools[j] in cs[..k]
  {
    forall j | 0 <= j < idx[k] && j in idx
      ensures pools[j] in cs[..k]
    {
      var l :| 0 <= l < |idx| && idx[l] == j;
      assert cs[..k][l] == pools[j];
    }
  }

  lemma BestIsListed(su: Setup, book: Book, pool: Pool, now: Instant, o: Opportunity, k: nat) returns (m: nat)
    requires FirstBest(su, book, pool, Peers(su, book, pool, now), now, o, k)
    ensures ListedBest(su, book, pool, now, o, m)
  {
    m := PeerIsListed(su, book, pool, now, k);
    forall j, p | 0 <= j < m && IsSibling(pool, su.pools[j]) && Offers(su, book, pool, su.pools[j], now, p)
      ensures p.netLamports < o.netLamports
    {
      OffersFacts(su, book, pool, su.pools[j], now, p);
      assert su.pools[j] in Peers(su, book, pool, now)[..k];
    }
  }

  lemma WidestIsListed(su: Setup, book: Book, pool: Pool, now: Instant, gap: nat, route: string, k: nat)
    returns (m: nat)
    requires FirstWidest(su, book, pool, Peers(su, book, pool, now), now, gap, route, k)
    ensures ListedWidest(su, book, pool, now, gap, route, m)
  {
    m := PeerIsListed(su, book, pool, now, k);
    forall j | 0 <= j < m && IsSibling(pool, su.pools[j]) && Comparable(su, book, pool, su.pools[j], now)
      ensures GapTo(book, pool, su.pools[j]) < gap || GapTo(book, pool, su.pools[j]) > IMPLAUSIBLE_BPS
    {
      assert su.pools[j] in Peers(su, book, pool, now)[..k];
    }
  }

  /** Of equally good trades the first listed sibling's; with no trade, the
      first of the widest plausible gaps. */
  ghost predicate ListedFirst(su: Setup, book: Book, pool: Pool, now: Instant, found: Found) {
    if found.opportunity.Some?
    then exists k: nat :: ListedBest(su, book, pool, now, found.opportunity.value, k)
    else found.gapBps > 0 ==> exists k: nat :: ListedWidest(su, book, pool, now, found.gapBps, found.route, k)
  }

  lemma ReportIsListed(su: Setup, book: Book, pool: Pool, now: Instant, found: Found)
    requires ReportsFirst(su, book, pool, Peers(su, book, pool, now), now, found)
    ensures ListedFirst(su, book, pool, now, found)
  {
    var cs := Peers(su, book, pool, now);
    if found.opportunity.Some? {
      var k: nat :| FirstBest(su, book, pool, cs, now, found.opportunity.value, k);
      var m := BestIsListed(su, book, pool, now, found.opportunity.value, k);
    } else if found.gapBps > 0 {
      var k: nat :| FirstWidest(su, book, pool, cs, now, found.gapBps, found.route, k);
      var m := WidestIsListed(su, book, pool, now, found.gapBps, found.route, k);
    }
  }

  /** What a first look reports is, of equally good answers, the first listed. */
  lemma DecisionIsTheFirst(su: Setup, book: Book, ev: TriggerEvent, now: Instant)
    requires Decide(su, book, ev, now).Some?
    ensures ListedFirst(su, book, Find(su.pools, ev.pool).value, now, Decide(su, book, ev, now).value)
  {
    var pool := Find(su.pools, ev.pool).value;
    var cs := Peers(su, book, pool, now);
    LookKeepsFirst(su, book, pool, cs, now);
    FirstIsReported(su, book, pool, cs, ev, now, LookOver(su, book, pool, cs, now));
    ReportIsListed(su, book, pool, now, Decide(su, book, ev, now).value);
  }

  // ----- runs of one lane -----

  /** A trigger, the moment it is looked at, and the book at that moment. */
  datatype Call = Call(ev: TriggerEvent, now: Instant, book: Book)

  function AfterCalls(su: Setup, calls: seq<Call>): LaneState {
    if calls == [] then FRESH_LANE else
      Triggered(su, AfterCalls(su, Front(calls)), Last(calls).book, Last(calls).ev, Last(calls).now)
  }

  /** Events judged on a pool the bot does not know. */
  function Unknown(su: Setup, acted: set<(string, Pubkey)>): set<(string, Pubkey)> {
    set k | k in acted && Find(su.pools, k.1).None?
  }

  /** The widest numbers, on their own: nothing implausible is ever the best. */
  ghost predicate BestsHold(su: Setup, stats: LaneStats) {
    && stats.bestNetBps <= stats.bestGapBps <= IMPLAUSIBLE_BPS
    && (stats.actionable > 0 ==> stats.bestNetBps >= Max(1, su.costs.marginBps))
  }

  /** What is never counted as a reason, and what the implausible count is. */
  ghost predicate ReasonsHold(su: Setup, stats: LaneStats) {
    && Stale !in stats.declined && WrongWayRound !in stats.declined
    && (su.size > 0 && DistinctTags(su.pools) ==>
          NotATrade !in stats.declined && Count(stats.declined, Implausible) == stats.implausible)
  }

  ghost predicate CountsHold(su: Setup, st: LaneState) {
    && st.stats.seen == |st.acted|
    && st.stats.seen == st.stats.actionable + st.stats.belowCost + st.stats.noPrice + |Unknown(su, st.acted)|
  }

  ghost predicate LaneInvariant(su: Setup, st: LaneState) {
    CountsHold(su, st) && BestsHold(su, st.stats) && ReasonsHold(su, st.stats)
  }

  lemma ReasonStep(su: Setup, book: Book, pool: Pool, sib: Pool, now: Instant, stats: LaneStats)
    requires Comparable(su, book, pool, sib, now) && ReasonsHold(su, stats)
    requires pool in su.pools && sib in su.pools && IsSibling(pool, sib)
    ensures ReasonsHold(su, CountAt(stats, su, book, pool, sib, now))
  {
  }

  lemma BestsStep(su: Setup, book: Book, pool: Pool, sib: Pool, now: Instant, stats: LaneStats, look: Look)
    requires Comparable(su, book, pool, sib, now)
    requires stats.bestNetBps <= stats.bestGapBps <= IMPLAUSIBLE_BPS
    ensures var t := CountAt(stats, su, book, pool, sib, now);
            && stats.bestNetBps <= t.bestNetBps <= t.bestGapBps <= IMPLAUSIBLE_BPS
            && (LookAt(look, su, book, pool, sib, now).best.Best? ==>
                  look.best.Best? || t.bestNetBps >= Max(1, su.costs.marginBps))
  {
    BestStep(su, book, pool, sib, now, look);
    if look.best.NoBest? && LookAt(look, su, book, pool, sib, now).best.Best? {
      OffersFacts(su, book, pool, sib, now, LookAt(look, su, book, pool, sib, now).best.opportunity);
    }
  }

  /** The loop bumps only the gap counters and the reasons. */
  lemma {:induction false} CountOverFrame(su: Setup, book: Book, pool: Pool, cs: seq<Pool>, now: Instant,
                                          stats: LaneStats)
    requires forall s :: s in cs ==> Comparable(su, book, pool, s, now)
    ensures var t := CountOver(stats, su, book, pool, cs, now);
            && t.seen == stats.seen && t.actionable == stats.actionable && t.duplicates == stats.duplicates
            && t.noPrice == stats.noPrice && t.belowCost == stats.belowCost
  {
    if cs != [] {
      CountOverFrame(su, book, pool, Front(cs), now, stats);
    }
  }

  lemma {:induction false} ReasonsOver(su: Setup, book: Book, pool: Pool, cs: seq<Pool>, now: Instant, stats: LaneStats)
    requires forall s :: s in cs ==> Comparable(su, book, pool, s, now) && s in su.pools && IsSibling(pool, s)
    requires pool in su.pools && ReasonsHold(su, stats)
    ensures ReasonsHold(su, CountOver(stats, su, book, pool, cs, now))
  {
    if cs != [] {
      assert cs == Front(cs) + [Last(cs)] && Last(cs) in cs;
      ReasonsOver(su, book, pool, Front(cs), now, stats);
      ReasonStep(su, book, pool, Last(cs), now, CountOver(stats, su, book, pool, Front(cs), now));
    }
  }

  lemma {:induction false} BestsOver(su: Setup, book: Book, pool: Pool, cs: seq<Pool>, now: Instant, stats: LaneStats)
    requires forall s :: s in cs ==> Comparable(su, book, pool, s, now)
    requires stats.bestNetBps <= stats.bestGapBps <= IMPLAUSIBLE_BPS
    ensures var t := CountOver(stats, su, book, pool, cs, now);
            && stats.bestNetBps <= t.bestNetBps <= t.bestGapBps <= IMPLAUSIBLE_BPS
            && (LookOver(su, book, pool, cs, now).best.Best? ==> t.bestNetBps >= Max(1, su.costs.marginBps))
  {
    if cs != [] {
      assert cs == Front(cs) + [Last(cs)] && Last(cs) in cs;
      BestsOver(su, book, pool, Front(cs), now, stats);
      BestsStep(su, book, pool, Last(cs), now, CountOver(stats, su, book, pool, Front(cs), now),
                LookOver(su, book, pool, Front(cs), now));
    }
  }

  lemma UnknownStep(su: Setup, acted: set<(string, Pubkey)>, k: (string, Pubkey))
    requires k !in acted
    ensures |acted + {k}| == |acted| + 1
    ensures |Unknown(su, acted + {k})| == |Unknown(su, acted)| + if Find(su.pools, k.1).None? then 1 else 0
  {
    if Find(su.pools, k.1).None? {
      assert Unknown(su, acted + {k}) == Unknown(su, acted) + {k};
    } else {
      assert Unknown(su, acted + {k}) == Unknown(su, acted);
    }
  }

  /** A first look on a known pool is counted in exactly one way. */
  lemma LookIsCountedOnce(su: Setup, st: LaneState, book: Book, ev: TriggerEvent, now: Instant)
    requires (ev.signature, ev.pool) !in st.acted
    ensures var t := Triggered(su, st, book, ev, now);
            && t.acted == st.acted + {(ev.signature, ev.pool)}
            && t.stats.seen == st.stats.seen + 1
            && t.stats.actionable + t.stats.belowCost + t.stats.noPrice
               == st.stats.actionable + st.stats.belowCost + st.stats.noPrice
                  + if Find(su.pools, ev.pool).Some? then 1 else 0
  {
    var found := Find(su.pools, ev.pool);
    if found.Some? {
      CountOverFrame(su, book, found.value, Peers(su, book, found.value, now), now,
                     st.stats.(seen := st.stats.seen + 1));
    }
  }

  lemma CountsStep(su: Setup, st: LaneState, book: Book, ev: TriggerEvent, now: Instant)
    requires CountsHold(su, st)
    ensures CountsHold(su, Triggered(su, st, book, ev, now))
  {
    if (ev.signature, ev.pool) !in st.acted {
      UnknownStep(su, st.acted, (ev.signature, ev.pool));
      LookIsCountedOnce(su, st, book, ev, now);
    }
  }

  lemma BestsTriggered(su: Setup, st: LaneState, book: Book, ev: TriggerEvent, now: Instant)
    requires BestsHold(su, st.stats)
    ensures BestsHold(su, Triggered(su, st, book, ev, now).stats)
  {
    var found := Find(su.pools, ev.pool);
    if (ev.signature, ev.pool) !in st.acted && found.Some? {
      var cs, stats := Peers(su, book, found.value, now), st.stats.(seen := st.stats.seen + 1);
      BestsOver(su, book, found.value, cs, now, stats);
      CountOverFrame(su, book, found.value, cs, now, stats);
    }
  }

  lemma ReasonsTriggered(su: Setup, st: LaneState, book: Book, ev: TriggerEvent, now: Instant)
    requires ReasonsHold(su, st.stats)
    ensures ReasonsHold(su, Triggered(su, st, book, ev, now).stats)
  {
    var found := Find(su.pools, ev.pool);
    if (ev.signature, ev.pool) !in st.acted && found.Some? {
      ReasonsTallied(su, st.stats.(seen := st.stats.seen + 1), book, found.value, now);
    }
  }

  lemma ReasonsTallied(su: Setup, stats: LaneStats, book: Book, pool: Pool, now: Instant)
    requires ReasonsHold(su, stats) && pool in su.pools
    ensures ReasonsHold(su, Tallied(su, stats, book, pool, now))
  {
    SiblingsAre(su.pools, pool);
    ReasonsOver(su, book, pool, Peers(su, book, pool, now), now, stats);
  }

  lemma InvariantStep(su: Setup, st: LaneState, book: Book, ev: TriggerEvent, now: Instant)
    requires LaneInvariant(su, st)
    ensures LaneInvariant(su, Triggered(su, st, book, ev, now))
  {
    CountsStep(su, st, book, ev, now);
    BestsTriggered(su, st, book, ev, now);
    ReasonsTriggered(su, st, book, ev, now);
  }

  /** Over every run of triggers on any books: each call is a first look or a
      repeat; each first look is acted on once and is exactly one of actionable,
      below cost, unpriced, or on an unknown pool; no reason counts what is not
      a finding; and the best net gap never exceeds the best gap, which is
      plausible, and clears the margin once anything was actionable. */
  lemma {:induction false} LaneCountersHold(su: Setup, calls: seq<Call>)
    ensures LaneInvariant(su, AfterCalls(su, calls))
    ensures AfterCalls(su, calls).stats.seen + AfterCalls(su, calls).stats.duplicates == |calls|
  {
    if calls == [] {
      assert Unknown(su, {}) == {};
    } else {
      LaneCountersHold(su, Front(calls));
      var c, st := Last(calls), AfterCalls(su, Front(calls));
      InvariantStep(su, st, c.book, c.ev, c.now);
      SeenOrRepeat(su, st, c.book, c.ev, c.now);
    }
  }

  lemma SeenOrRepeat(su: Setup, st: LaneState, book: Book, ev: TriggerEvent, now: Instant)
    ensures var t := Triggered(su, st, book, ev, now).stats;
            && t.seen + t.duplicates == st.stats.seen + st.stats.duplicates + 1
            && t.actionable == st.stats.actionable +
                 if Answer(su, st, book, ev, now).Some? && Answer(su, st, book, ev, now).value.opportunity.Some?
                 then 1 else 0
  {
    var found := Find(su.pools, ev.pool);
    if (ev.signature, ev.pool) !in st.acted && found.Some? {
      CountOverFrame(su, book, found.value, Peers(su, book, found.value, now), now,
                     st.stats.(seen := st.stats.seen + 1));
    }
  }

  /** Two lanes with different pasts answer a first look alike, and neither
      answers a repeat. */
  lemma LanesDecideAlike(su: Setup, a: seq<Call>, b: seq<Call>, book: Book, ev: TriggerEvent, now: Instant)
    ensures forall calls :: calls == a || calls == b ==>
              Answer(su, AfterCalls(su, calls), book, ev, now)
              == if exists c :: c in calls && c.ev.signature == ev.signature && c.ev.pool == ev.pool
                 then None else Decide(su, book, ev, now)
  {
    ActedAre(su, a, ev);
    ActedAre(su, b, ev);
  }

  lemma {:induction false} ActedAre(su: Setup, calls: seq<Call>, ev: TriggerEvent)
    ensures (ev.signature, ev.pool) in AfterCalls(su, calls).acted
            <==> exists c :: c in calls && c.ev.signature == ev.signature && c.ev.pool == ev.pool
  {
    if calls != [] {
      assert calls == Front(calls) + [Last(calls)];
      ActedAre(su, Front(calls), ev);
    }
  }
}
