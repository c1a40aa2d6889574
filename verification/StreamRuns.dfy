/** Where every price a bot looks at came from, over every interleaving of the
    stream's steps with the bots' looks. */
module StreamRuns {
  import opened Prelude
  import opened Whirlpool
  import opened Arb
  import opened Pools
  import opened Lanes
  import opened LaneRuns
  import Stream

  type Step = Stream.Step
  type StreamState = Stream.StreamState

  function After(pools: seq<Pool>, steps: seq<Step>): StreamState {
    if steps == [] then Stream.NOT_CONNECTED else Stream.Apply(pools, After(pools, Front(steps)), Last(steps))
  }

  ghost predicate Run(pools: seq<Pool>, steps: seq<Step>) {
    steps == [] || (Run(pools, Front(steps)) && Stream.Enabled(After(pools, Front(steps)), Last(steps)))
  }

  /** No connection was opened or closed from step `i` on, up to `j`. */
  ghost predicate SameConnection(steps: seq<Step>, i: nat, j: nat) {
    j <= |steps| && forall k :: i <= k < j ==> steps[k].Acked? || steps[k].Notified?
  }

  /** Since step `i` nothing was connected anew and the book was not cleared; the
      connection may have just dropped. */
  ghost predicate LatestConnection(steps: seq<Step>, i: nat) {
    forall k :: i <= k < |steps| ==> !steps[k].Connected? && !steps[k].Cleared?
  }

  /** Step `a` acknowledged this subscription for pool `index`, and no later one
      on the connection, up to step `n`, acknowledged it again. */
  ghost predicate AckedFor(steps: seq<Step>, a: nat, n: nat, subscription: nat, index: nat) {
    && a < n <= |steps| && steps[a] == Stream.Acked(index + 1, subscription)
    && SameConnection(steps, a, n)
    && forall k :: a < k < n && steps[k].Acked? && steps[k].subscription == subscription ==> steps[k].id == 0
  }

  lemma {:induction false} OnlyStreamingHasSubs(pools: seq<Pool>, steps: seq<Step>)
    requires Run(pools, steps)
    ensures !After(pools, steps).phase.Streaming? ==> After(pools, steps).subs == map[]
  {
  }

  lemma {:induction false} SubscriptionWasAcked(pools: seq<Pool>, steps: seq<Step>, subscription: nat)
    requires Run(pools, steps) && subscription in After(pools, steps).subs
    ensures exists a: nat :: AckedFor(steps, a, |steps|, subscription, After(pools, steps).subs[subscription])
  {
    var f, s := Front(steps), Last(steps);
    if s.Acked? && s.subscription == subscription && s.id > 0 {
      assert AckedFor(steps, |steps| - 1, |steps|, subscription, s.id - 1);
    } else {
      OnlyStreamingHasSubs(pools, f);
      SubscriptionWasAcked(pools, f, subscription);
      var a: nat :| AckedFor(f, a, |f|, subscription, After(pools, f).subs[subscription]);
      assert AckedFor(steps, a, |steps|, subscription, After(pools, steps).subs[subscription]);
    }
  }

  /** This step, taken in this state, writes a price of this pool. */
  ghost predicate Writes(pools: seq<Pool>, st: StreamState, s: Step, p: Pubkey) {
    && s.Notified? && s.subscription in st.subs && st.subs[s.subscription] < |pools|
    && var pool := pools[st.subs[s.subscription]];
       pool.address == p && Decode(s.data, pool.decimalsA, pool.decimalsB).Some?
  }

  /** No step from `i` on wrote a price of this pool. */
  ghost predicate Untouched(pools: seq<Pool>, steps: seq<Step>, i: nat, p: Pubkey) {
    forall m :: i <= m < |steps| ==> !Writes(pools, After(pools, steps[..m]), steps[m], p)
  }

  /** The price came in step `n` on the latest connection, on the subscription
      acknowledged in step `a` for exactly this pool, whose decimals read it. */
  ghost predicate ReadFrom(pools: seq<Pool>, steps: seq<Step>, address: Pubkey, priced: Priced, a: nat, n: nat) {
    && n < |steps| && steps[n].Notified?
    && var index := IndexAcked(steps, a);
       && index < |pools| && pools[index].address == address
       && AckedFor(steps, a, n, steps[n].subscription, index)
       && LatestConnection(steps, a)
       && Decode(steps[n].data, pools[index].decimalsA, pools[index].decimalsB) == Some(priced.state)
       && priced.slot == steps[n].slot && priced.at == steps[n].at
  }

  /** ... and it is the last price of the pool that came in. */
  ghost predicate CameFrom(pools: seq<Pool>, steps: seq<Step>, address: Pubkey, priced: Priced, a: nat, n: nat) {
    ReadFrom(pools, steps, address, priced, a, n) && Untouched(pools, steps, n + 1, address)
  }

  function IndexAcked(steps: seq<Step>, a: nat): nat {
    if a < |steps| && steps[a].Acked? && steps[a].id > 0 then steps[a].id - 1 else 0
  }

  lemma UntouchedExtends(pools: seq<Pool>, steps: seq<Step>, i: nat, p: Pubkey)
    requires steps != [] && Untouched(pools, Front(steps), i, p)
    requires !Writes(pools, After(pools, Front(steps)), Last(steps), p)
    ensures Untouched(pools, steps, i, p)
  {
    forall m | i <= m < |steps|
      ensures !Writes(pools, After(pools, steps[..m]), steps[m], p)
    {
      assert steps[..m] == Front(steps)[..m];
    }
  }

  lemma AckedExtends(steps: seq<Step>, a: nat, n: nat, subscription: nat, index: nat)
    requires steps != [] && AckedFor(Front(steps), a, n, subscription, index)
    ensures AckedFor(steps, a, n, subscription, index)
  {
    assert forall k :: 0 <= k < |steps| - 1 ==> Front(steps)[k] == steps[k];
  }

  lemma ReadFromExtends(pools: seq<Pool>, steps: seq<Step>, address: Pubkey, priced: Priced, a: nat, n: nat)
    requires steps != [] && ReadFrom(pools, Front(steps), address, priced, a, n)
    requires !Last(steps).Connected? && !Last(steps).Cleared?
    ensures ReadFrom(pools, steps, address, priced, a, n)
  {
    AckedExtends(steps, a, n, steps[n].subscription, IndexAcked(Front(steps), a));
  }

  lemma CameFromExtends(pools: seq<Pool>, steps: seq<Step>, address: Pubkey, priced: Priced, a: nat, n: nat)
    requires steps != [] && CameFrom(pools, Front(steps), address, priced, a, n)
    requires !Last(steps).Connected? && !Last(steps).Cleared?
    requires !Writes(pools, After(pools, Front(steps)), Last(steps), address)
    ensures CameFrom(pools, steps, address, priced, a, n)
  {
    ReadFromExtends(pools, steps, address, priced, a, n);
    UntouchedExtends(pools, steps, n + 1, address);
  }

  lemma NotifiedCameFrom(pools: seq<Pool>, steps: seq<Step>, address: Pubkey, a: nat)
    requires steps != [] && Last(steps).Notified?
    requires var (s, st) := (Last(steps), After(pools, Front(steps)));
             && s.subscription in st.subs && st.subs[s.subscription] < |pools|
             && AckedFor(Front(steps), a, |steps| - 1, s.subscription, st.subs[s.subscription])
             && pools[st.subs[s.subscription]].address == address
             && Decode(s.data, pools[st.subs[s.subscription]].decimalsA, pools[st.subs[s.subscription]].decimalsB).Some?
    ensures address in After(pools, steps).book
    ensures CameFrom(pools, steps, address, After(pools, steps).book[address], a, |steps| - 1)
  {
    var f, s := Front(steps), Last(steps);
    assert forall k :: 0 <= k < |f| ==> f[k] == steps[k];
    assert IndexAcked(steps, a) == After(pools, f).subs[s.subscription];
    assert AckedFor(steps, a, |steps| - 1, s.subscription, IndexAcked(steps, a));
  }

  ghost predicate BookHasProvenance(pools: seq<Pool>, steps: seq<Step>) {
    var book := After(pools, steps).book;
    forall p :: p in book ==> exists a: nat, n: nat :: CameFrom(pools, steps, p, book[p], a, n)
  }

  /** A connection never opens over an old book. */
  lemma {:induction false} IdleBookIsEmpty(pools: seq<Pool>, steps: seq<Step>)
    requires Run(pools, steps)
    ensures After(pools, steps).phase.Idle? ==> After(pools, steps).book == map[]
  {
  }

  lemma PriceHasProvenance(pools: seq<Pool>, steps: seq<Step>, p: Pubkey)
    requires Run(pools, steps) && steps != [] && BookHasProvenance(pools, Front(steps)) && p in After(pools, steps).book
    requires After(pools, Front(steps)).phase.Idle? ==> After(pools, Front(steps)).book == map[]
    ensures exists a: nat, n: nat :: CameFrom(pools, steps, p, After(pools, steps).book[p], a, n)
  {
    var f, s, st := Front(steps), Last(steps), After(pools, Front(steps));
    if Writes(pools, st, s, p) {
      WrittenHasProvenance(pools, steps, p);
    } else {
      KeptUnwritten(pools, st, s, p);
      var a: nat, n: nat :| CameFrom(pools, f, p, st.book[p], a, n);
      CameFromExtends(pools, steps, p, st.book[p], a, n);
    }
  }

  lemma WrittenHasProvenance(pools: seq<Pool>, steps: seq<Step>, p: Pubkey)
    requires Run(pools, steps) && steps != [] && Writes(pools, After(pools, Front(steps)), Last(steps), p)
    ensures p in After(pools, steps).book
    ensures exists a: nat, n: nat :: CameFrom(pools, steps, p, After(pools, steps).book[p], a, n)
  {
    var f, s, st := Front(steps), Last(steps), After(pools, Front(steps));
    SubscriptionWasAcked(pools, f, s.subscription);
    var a: nat :| AckedFor(f, a, |f|, s.subscription, st.subs[s.subscription]);
    NotifiedCameFrom(pools, steps, p, a);
  }

  /** A price that a step leaves in the book unwritten was there before, and the
      step was no new connection. */
  lemma KeptUnwritten(pools: seq<Pool>, st: StreamState, s: Step, p: Pubkey)
    requires Stream.Enabled(st, s) && (st.phase.Idle? ==> st.book == map[])
    requires p in Stream.Apply(pools, st, s).book && !Writes(pools, st, s, p)
    ensures p in st.book && Stream.Apply(pools, st, s).book[p] == st.book[p]
    ensures !s.Connected? && !s.Cleared?
  {
  }

  /** Provenance: after any run of the stream, every price in the book came in
      on the latest connection, by the last notification that wrote it, on the
      subscription that was acknowledged for exactly that pool, and reads as that
      pool decodes it. */
  lemma {:induction false} PricesHaveProvenance(pools: seq<Pool>, steps: seq<Step>)
    requires Run(pools, steps)
    ensures BookHasProvenance(pools, steps)
  {
    if steps != [] {
      PricesHaveProvenance(pools, Front(steps));
      IdleBookIsEmpty(pools, Front(steps));
      forall p | p in After(pools, steps).book
        ensures exists a: nat, n: nat :: CameFrom(pools, steps, p, After(pools, steps).book[p], a, n)
      {
        PriceHasProvenance(pools, steps, p);
      }
    }
  }

  /** A server that tells the truth: within one connection a subscription id it
      acknowledged for an account carries only that account's bytes. */
  ghost predicate Honest(pools: seq<Pool>, steps: seq<Step>) {
    forall a: nat, n: nat :: a < n < |steps| && steps[a].Acked? && steps[n].Notified?
      && steps[a].subscription == steps[n].subscription && 0 < steps[a].id <= |pools| && SameConnection(steps, a, n)
      ==> steps[n].origin == pools[steps[a].id - 1].address
  }

  /** The bytes behind a price are the pool's own. */
  ghost predicate OwnPrice(pools: seq<Pool>, steps: seq<Step>, address: Pubkey, priced: Priced, maxAge: Duration,
                           now: Instant) {
    exists a: nat, n: nat ::
      && CameFrom(pools, steps, address, priced, a, n)
      && steps[n].origin == address
      && SatSub(now, steps[n].at) <= maxAge
  }

  lemma HonestPriceIsOwn(pools: seq<Pool>, steps: seq<Step>, address: Pubkey, maxAge: Duration, now: Instant)
    requires Run(pools, steps) && Honest(pools, steps) && address in After(pools, steps).book
    requires SatSub(now, After(pools, steps).book[address].at) <= maxAge
    ensures OwnPrice(pools, steps, address, After(pools, steps).book[address], maxAge, now)
  {
    var priced := After(pools, steps).book[address];
    PricesHaveProvenance(pools, steps);
    var a: nat, n: nat :| CameFrom(pools, steps, address, priced, a, n);
    assert steps[n].origin == pools[steps[a].id - 1].address;
  }

  /** The trade is between the pool that triggered and a sibling, and rests on
      both pools' own fresh prices. */
  ghost predicate RestsOn(su: Setup, steps: seq<Step>, ev: TriggerEvent, now: Instant, o: Opportunity, pool: Pool,
                          sib: Pool) {
    var book := After(su.pools, steps).book;
    && Find(su.pools, ev.pool) == Some(pool) && sib in su.pools && IsSibling(pool, sib)
    && Offers(su, book, pool, sib, now, o)
    && OwnPrice(su.pools, steps, pool.address, book[pool.address], su.costs.maxPriceAge, now)
    && OwnPrice(su.pools, steps, sib.address, book[sib.address], su.costs.maxPriceAge, now)
  }

  lemma OfferRestsOn(su: Setup, steps: seq<Step>, ev: TriggerEvent, now: Instant, o: Opportunity, pool: Pool, sib: Pool)
    requires Run(su.pools, steps) && Honest(su.pools, steps)
    requires Find(su.pools, ev.pool) == Some(pool) && sib in su.pools && IsSibling(pool, sib)
    requires Offers(su, After(su.pools, steps).book, pool, sib, now, o)
    ensures RestsOn(su, steps, ev, now, o, pool, sib)
  {
    OffersFacts(su, After(su.pools, steps).book, pool, sib, now, o);
    HonestPriceIsOwn(su.pools, steps, pool.address, su.costs.maxPriceAge, now);
    HonestPriceIsOwn(su.pools, steps, sib.address, su.costs.maxPriceAge, now);
  }

  /** Every opportunity, whenever a bot looks, in whatever state the run of the
      stream has left the book: both its prices came in on the latest
      connection from their own accounts' bytes, and neither is older than the
      bot allows. */
  lemma OpportunitiesRestOnOwnFreshPrices(su: Setup, steps: seq<Step>, ev: TriggerEvent, now: Instant)
    requires Run(su.pools, steps) && Honest(su.pools, steps)
    requires Decide(su, After(su.pools, steps).book, ev, now).Some?
    requires Decide(su, After(su.pools, steps).book, ev, now).value.opportunity.Some?
    ensures exists pool, sib ::
              RestsOn(su, steps, ev, now,
                      Decide(su, After(su.pools, steps).book, ev, now).value.opportunity.value, pool, sib)
  {
    var book := After(su.pools, steps).book;
    var found := Decide(su, book, ev, now).value;
    DecisionIsBestOnOffer(su, book, ev, now);
    var pool := Find(su.pools, ev.pool).value;
    assert BestOnOffer(su, book, pool, now, found);
    SiblingsAre(su.pools, pool);
    var sib :| sib in Siblings(su.pools, pool) && Offers(su, book, pool, sib, now, found.opportunity.value);
    OfferRestsOn(su, steps, ev, now, found.opportunity.value, pool, sib);
  }

  /** Once the book of a lost connection is cleared, and until a new one opens,
      nobody is answered. */
  lemma OutagesAnswerNothing(su: Setup, steps: seq<Step>, ev: TriggerEvent, now: Instant)
    requires Run(su.pools, steps) && After(su.pools, steps).phase.Idle?
    ensures Decide(su, After(su.pools, steps).book, ev, now).None?
  {
    IdleBookIsEmpty(su.pools, steps);
    DecisionIsBestOnOffer(su, After(su.pools, steps).book, ev, now);
  }

  /** Between the drop and the clearing the bots still see the book as the lost
      connection left it: a look is answered as it was before the drop. */
  lemma DroppedStillAnswers(su: Setup, steps: seq<Step>, ev: TriggerEvent, now: Instant)
    requires Run(su.pools, steps) && After(su.pools, steps).phase.Lost?
    ensures steps != [] && Last(steps).Dropped?
    ensures Decide(su, After(su.pools, steps).book, ev, now) == Decide(su, After(su.pools, Front(steps)).book, ev, now)
  {
  }

  // ----- the two sides' attributions -----

  type Acks = seq<(nat, nat)>

  /** The price side keeps the index and checks it when a notification comes;
      the lane side checks it when the acknowledgement comes. */
  function PriceSubs(acks: Acks): map<nat, nat> {
    if acks == [] then map[] else
      var (id, sub) := Last(acks);
      if id > 0 then PriceSubs(Front(acks))[sub := id - 1] else PriceSubs(Front(acks))
  }

  function LaneSubs(accounts: seq<Pubkey>, acks: Acks): map<nat, Pubkey> {
    if acks == [] then map[] else Stream.WatchedAfter(LaneSubs(accounts, Front(acks)), accounts, Last(acks))
  }

  function PriceSide(accounts: seq<Pubkey>, acks: Acks, sub: nat): Option<Pubkey> {
    if sub in PriceSubs(acks) && PriceSubs(acks)[sub] < |accounts| then Some(accounts[PriceSubs(acks)[sub]]) else None
  }

  function LaneSide(accounts: seq<Pubkey>, acks: Acks, sub: nat): Option<Pubkey> {
    if sub in LaneSubs(accounts, acks) then Some(LaneSubs(accounts, acks)[sub]) else None
  }

  /** The last request a subscription was acknowledged for, below a bound. */
  function LastAcked(acks: Acks, sub: nat, bound: Option<nat>): Option<nat> {
    if acks == [] then None else
      var (id, s) := Last(acks);
      if s == sub && id > 0 && (bound.Some? ==> id - 1 < bound.value) then Some(id - 1)
      else LastAcked(Front(acks), sub, bound)
  }

  lemma {:induction false} SidesAreLastAcked(accounts: seq<Pubkey>, acks: Acks, sub: nat)
    ensures var (any, known) := (LastAcked(acks, sub, None), LastAcked(acks, sub, Some(|accounts|)));
            && PriceSide(accounts, acks, sub)
               == (if any.Some? && any.value < |accounts| then Some(accounts[any.value]) else None)
            && (known.Some? ==> known.value < |accounts|)
            && LaneSide(accounts, acks, sub) == (if known.Some? then Some(accounts[known.value]) else None)
            && (sub in PriceSubs(acks) <==> any.Some?) && (any.Some? ==> PriceSubs(acks)[sub] == any.value)
            && (any.Some? && any.value < |accounts| ==> known == any)
            && (known.Some? ==> any.Some?)
  {
    if acks != [] {
      SidesAreLastAcked(accounts, Front(acks), sub);
    }
  }

  /** The two sides attribute a subscription to the same account, except exactly
      when a request that was never made is acknowledged over one that was: the
      price side then forgets, and the lane side keeps the older account. */
  lemma SidesAgree(accounts: seq<Pubkey>, acks: Acks, sub: nat)
    ensures var (any, known) := (LastAcked(acks, sub, None), LastAcked(acks, sub, Some(|accounts|)));
            PriceSide(accounts, acks, sub) == LaneSide(accounts, acks, sub)
            <==> !(known.Some? && any.Some? && any.value >= |accounts|)
  {
    SidesAreLastAcked(accounts, acks, sub);
  }
}
