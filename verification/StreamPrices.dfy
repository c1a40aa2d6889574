/** Exactly which prices the stream's book holds, read off the steps alone: what
    was acknowledged, what came in, and what was cleared since. */
module StreamPrices {
  import opened Prelude
  import opened Whirlpool
  import opened Arb
  import opened Pools
  import opened StreamRuns
  import Stream

  /** Step `n` delivers this price of this address: on its connection the
      subscription was last acknowledged, in step `a`, for a pool listed at the
      address, and the pool's decimals read the bytes. */
  ghost predicate Delivers(pools: seq<Pool>, steps: seq<Step>, a: nat, n: nat, address: Pubkey, priced: Priced) {
    && a < n < |steps| && steps[a].Acked? && steps[n].Notified?
    && 0 < steps[a].id <= |pools| && steps[a].subscription == steps[n].subscription
    && (forall k :: a < k < n ==> steps[k].Notified? || (steps[k].Acked? && !Overrides(steps[k], steps[a])))
    && var pool := pools[steps[a].id - 1];
       && pool.address == address
       && Decode(steps[n].data, pool.decimalsA, pool.decimalsB) == Some(priced.state)
       && priced.slot == steps[n].slot && priced.at == steps[n].at
  }

  /** A later acknowledgement of the same subscription, for some request. */
  ghost predicate Overrides(later: Step, earlier: Step)
    requires later.Acked? && earlier.Acked?
  {
    later.subscription == earlier.subscription && later.id > 0
  }

  /** Since step `n` nothing cleared the book or delivered another price of it. */
  ghost predicate Stands(pools: seq<Pool>, steps: seq<Step>, n: nat, address: Pubkey) {
    forall m :: n < m < |steps| ==>
      !steps[m].Cleared? && forall a: nat, priced: Priced :: !Delivers(pools, steps, a, m, address, priced)
  }

  ghost predicate Holds(book: Book, address: Pubkey, priced: Priced) { address in book && book[address] == priced }

  /** An acknowledgement holds until the connection ends or another overrides it. */
  lemma {:induction false} AckedIsKept(pools: seq<Pool>, steps: seq<Step>, a: nat, subscription: nat, index: nat)
    requires AckedFor(steps, a, |steps|, subscription, index)
    ensures subscription in After(pools, steps).subs && After(pools, steps).subs[subscription] == index
  {
    if a < |steps| - 1 {
      var f := Front(steps);
      assert forall k :: 0 <= k < |f| ==> f[k] == steps[k];
      AckedIsKept(pools, f, a, subscription, index);
    }
  }

  /** What this step, taken in this state, writes. */
  ghost predicate WritesPrice(pools: seq<Pool>, st: StreamState, s: Step, address: Pubkey, priced: Priced) {
    && Writes(pools, st, s, address)
    && var pool := pools[st.subs[s.subscription]];
       && Some(priced.state) == Decode(s.data, pool.decimalsA, pool.decimalsB)
       && priced.slot == s.slot && priced.at == s.at
  }

  lemma DeliversAsAcked(pools: seq<Pool>, steps: seq<Step>, a: nat, n: nat, address: Pubkey, priced: Priced)
    requires n < |steps| && steps[n].Notified? && a < n
    ensures Delivers(pools, steps, a, n, address, priced) <==>
              exists index: nat ::
                && AckedFor(steps[..n], a, n, steps[n].subscription, index) && index < |pools|
                && pools[index].address == address
                && Decode(steps[n].data, pools[index].decimalsA, pools[index].decimalsB) == Some(priced.state)
                && priced.slot == steps[n].slot && priced.at == steps[n].at
  {
    assert forall k :: 0 <= k < n ==> steps[..n][k] == steps[k];
    if Delivers(pools, steps, a, n, address, priced) {
      assert AckedFor(steps[..n], a, n, steps[n].subscription, steps[a].id - 1);
    }
  }

  lemma DeliveredIsWritten(pools: seq<Pool>, steps: seq<Step>, a: nat, n: nat, address: Pubkey, priced: Priced)
    requires Delivers(pools, steps, a, n, address, priced)
    ensures WritesPrice(pools, After(pools, steps[..n]), steps[n], address, priced)
  {
    DeliversAsAcked(pools, steps, a, n, address, priced);
    var index: nat :| AckedFor(steps[..n], a, n, steps[n].subscription, index) && pools[index].address == address;
    AckedIsKept(pools, steps[..n], a, steps[n].subscription, index);
  }

  lemma WrittenIsDelivered(pools: seq<Pool>, steps: seq<Step>, n: nat, address: Pubkey, priced: Priced) returns (a: nat)
    requires n < |steps| && Run(pools, steps[..n])
    requires WritesPrice(pools, After(pools, steps[..n]), steps[n], address, priced)
    ensures Delivers(pools, steps, a, n, address, priced)
  {
    var f, sub := steps[..n], steps[n].subscription;
    SubscriptionWasAcked(pools, f, sub);
    a :| AckedFor(f, a, |f|, sub, After(pools, f).subs[sub]);
    DeliversAsAcked(pools, steps, a, n, address, priced);
  }

  lemma DeliversBefore(pools: seq<Pool>, steps: seq<Step>, a: nat, n: nat, address: Pubkey, priced: Priced)
    requires steps != [] && n < |steps| - 1
    ensures Delivers(pools, Front(steps), a, n, address, priced) <==> Delivers(pools, steps, a, n, address, priced)
  {
  }

  /** The book, exactly: after any run of the stream it holds a price for a pool
      if and only if some step delivered it and since then the book was neither
      cleared nor given another price of that pool. */
  lemma {:induction false} BookIsWhatWasDelivered(pools: seq<Pool>, steps: seq<Step>, address: Pubkey, priced: Priced)
    requires Run(pools, steps)
    ensures Holds(After(pools, steps).book, address, priced) <==>
              exists a: nat, n: nat :: Delivers(pools, steps, a, n, address, priced) && Stands(pools, steps, n, address)
  {
    if steps != [] {
      var f, n := Front(steps), |steps| - 1;
      assert steps[..n] == f;
      BookIsWhatWasDelivered(pools, f, address, priced);
      if Writes(pools, After(pools, f), steps[n], address) {
        LastWrites(pools, steps, address, priced);
      } else {
        LastKeeps(pools, steps, address, priced);
      }
    }
  }

  lemma LastWrites(pools: seq<Pool>, steps: seq<Step>, address: Pubkey, priced: Priced)
    requires steps != [] && Run(pools, steps) && Writes(pools, After(pools, Front(steps)), Last(steps), address)
    ensures Holds(After(pools, steps).book, address, priced) <==>
              exists a: nat, n: nat :: Delivers(pools, steps, a, n, address, priced) && Stands(pools, steps, n, address)
  {
    var n := |steps| - 1;
    assert steps[..n] == Front(steps);
    var written := After(pools, steps).book[address];
    var b := WrittenIsDelivered(pools, steps, n, address, written);
    assert Stands(pools, steps, n, address);
    if a: nat, m: nat :| Delivers(pools, steps, a, m, address, priced) && Stands(pools, steps, m, address) {
      assert m == n;
      DeliveredIsWritten(pools, steps, a, n, address, priced);
    }
  }

  lemma LastKeeps(pools: seq<Pool>, steps: seq<Step>, address: Pubkey, priced: Priced)
    requires steps != [] && Run(pools, steps) && !Writes(pools, After(pools, Front(steps)), Last(steps), address)
    requires Holds(After(pools, Front(steps)).book, address, priced) <==>
               exists a: nat, n: nat ::
                 Delivers(pools, Front(steps), a, n, address, priced) && Stands(pools, Front(steps), n, address)
    ensures Holds(After(pools, steps).book, address, priced) <==>
              exists a: nat, n: nat :: Delivers(pools, steps, a, n, address, priced) && Stands(pools, steps, n, address)
  {
    var f, last := Front(steps), |steps| - 1;
    assert steps[..last] == f;
    forall a: nat, other: Priced
      ensures !Delivers(pools, steps, a, last, address, other)
    {
      if Delivers(pools, steps, a, last, address, other) {
        DeliveredIsWritten(pools, steps, a, last, address, other);
      }
    }
    UnwrittenStays(pools, After(pools, f), Last(steps), address, priced);
    if a: nat, n: nat :| Delivers(pools, f, a, n, address, priced) && Stands(pools, f, n, address) {
      DeliversBefore(pools, steps, a, n, address, priced);
      if !Last(steps).Cleared? {
        StandsOneMore(pools, steps, n, last, address);
      }
    }
    if a: nat, n: nat :| Delivers(pools, steps, a, n, address, priced) && Stands(pools, steps, n, address) {
      DeliversBefore(pools, steps, a, n, address, priced);
      assert !steps[last].Cleared?;
      StoodBefore(pools, steps, n, address);
    }
  }

  lemma UnwrittenStays(pools: seq<Pool>, st: StreamState, s: Step, address: Pubkey, priced: Priced)
    requires !Writes(pools, st, s, address)
    ensures Holds(Stream.Apply(pools, st, s).book, address, priced) <==>
              Holds(st.book, address, priced) && !s.Cleared?
  {
  }

  lemma StandsOneMore(pools: seq<Pool>, steps: seq<Step>, n: nat, last: nat, address: Pubkey)
    requires |steps| == last + 1 && Stands(pools, Front(steps), n, address) && !Last(steps).Cleared?
    requires forall a: nat, other: Priced :: !Delivers(pools, steps, a, last, address, other)
    ensures Stands(pools, steps, n, address)
  {
    forall m, a: nat, other: Priced | n < m < |steps|
      ensures !steps[m].Cleared? && !Delivers(pools, steps, a, m, address, other)
    {
      if m < last {
        DeliversBefore(pools, steps, a, m, address, other);
      }
    }
  }

  lemma StoodBefore(pools: seq<Pool>, steps: seq<Step>, n: nat, address: Pubkey)
    requires steps != [] && Stands(pools, steps, n, address)
    ensures Stands(pools, Front(steps), n, address)
  {
    forall m, a: nat, other: Priced | n < m < |steps| - 1
      ensures !Front(steps)[m].Cleared? && !Delivers(pools, Front(steps), a, m, address, other)
    {
      assert steps[m] == Front(steps)[m];
      DeliversBefore(pools, steps, a, m, address, other);
    }
  }

  // ----- the attributions are the acknowledgements' -----

  /** What the open connection has acknowledged so far. */
  function AcksOf(steps: seq<Step>): Acks {
    if steps == [] then [] else
      match Last(steps)
      case Acked(id, subscription) => AcksOf(Front(steps)) + [(id, subscription)]
      case Connected => []
      case Dropped => []
      case _ => AcksOf(Front(steps))
  }

  /** The map a notification is read through is the price side's account of the
      connection's acknowledgements, so the pool it reprices is the last one its
      subscription was acknowledged for. */
  lemma {:induction false} SubsAreTheAcks(pools: seq<Pool>, steps: seq<Step>)
    ensures After(pools, steps).subs == PriceSubs(AcksOf(steps))
  {
    if steps != [] {
      SubsAreTheAcks(pools, Front(steps));
      if Last(steps).Acked? {
        assert Front(AcksOf(steps)) == AcksOf(Front(steps));
      }
    }
  }

  function Addresses(pools: seq<Pool>): seq<Pubkey> { seq(|pools|, i requires 0 <= i < |pools| => pools[i].address) }

  /** The pool a notification reprices is the one the price side attributes its
      subscription to. */
  lemma NotifiedReprices(pools: seq<Pool>, steps: seq<Step>, s: Step, address: Pubkey)
    requires Writes(pools, After(pools, steps), s, address)
    ensures PriceSide(Addresses(pools), AcksOf(steps), s.subscription) == Some(address)
  {
    SubsAreTheAcks(pools, steps);
    SidesAreLastAcked(Addresses(pools), AcksOf(steps), s.subscription);
  }
}
