/** The price stream and all lanes in one run: what each ledger row rests on. */
module WholeRuns {
  import opened Prelude
  import opened Arb
  import opened Pools
  import opened Lanes
  import opened LaneRuns
  import opened Ledgers
  import opened Engine
  import EngineRuns
  import S = StreamRuns

  /** A step of the price stream, or a transaction on a lane. */
  datatype Happening =
    | Streamed(step: S.Step)
    | Arrives(lane: string, tx: Races.SeenTx, clock: nat -> Moment)

  function StepsIn(hs: seq<Happening>): seq<S.Step> {
    if hs == [] then [] else StepsIn(Front(hs)) + if Last(hs).Streamed? then [Last(hs).step] else []
  }

  /** The book the stream has made by then. */
  function BookAfter(c: Session, hs: seq<Happening>): Book { S.After(c.su.pools, StepsIn(hs)).book }

  /** The transactions, each with the book it met. */
  function ArrivalsIn(c: Session, hs: seq<Happening>): seq<Arrival> {
    if hs == [] then [] else
      ArrivalsIn(c, Front(hs)) +
      if Last(hs).Arrives? then [Arrival(Last(hs).lane, Last(hs).tx, BookAfter(c, Front(hs)), Last(hs).clock)] else []
  }

  function SystemAfter(c: Session, lanes: set<string>, hs: seq<Happening>): System {
    EngineRuns.AfterArrivals(c, lanes, ArrivalsIn(c, hs))
  }

  /** The stream's steps come in an order it allows, from a server that keeps the
      subscription ids of a connection apart. */
  ghost predicate Proper(c: Session, hs: seq<Happening>) {
    S.Run(c.su.pools, StepsIn(hs)) && S.Honest(c.su.pools, StepsIn(hs))
  }

  lemma ProperBefore(c: Session, hs: seq<Happening>)
    requires hs != [] && Proper(c, hs)
    ensures Proper(c, Front(hs))
  {
    if Last(hs).Streamed? {
      assert Front(StepsIn(hs)) == StepsIn(Front(hs));
      HonestBefore(c.su.pools, StepsIn(hs));
    } else {
      assert StepsIn(hs) == StepsIn(Front(hs));
    }
  }

  lemma HonestBefore(pools: seq<Pool>, steps: seq<S.Step>)
    requires steps != [] && S.Honest(pools, steps)
    ensures S.Honest(pools, Front(steps))
  {
    var f := Front(steps);
    forall a: nat, n: nat | a < n < |f| && f[a].Acked? && f[n].Notified? && f[a].subscription == f[n].subscription
                            && 0 < f[a].id <= |pools| && S.SameConnection(f, a, n)
      ensures f[n].origin == pools[f[a].id - 1].address
    {
      assert S.SameConnection(steps, a, n);
      assert steps[a] == f[a] && steps[n] == f[n];
    }
  }

  // ----- every row comes from a look -----

  /** The row books this opportunity of this transaction, found on this pair then. */
  ghost predicate Books(c: Session, row: Trade, lane: string, tx: Races.SeenTx, pair: string, now: Instant,
                        o: Opportunity) {
    && row.lane == lane && row.slot == tx.slot && row.size == o.inLamports && row.pair == pair
    && (now >= c.started ==> c.started + row.at == now)
    && row.grossBps == o.grossBps && row.net == o.netLamports && row.route == o.sellOn + " -> " + o.buyOn
  }

  /** The row is what a first look at this pool, on this book, would find. */
  ghost predicate FromLook(c: Session, row: Trade, lane: string, book: Book, tx: Races.SeenTx, pool: Pubkey,
                           now: Instant) {
    var found := Decide(c.su, book, EventOn(tx, pool), now);
    && found.Some? && found.value.opportunity.Some?
    && Books(c, row, lane, tx, found.value.pairLabel, now, found.value.opportunity.value)
  }

  lemma {:induction false} LooksBookLooks(c: Session, lane: string, d: Desk, book: Book, tx: Races.SeenTx,
                                          pools: seq<Pubkey>, clock: nat -> Moment, row: Trade)
    requires row in LookedAt(c, lane, d, book, tx, pools, clock).history && row !in d.history
    ensures exists k: nat :: k < |pools| && FromLook(c, row, lane, book, tx, pools[k], clock(k).now)
  {
    if pools != [] {
      var mid := LookedAt(c, lane, d, book, tx, Front(pools), clock);
      if row in mid.history {
        LooksBookLooks(c, lane, d, book, tx, Front(pools), clock, row);
        var k: nat :| k < |pools| - 1 && FromLook(c, row, lane, book, tx, Front(pools)[k], clock(k).now);
        assert FromLook(c, row, lane, book, tx, pools[k], clock(k).now);
      } else {
        LookBooksLook(c, lane, mid, book, tx, Last(pools), clock(|pools| - 1), row);
        assert FromLook(c, row, lane, book, tx, pools[|pools| - 1], clock(|pools| - 1).now);
      }
    }
  }

  lemma LookBooksLook(c: Session, lane: string, d: Desk, book: Book, tx: Races.SeenTx, pool: Pubkey, m: Moment,
                      row: Trade)
    requires row in Looked(c, lane, d, book, EventOn(tx, pool), m).history && row !in d.history
    ensures FromLook(c, row, lane, book, tx, pool, m.now)
  {
    DecisionIsBestOnOffer(c.su, book, EventOn(tx, pool), m.now);
  }

  // ----- what the look rests on -----

  /** At this happening the row's lane looked at one of the pools its transaction
      touched, and booked a trade between that pool and a sibling whose two
      prices were fresh and their own. */
  ghost predicate RestsAt(c: Session, hs: seq<Happening>, n: nat, row: Trade) {
    && n < |hs| && hs[n].Arrives?
    && exists k: nat, o, pool, sib :: RestsOnTwo(c, StepsIn(hs[..n]), hs[n], row, k, o, pool, sib)
  }

  ghost predicate RestsOnTwo(c: Session, steps: seq<S.Step>, h: Happening, row: Trade, k: nat,
                             o: Opportunity, pool: Pool, sib: Pool)
    requires h.Arrives?
  {
    && pool.address in h.tx.accountKeys && Books(c, row, h.lane, h.tx, pool.pair, h.clock(k).now, o)
    && S.RestsOn(c.su, steps, EventOn(h.tx, pool.address), h.clock(k).now, o, pool, sib)
  }

  lemma PairIsNamed(su: Setup, book: Book, ev: TriggerEvent, now: Instant)
    requires Decide(su, book, ev, now).Some?
    ensures Find(su.pools, ev.pool).Some?
    ensures Decide(su, book, ev, now).value.pairLabel == Find(su.pools, ev.pool).value.pair
  {
  }

  lemma LookRests(c: Session, steps: seq<S.Step>, h: Happening, row: Trade, k: nat, key: Pubkey)
    requires h.Arrives? && key in h.tx.accountKeys
    requires S.Run(c.su.pools, steps) && S.Honest(c.su.pools, steps)
    requires FromLook(c, row, h.lane, S.After(c.su.pools, steps).book, h.tx, key, h.clock(k).now)
    ensures exists o, pool, sib :: RestsOnTwo(c, steps, h, row, k, o, pool, sib)
  {
    var (ev, now) := (EventOn(h.tx, key), h.clock(k).now);
    var o := Decide(c.su, S.After(c.su.pools, steps).book, ev, now).value.opportunity.value;
    S.OpportunitiesRestOnOwnFreshPrices(c.su, steps, ev, now);
    var pool, sib :| S.RestsOn(c.su, steps, ev, now, o, pool, sib);
    PairIsNamed(c.su, S.After(c.su.pools, steps).book, ev, now);
    assert RestsOnTwo(c, steps, h, row, k, o, pool, sib);
  }

  /** Over every interleaving of the stream's steps with transactions on any
      lanes, each row of the ledger was booked at some transaction, and rests on
      two prices that came in on the latest connection before it from their own
      accounts' bytes, no older than allowed at the moment of that look. */
  lemma {:induction false} RowsRestOnOwnFreshPrices(c: Session, lanes: set<string>, hs: seq<Happening>, row: Trade)
    requires Proper(c, hs) && row in SystemAfter(c, lanes, hs).history
    ensures exists n: nat :: RestsAt(c, hs, n, row)
  {
    if hs != [] {
      ProperBefore(c, hs);
      StreamedBooksNothing(c, lanes, hs);
      if row in SystemAfter(c, lanes, Front(hs)).history {
        RowsRestOnOwnFreshPrices(c, lanes, Front(hs), row);
        var n: nat :| RestsAt(c, Front(hs), n, row);
        RestsStill(c, hs, n, row);
      } else {
        NewRowRests(c, lanes, hs, row);
      }
    }
  }

  lemma StreamedBooksNothing(c: Session, lanes: set<string>, hs: seq<Happening>)
    requires hs != []
    ensures Last(hs).Streamed? ==> SystemAfter(c, lanes, hs) == SystemAfter(c, lanes, Front(hs))
  {
    if Last(hs).Streamed? {
      assert ArrivalsIn(c, hs) == ArrivalsIn(c, Front(hs));
    }
  }

  lemma RestsStill(c: Session, hs: seq<Happening>, n: nat, row: Trade)
    requires hs != [] && RestsAt(c, Front(hs), n, row)
    ensures RestsAt(c, hs, n, row)
  {
    assert Front(hs)[..n] == hs[..n] && Front(hs)[n] == hs[n];
  }

  lemma NewRowRests(c: Session, lanes: set<string>, hs: seq<Happening>, row: Trade)
    requires hs != [] && Last(hs).Arrives? && Proper(c, Front(hs))
    requires row in SystemAfter(c, lanes, hs).history && row !in SystemAfter(c, lanes, Front(hs)).history
    ensures RestsAt(c, hs, |hs| - 1, row)
  {
    var n, f, h, s := |hs| - 1, Front(hs), Last(hs), SystemAfter(c, lanes, Front(hs));
    var a := Arrival(h.lane, h.tx, BookAfter(c, f), h.clock);
    assert Front(ArrivalsIn(c, hs)) == ArrivalsIn(c, f) && Last(ArrivalsIn(c, hs)) == a;
    var k, key := OfferedLooks(c, s, a, row);
    LookRests(c, StepsIn(f), h, row, k, key);
    assert hs[..n] == f;
  }

  /** A row one transaction adds is found by a look at a pool it touches. */
  lemma OfferedLooks(c: Session, s: System, a: Arrival, row: Trade) returns (k: nat, key: Pubkey)
    requires row in Offered(c, s, a).history && row !in s.history
    ensures key in a.tx.accountKeys && FromLook(c, row, a.lane, a.book, a.tx, key, a.clock(k).now)
  {
    var touched := Touched(c.su.pools, a.tx.accountKeys);
    LooksBookLooks(c, a.lane, DeskOf(s, a.lane), a.book, a.tx, touched, a.clock, row);
    k :| k < |touched| && FromLook(c, row, a.lane, a.book, a.tx, touched[k], a.clock(k).now);
    key := touched[k];
    FilterMembers(a.tx.accountKeys, (x: Pubkey) => Find(c.su.pools, x).Some?);
    assert key in touched;
  }
}
