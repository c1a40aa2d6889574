/** What a transaction makes a lane look at, read off its account keys and the
    listed pools alone, for one transaction and over every run. */
module EngineOffers {
  import opened Prelude
  import opened Pools
  import opened Lanes
  import opened LaneRuns
  import opened Engine
  import opened EngineRuns
  import Races

  // ----- what there is to look at -----

  ghost predicate Watched(pools: seq<Pool>, key: Pubkey) { exists p :: p in pools && p.address == key }

  /** Where a transaction's account keys name a listed pool. */
  ghost function Hits(pools: seq<Pool>, keys: seq<Pubkey>): set<nat> {
    set k: nat | k < |keys| && Watched(pools, keys[k])
  }

  /** The transaction touched this pool, and the pool is listed. */
  ghost predicate Touches(pools: seq<Pool>, tx: Races.SeenTx, signature: string, key: Pubkey) {
    signature == tx.signature && key in tx.accountKeys && Watched(pools, key)
  }

  lemma TouchedAreHits(pools: seq<Pool>, keys: seq<Pubkey>)
    ensures |Touched(pools, keys)| == |Hits(pools, keys)|
    ensures forall key :: key in Touched(pools, keys) <==> key in keys && Watched(pools, key)
  {
    var p := (key: Pubkey) => Find(pools, key).Some?;
    FilterPlaces(keys, p);
    FilterMembers(keys, p);
    assert Places(keys, p) == Hits(pools, keys);
  }

  // ----- one transaction -----

  lemma {:induction false} LooksAct(c: Session, lane: string, d: Desk, book: Book, tx: Races.SeenTx,
                                    pools: seq<Pubkey>, clock: nat -> Moment)
    ensures var out := LookedAt(c, lane, d, book, tx, pools, clock);
            && (forall e :: e in out.bot.acted <==> e in d.bot.acted || (e.0 == tx.signature && e.1 in pools))
            && out.bot.stats.seen + out.bot.stats.duplicates == d.bot.stats.seen + d.bot.stats.duplicates + |pools|
  {
    if pools != [] {
      LooksAct(c, lane, d, book, tx, Front(pools), clock);
      assert pools == Front(pools) + [Last(pools)];
      LookActs(c, lane, LookedAt(c, lane, d, book, tx, Front(pools), clock), book, EventOn(tx, Last(pools)),
               clock(|pools| - 1));
    }
  }

  lemma LookActs(c: Session, lane: string, d: Desk, book: Book, ev: TriggerEvent, m: Moment)
    ensures var out := Looked(c, lane, d, book, ev, m);
            && out.bot.acted == d.bot.acted + {(ev.signature, ev.pool)}
            && out.bot.stats.seen + out.bot.stats.duplicates == d.bot.stats.seen + d.bot.stats.duplicates + 1
  {
    SeenOrRepeat(c.su, d.bot, book, ev, m.now);
  }

  /** What a transaction does to the lanes' counts, whatever the system before:
      with no listed pool among its keys, nothing; else it is one trigger of its
      lane, and its lane's bot looks once at every place that names a listed
      pool, and remembers exactly those pools with its signature. */
  ghost predicate LooksOnce(c: Session, s: System, a: Arrival, out: System) {
    var hits := Hits(c.su.pools, a.tx.accountKeys);
    && (hits == {} ==> out == s)
    && (forall l :: Count(out.triggers, l) == Count(s.triggers, l) + if l == a.lane && hits != {} then 1 else 0)
    && out.bots.Keys == s.bots.Keys
    && (forall l :: l in s.bots && l != a.lane ==> out.bots[l] == s.bots[l])
    && (a.lane in s.bots ==>
          var (was, now) := (s.bots[a.lane], out.bots[a.lane]);
          && (forall e :: e in now.acted <==> e in was.acted || Touches(c.su.pools, a.tx, e.0, e.1))
          && now.stats.seen + now.stats.duplicates == was.stats.seen + was.stats.duplicates + |hits|)
  }

  lemma EveryPoolIsLookedAt(c: Session, s: System, a: Arrival)
    ensures LooksOnce(c, s, a, Offered(c, s, a))
  {
    var touched := Touched(c.su.pools, a.tx.accountKeys);
    TouchedAreHits(c.su.pools, a.tx.accountKeys);
    if touched != [] {
      assert touched[0] in touched;
      if a.lane in s.bots {
        LooksAct(c, a.lane, DeskOf(s, a.lane), a.book, a.tx, touched, a.clock);
        assert Offered(c, s, a).bots
            == s.bots[a.lane := LookedAt(c, a.lane, DeskOf(s, a.lane), a.book, a.tx, touched, a.clock).bot];
      }
    }
  }

  // ----- every run -----

  /** A transaction on this lane with a listed pool among its keys. */
  ghost predicate IsTrigger(pools: seq<Pool>, a: Arrival, lane: string) {
    a.lane == lane && Hits(pools, a.tx.accountKeys) != {}
  }

  ghost function TriggersOf(pools: seq<Pool>, arrivals: seq<Arrival>, lane: string): set<nat> {
    set n: nat | n < |arrivals| && IsTrigger(pools, arrivals[n], lane)
  }

  /** The lane's `n`-th transaction names a listed pool with its `k`-th key. */
  ghost predicate IsLook(pools: seq<Pool>, arrivals: seq<Arrival>, lane: string, n: nat, k: nat) {
    && n < |arrivals| && arrivals[n].lane == lane
    && k < |arrivals[n].tx.accountKeys| && Watched(pools, arrivals[n].tx.accountKeys[k])
  }

  ghost function LooksOf(pools: seq<Pool>, arrivals: seq<Arrival>, lane: string): set<(nat, nat)> {
    set n: nat, k: nat | n < |arrivals| && k < |arrivals[n].tx.accountKeys| && IsLook(pools, arrivals, lane, n, k)
      :: (n, k)
  }

  /** The lane had a transaction with this signature that touched this pool. */
  ghost predicate WasTouched(pools: seq<Pool>, arrivals: seq<Arrival>, lane: string, signature: string, key: Pubkey) {
    exists n: nat :: n < |arrivals| && arrivals[n].lane == lane && Touches(pools, arrivals[n].tx, signature, key)
  }

  ghost predicate LaneLooked(pools: seq<Pool>, arrivals: seq<Arrival>, s: System, lane: string) {
    && Count(s.triggers, lane) == |TriggersOf(pools, arrivals, lane)|
    && (lane in s.bots ==>
          && s.bots[lane].stats.seen + s.bots[lane].stats.duplicates == |LooksOf(pools, arrivals, lane)|
          && forall e :: e in s.bots[lane].acted <==> WasTouched(pools, arrivals, lane, e.0, e.1))
  }

  /** Over every run, each lane's triggers are its transactions with a listed
      pool among their keys, its looks and repeats together are the places those
      keys stand at, and it has acted on exactly the pools its transactions
      touched, each with the signature that touched it. */
  lemma {:induction false} RunsLookAtEveryPool(c: Session, lanes: set<string>, arrivals: seq<Arrival>, lane: string)
    ensures LaneLooked(c.su.pools, arrivals, AfterArrivals(c, lanes, arrivals), lane)
  {
    if |arrivals| == 0 {
      assert TriggersOf(c.su.pools, arrivals, lane) == {};
      assert LooksOf(c.su.pools, arrivals, lane) == {};
    } else {
      var f, a := Front(arrivals), Last(arrivals);
      RunsLookAtEveryPool(c, lanes, f, lane);
      assert f + [a] == arrivals;
      OneMoreArrival(c, f, AfterArrivals(c, lanes, f), a, lane);
    }
  }

  lemma TriggersGrow(pools: seq<Pool>, f: seq<Arrival>, a: Arrival, lane: string)
    ensures |TriggersOf(pools, f + [a], lane)|
         == |TriggersOf(pools, f, lane)| + if IsTrigger(pools, a, lane) then 1 else 0
  {
    assert TriggersOf(pools, f + [a], lane)
        == TriggersOf(pools, f, lane) + if IsTrigger(pools, a, lane) then {|f|} else {};
  }

  lemma LooksGrow(pools: seq<Pool>, f: seq<Arrival>, a: Arrival, lane: string)
    ensures |LooksOf(pools, f + [a], lane)|
         == |LooksOf(pools, f, lane)| + if a.lane == lane then |Hits(pools, a.tx.accountKeys)| else 0
  {
    var added := if a.lane == lane then At(|f|, Hits(pools, a.tx.accountKeys)) else {};
    AtCounts(|f|, Hits(pools, a.tx.accountKeys));
    forall n: nat, k: nat
      ensures (n, k) in LooksOf(pools, f + [a], lane) <==> (n, k) in LooksOf(pools, f, lane) || (n, k) in added
    {
      assert IsLook(pools, f + [a], lane, n, k) <==>
             IsLook(pools, f, lane, n, k) || (n == |f| && a.lane == lane && k in Hits(pools, a.tx.accountKeys));
    }
    assert LooksOf(pools, f + [a], lane) == LooksOf(pools, f, lane) + added;
    assert LooksOf(pools, f, lane) !! added;
  }

  ghost function At(n: nat, places: set<nat>): set<(nat, nat)> { set k | k in places :: (n, k) }

  lemma {:induction false} AtCounts(n: nat, places: set<nat>)
    ensures |At(n, places)| == |places|
    decreases places
  {
    if places == {} {
      assert At(n, places) == {};
    } else {
      var k :| k in places;
      AtCounts(n, places - {k});
      assert At(n, places) == At(n, places - {k}) + {(n, k)};
    }
  }

  lemma OneMoreArrival(c: Session, f: seq<Arrival>, s: System, a: Arrival, lane: string)
    requires LaneLooked(c.su.pools, f, s, lane)
    ensures LaneLooked(c.su.pools, f + [a], Offered(c, s, a), lane)
  {
    EveryPoolIsLookedAt(c, s, a);
    TriggersGrow(c.su.pools, f, a, lane);
    LooksGrow(c.su.pools, f, a, lane);
    LookedMore(c, f, s, a, Offered(c, s, a), lane);
  }

  lemma LookedMore(c: Session, f: seq<Arrival>, s: System, a: Arrival, out: System, lane: string)
    requires LaneLooked(c.su.pools, f, s, lane) && LooksOnce(c, s, a, out)
    requires |TriggersOf(c.su.pools, f + [a], lane)|
          == |TriggersOf(c.su.pools, f, lane)| + if IsTrigger(c.su.pools, a, lane) then 1 else 0
    requires |LooksOf(c.su.pools, f + [a], lane)|
          == |LooksOf(c.su.pools, f, lane)| + if a.lane == lane then |Hits(c.su.pools, a.tx.accountKeys)| else 0
    ensures LaneLooked(c.su.pools, f + [a], out, lane)
  {
    if lane in s.bots {
      forall e
        ensures e in out.bots[lane].acted <==> WasTouched(c.su.pools, f + [a], lane, e.0, e.1)
      {
        TouchedMore(c.su.pools, f, a, lane, e.0, e.1);
      }
    }
  }

  lemma TouchedMore(pools: seq<Pool>, f: seq<Arrival>, a: Arrival, lane: string, signature: string, key: Pubkey)
    ensures WasTouched(pools, f + [a], lane, signature, key) <==>
              WasTouched(pools, f, lane, signature, key) || (a.lane == lane && Touches(pools, a.tx, signature, key))
  {
    var more := f + [a];
    assert more[|f|] == a;
    if WasTouched(pools, f, lane, signature, key) {
      var n: nat :| n < |f| && f[n].lane == lane && Touches(pools, f[n].tx, signature, key);
      assert more[n] == f[n];
    }
  }
}
