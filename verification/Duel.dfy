/** Which lane saw an event first (src/bot/duel.rs): order statistics per
    (signature, pool), settled anew by every report, and an order vector beside
    the map. Times are whole nanoseconds. */
module Duels {
  import opened Prelude
  import opened Sorting
  import opened Lanes

  const DUELS_KEPT: nat := 250

  datatype LaneView = LaneView(lane: string, gapBps: nat, tradeable: bool, netLamports: nat, route: string)

  datatype Duel = Duel(
    signature: string, slot: nat, pair: string, pool: string,
    headStart: Option<nat>, first: Option<string>, views: seq<LaneView>, gapLost: Option<int>)

  datatype Entry = Entry(duel: Duel, times: map<string, Instant>, created: Instant)

  datatype DuelState = DuelState(entries: map<string, Entry>, order: seq<string>)

  const NO_DUELS: DuelState := DuelState(map[], [])

  /** The transaction and the pool, joined by a bar. */
  function KeyOf(found: Found): string { found.triggerSignature + "|" + found.pool }

  /** `as i64`: the upper half of the 64-bit range turns negative. */
  function AsI64(n: nat): int {
    if n % (U64_MAX + 1) <= U64_MAX / 2 then n % (U64_MAX + 1) else n % (U64_MAX + 1) - U64_MAX - 1
  }

  function GapOf(views: seq<LaneView>, lane: string): Option<int> {
    if views == [] then None
    else if views[0].lane == lane then Some(AsI64(views[0].gapBps))
    else GapOf(views[1..], lane)
  }

  /** The earliest lane and the next: which ones, on a tie, is left open, since
      a hash map hands its entries over in any order. */
  ghost predicate TwoLeast(times: map<string, Instant>, f: string, s: string) {
    && f in times && s in times && f != s && times[f] <= times[s]
    && forall l :: l in times && l != f ==> times[s] <= times[l]
  }

  function Judged(e: Entry, f: string, s: string): Entry
    requires f in e.times && s in e.times && e.times[f] <= e.times[s]
  {
    var (early, late) := (GapOf(e.duel.views, f), GapOf(e.duel.views, s));
    e.(duel := e.duel.(
         first := Some(f),
         headStart := Some(e.times[s] - e.times[f]),
         gapLost := if early.Some? && late.Some? then Some(early.value - late.value) else e.duel.gapLost))
  }

  ghost predicate Settled(e: Entry, out: Entry) {
    if |e.times| < 2 then out == e else
      exists f, s :: TwoLeast(e.times, f, s) && out == Judged(e, f, s)
  }

  function Opened(found: Found): Entry {
    Entry(Duel(found.triggerSignature, found.slot, found.pairLabel, found.poolLabel, None, None, [], None),
          map[], found.decidedAt)
  }

  function ViewOf(lane: string, found: Found): LaneView {
    LaneView(lane, found.gapBps, found.opportunity.Some?,
             if found.opportunity.Some? then found.opportunity.value.netLamports else 0, found.route)
  }

  function Viewed(e: Entry, lane: string, found: Found): Entry {
    e.(times := e.times[lane := found.decidedAt],
       duel := e.duel.(views := e.duel.views + [ViewOf(lane, found)]))
  }

  function EntryFor(st: DuelState, found: Found): Entry {
    if KeyOf(found) in st.entries then st.entries[KeyOf(found)] else Opened(found)
  }

  /** One report's whole effect on the book. */
  ghost predicate Recorded(st: DuelState, lane: string, found: Found, out: DuelState) {
    var key, e := KeyOf(found), EntryFor(st, found);
    && out.order == (if key in st.entries then st.order else st.order + [key])
    && if lane in e.times then out.entries == st.entries[key := e] else
         exists e1 :: Settled(Viewed(e, lane, found), e1) && out.entries == st.entries[key := e1]
  }

  function Kept(st: DuelState, now: Instant, ttl: Duration): DuelState {
    var entries := map k | k in st.entries && SatSub(now, st.entries[k].created) < ttl :: st.entries[k];
    DuelState(entries, Filter(st.order, (k: string) => k in entries))
  }

  function DuelsOf(st: DuelState, keys: seq<string>): seq<Duel> {
    if keys == [] then [] else
      DuelsOf(st, Front(keys)) + if Last(keys) in st.entries then [st.entries[Last(keys)].duel] else []
  }

  function ByAt(a: (string, Instant), b: (string, Instant)): bool { a.1 <= b.1 }

  function LaneOf(t: (string, Instant)): string { t.0 }

  class DuelBook {
    const ttl: Duration
    var entries: map<string, Entry>
    var order: seq<string>

    ghost function State(): DuelState
      reads this
    {
      DuelState(entries, order)
    }

    constructor (ttl: Duration)
      ensures this.ttl == ttl && State() == NO_DUELS
    {
      this.ttl := ttl;
      entries, order := map[], [];
    }

    /** With two lanes timed, the verdict on the earliest and the next one. */
    method Settle(e: Entry) returns (out: Entry)
      ensures Settled(e, out)
    {
      if |e.times| < 2 {
        return e;
      }
      var pairs := CollectTimes(e.times);
      var sorted := Sort(pairs, ByAt);
      FrontOfSorted(e.times, pairs);
      var (firstLane, firstAt) := sorted[0];
      var (secondLane, secondAt) := sorted[1];
      out := e.(duel := e.duel.(first := Some(firstLane), headStart := Some(SatSub(secondAt, firstAt))));
      var early, late := GapOf(e.duel.views, firstLane), GapOf(e.duel.views, secondLane);
      if early.Some? && late.Some? {
        out := out.(duel := out.duel.(gapLost := Some(early.value - late.value)));
      }
      assert out == Judged(e, firstLane, secondLane);
    }

    method CollectTimes(times: map<string, Instant>) returns (pairs: seq<(string, Instant)>)
      ensures Lists(times, pairs)
    {
      pairs := [];
      var names := times.Keys;
      while names != {}
        invariant names <= times.Keys
        invariant Lists(map l | l in times && l !in names :: times[l], pairs)
        decreases names
      {
        var name :| name in names;
        ListsOne(map l | l in times && l !in names :: times[l], pairs, name, times[name]);
        assert (map l | l in times && l !in names - {name} :: times[l])
            == (map l | l in times && l !in names :: times[l])[name := times[name]];
        names := names - {name};
        pairs := pairs + [(name, times[name])];
      }
      assert (map l | l in times && l !in names :: times[l]) == times;
    }

    /** Opens the key's entry if it is new; a lane already timed leaves it alone. */
    method Record(lane: string, found: Found)
      modifies this
      ensures Recorded(old(State()), lane, found, State())
    {
      var key := KeyOf(found);
      if key !in entries {
        order := order + [key];
      }
      var entry := if key in entries then entries[key] else Opened(found);
      if lane in entry.times {
        entries := entries[key := entry];
        return;
      }
      entry := entry.(times := entry.times[lane := found.decidedAt]);
      entry := entry.(duel := entry.duel.(views := entry.duel.views + [ViewOf(lane, found)]));
      assert entry == Viewed(EntryFor(old(State()), found), lane, found);
      var settled := Settle(entry);
      entries := entries[key := settled];
    }

    method Evict(now: Instant)
      modifies this
      ensures State() == Kept(old(State()), now, ttl)
    {
      entries := map k | k in entries && SatSub(now, entries[k].created) < ttl :: entries[k];
      var held := entries;
      order := Filter(order, (k: string) => k in held);
    }

    /** When the order lists only held keys, as in every reachable book, the tape
        is the newest keys' own duels, and leaves none out up to its length. */
    method Recent() returns (duels: seq<Duel>)
      ensures |duels| <= DUELS_KEPT && AllHeld(State(), duels)
      ensures (forall k :: k in order ==> k in entries) ==>
                && |duels| == Min(|order|, DUELS_KEPT)
                && forall i :: 0 <= i < |duels| ==>
                     var k := order[|order| - 1 - i]; k in entries && duels[i] == entries[k].duel
    {
      var all := DuelsOf(DuelState(entries, order), Reverse(order));
      duels := TakeK(all, DUELS_KEPT);
      TapeHoldsDuels(State(), Reverse(order));
      assert forall d :: d in duels ==> d in all;
      if forall k :: k in order ==> k in entries {
        RecentShowsTheNewest(State());
      }
    }

    /** Each lane's count of the held duels whose verdict names it. */
    method Wins() returns (wins: map<string, nat>)
      ensures forall l :: Count(wins, l) == |WonBy(State(), l)|
      ensures SumMap(wins) == |Decided(State())|
    {
      wins := map[];
      var keys := entries.Keys;
      ghost var done: set<string> := {};
      assert DecidedIn(State(), {}) == {} && forall l :: WonIn(State(), {}, l) == {};
      while keys != {}
        invariant keys <= entries.Keys && done == entries.Keys - keys
        invariant forall l :: Count(wins, l) == |WonIn(State(), done, l)|
        invariant SumMap(wins) == |DecidedIn(State(), done)|
        decreases keys
      {
        var key :| key in keys;
        WinStep(State(), done, key);
        keys, done := keys - {key}, done + {key};
        var first := entries[key].duel.first;
        if first.Some? {
          SumUpdate(wins, first.value, Count(wins, first.value) + 1);
          wins := Bump(wins, first.value);
        }
      }
      assert done == State().entries.Keys;
    }

    method Paired() returns (n: nat)
      ensures n == |TimedTwice(State(), entries.Keys)|
      ensures (forall k :: k in entries ==> (entries[k].duel.first.Some? <==> |entries[k].times| >= 2)) ==>
                n == |Decided(State())|
    {
      n := 0;
      var keys := entries.Keys;
      ghost var done: set<string> := {};
      assert TimedTwice(State(), {}) == {};
      while keys != {}
        invariant keys <= entries.Keys && done == entries.Keys - keys
        invariant n == |TimedTwice(State(), done)|
        decreases keys
      {
        var key :| key in keys;
        TimedStep(State(), done, key);
        keys, done := keys - {key}, done + {key};
        if |entries[key].times| >= 2 {
          n := n + 1;
        }
      }
      assert done == State().entries.Keys;
      if forall k :: k in entries ==> (entries[k].duel.first.Some? <==> |entries[k].times| >= 2) {
        assert TimedTwice(State(), entries.Keys) == Decided(State());
      }
    }
  }

  function TakeK<T>(s: seq<T>, k: nat): seq<T> { if |s| <= k then s else s[..k] }

  // ----- the tape -----

  ghost predicate AllHeld(st: DuelState, duels: seq<Duel>) {
    forall d :: d in duels ==> exists k :: k in st.entries && d == st.entries[k].duel
  }

  lemma {:induction false} TapeHoldsDuels(st: DuelState, keys: seq<string>)
    ensures AllHeld(st, DuelsOf(st, keys))
  {
    if keys != [] {
      TapeHoldsDuels(st, Front(keys));
    }
  }

  /** The tape leaves nothing out: the newest first, each key's own duel. */
  lemma {:induction false} TapeIsNewestFirst(st: DuelState, keys: seq<string>)
    requires forall k :: k in keys ==> k in st.entries
    ensures |DuelsOf(st, keys)| == |keys|
    ensures forall i :: 0 <= i < |keys| ==> keys[i] in st.entries && DuelsOf(st, keys)[i] == st.entries[keys[i]].duel
  {
    if keys != [] {
      assert keys == Front(keys) + [Last(keys)] && Last(keys) in keys;
      TapeIsNewestFirst(st, Front(keys));
      assert forall i :: 0 <= i < |keys| - 1 ==> Front(keys)[i] == keys[i];
    }
  }

  /** In a book whose order lists only held keys, as every reachable one does. */
  lemma RecentShowsTheNewest(st: DuelState)
    requires forall k :: k in st.order ==> k in st.entries.Keys
    ensures var n, tape := |st.order|, TakeK(DuelsOf(st, Reverse(st.order)), DUELS_KEPT);
            && |tape| == Min(n, DUELS_KEPT)
            && forall i :: 0 <= i < |tape| ==>
                 st.order[n - 1 - i] in st.entries && tape[i] == st.entries[st.order[n - 1 - i]].duel
  {
    HeldInReverse(st.order, st.entries.Keys);
    TapeIsNewestFirst(st, Reverse(st.order));
  }

  lemma HeldInReverse(order: seq<string>, held: set<string>)
    requires forall k :: k in order ==> k in held
    ensures forall k :: k in Reverse(order) ==> k in held
  {
  }

  // ----- what the helpers of the class rest on -----

  ghost predicate Lists(times: map<string, Instant>, pairs: seq<(string, Instant)>) {
    && DistinctBy(pairs, LaneOf)
    && |pairs| == |times|
    && (forall p :: p in pairs ==> p.0 in times && times[p.0] == p.1)
    && (forall l :: l in times ==> (l, times[l]) in pairs)
  }

  lemma ListsOne(times: map<string, Instant>, pairs: seq<(string, Instant)>, l: string, at: Instant)
    requires Lists(times, pairs) && l !in times
    ensures Lists(times[l := at], pairs + [(l, at)])
  {
  }

  /** Sorting a listing of the map lists it still. */
  lemma SortedLists(times: map<string, Instant>, pairs: seq<(string, Instant)>)
    requires Lists(times, pairs)
    ensures Lists(times, Sort(pairs, ByAt)) && Sorted(Sort(pairs, ByAt), ByAt)
  {
    SortSorts(pairs, ByAt);
    SortKeepsDistinct(pairs, ByAt, LaneOf);
    SortPermutes(pairs, ByAt);
  }

  lemma FrontOfSorted(times: map<string, Instant>, pairs: seq<(string, Instant)>)
    requires |times| >= 2 && Lists(times, pairs)
    ensures var sorted := Sort(pairs, ByAt);
            && |sorted| >= 2 && sorted[0].0 in times && sorted[1].0 in times
            && times[sorted[0].0] == sorted[0].1 && times[sorted[1].0] == sorted[1].1
            && TwoLeast(times, sorted[0].0, sorted[1].0)
  {
    var sorted := Sort(pairs, ByAt);
    SortedLists(times, pairs);
    assert sorted[0] in sorted && sorted[1] in sorted;
    assert LaneOf(sorted[0]) != LaneOf(sorted[1]);
    FrontIsLeast(times, sorted);
  }

  lemma FrontIsLeast(times: map<string, Instant>, sorted: seq<(string, Instant)>)
    requires |sorted| >= 2 && Sorted(sorted, ByAt) && sorted[0].0 in times && sorted[1].0 in times
    requires times[sorted[0].0] == sorted[0].1 && times[sorted[1].0] == sorted[1].1
    requires sorted[0].0 != sorted[1].0 && forall l :: l in times ==> (l, times[l]) in sorted
    ensures TwoLeast(times, sorted[0].0, sorted[1].0)
  {
  }

  ghost function WonIn(st: DuelState, keys: set<string>, lane: string): set<string> {
    set k | k in keys && k in st.entries && st.entries[k].duel.first == Some(lane)
  }

  ghost function DecidedIn(st: DuelState, keys: set<string>): set<string> {
    set k | k in keys && k in st.entries && st.entries[k].duel.first.Some?
  }

  ghost function WonBy(st: DuelState, lane: string): set<string> { WonIn(st, st.entries.Keys, lane) }

  ghost function Decided(st: DuelState): set<string> { DecidedIn(st, st.entries.Keys) }

  ghost function TimedTwice(st: DuelState, keys: set<string>): set<string> {
    set k | k in keys && k in st.entries && |st.entries[k].times| >= 2
  }

  lemma TimedStep(st: DuelState, done: set<string>, key: string)
    requires key in st.entries && key !in done
    ensures |TimedTwice(st, done + {key})| == |TimedTwice(st, done)| + if |st.entries[key].times| >= 2 then 1 else 0
  {
    if |st.entries[key].times| >= 2 {
      assert TimedTwice(st, done + {key}) == TimedTwice(st, done) + {key};
    } else {
      assert TimedTwice(st, done + {key}) == TimedTwice(st, done);
    }
  }

  lemma WinStep(st: DuelState, done: set<string>, key: string)
    requires key in st.entries && key !in done
    ensures var first := st.entries[key].duel.first;
            && |DecidedIn(st, done + {key})| == |DecidedIn(st, done)| + (if first.Some? then 1 else 0)
            && forall l :: |WonIn(st, done + {key}, l)| == |WonIn(st, done, l)| + (if first == Some(l) then 1 else 0)
  {
    var first := st.entries[key].duel.first;
    if first.Some? {
      assert DecidedIn(st, done + {key}) == DecidedIn(st, done) + {key};
    } else {
      assert DecidedIn(st, done + {key}) == DecidedIn(st, done);
    }
    forall l
      ensures |WonIn(st, done + {key}, l)| == |WonIn(st, done, l)| + if first == Some(l) then 1 else 0
    {
      WonStep(st, done, key, l);
    }
  }

  lemma WonStep(st: DuelState, done: set<string>, key: string, lane: string)
    requires key in st.entries && key !in done
    ensures |WonIn(st, done + {key}, lane)|
         == |WonIn(st, done, lane)| + if st.entries[key].duel.first == Some(lane) then 1 else 0
  {
    if st.entries[key].duel.first == Some(lane) {
      assert WonIn(st, done + {key}, lane) == WonIn(st, done, lane) + {key};
    } else {
      assert WonIn(st, done + {key}, lane) == WonIn(st, done, lane);
    }
  }
}
