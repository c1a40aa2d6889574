/** The race matcher (src/race.rs): an online join of several lanes on the
    transaction signature, mutated one arrival at a time. A lead is a whole
    number of nanoseconds, positive when the reference lane was first. */
module Races {
  import opened Prelude
  import opened Sorting
  import opened Quantiles

  const PENDING_TTL: nat := 60_000 * NANOS_PER_MILLI
  const RECENT_KEPT: nat := 40

  datatype SeenTx = SeenTx(signature: string, slot: nat, at: Instant, accountKeys: seq<Pubkey>)
  datatype MatchedTx = MatchedTx(signature: string, slot: nat, lane: string, lead: int)
  datatype Pending = Pending(slot: nat, arrivals: map<string, Instant>, paired: set<string>, created: Instant)
  datatype Delta = Delta(at: Instant, lane: string, lead: int)

  datatype LaneStats = LaneStats(
    lane: string, seen: nat, matched: nat, nWindow: nat,
    median: Option<int>, p10: Option<int>, p90: Option<int>,
    referenceFirstTenths: Option<nat>, quantiles: seq<Quantile>, ledQuantiles: seq<Quantile>)

  datatype RaceSnapshot = RaceSnapshot(
    referenceLane: string, referenceSeen: nat, awaitingPair: nat,
    lanes: seq<LaneStats>, recent: seq<MatchedTx>)

  /** Everything a race remembers, as a value. */
  datatype RaceState = RaceState(
    pending: map<string, Pending>, deltas: seq<Delta>, recent: seq<MatchedTx>,
    seen: map<string, nat>, matched: map<string, nat>)

  const EMPTY: RaceState := RaceState(map[], [], [], map[], map[])

  /** Clock readings do not subtract below zero, so the sign is rebuilt. */
  function Lead(reference: Instant, other: Instant): int
  {
    if other >= reference then other - reference else -(reference - other)
  }

  // ----- one arrival, as a function of the order the ready lanes came out in -----

  /** The signature's entry once this arrival is noted: the first copy stays. */
  function Noted(pending: map<string, Pending>, lane: string, tx: SeenTx): Pending
  {
    var e := if tx.signature in pending then pending[tx.signature]
             else Pending(tx.slot, map[], {}, tx.at);
    if lane in e.arrivals then e else e.(arrivals := e.arrivals[lane := tx.at])
  }

  /** The lanes that can now be paired with the reference. */
  function ReadyLanes(reference: string, e: Pending): set<string>
  {
    if reference in e.arrivals then e.arrivals.Keys - {reference} - e.paired else {}
  }

  /** `completed` pairs each ready lane once, in some order. */
  ghost predicate Completes(reference: string, e: Pending, signature: string, completed: seq<MatchedTx>)
  {
    && (forall i, j :: 0 <= i < j < |completed| ==> completed[i].lane != completed[j].lane)
    && (forall m :: m in completed ==>
          && reference in e.arrivals && m.lane in ReadyLanes(reference, e)
          && m == MatchedTx(signature, e.slot, m.lane, Lead(e.arrivals[reference], e.arrivals[m.lane])))
    && LanesOf(completed) == ReadyLanes(reference, e)
  }

  function LanesOf(ms: seq<MatchedTx>): set<string> { set m | m in ms :: m.lane }

  function DeltasOf(ms: seq<MatchedTx>, now: Instant): seq<Delta>
  {
    seq(|ms|, i requires 0 <= i < |ms| => Delta(now, ms[i].lane, ms[i].lead))
  }

  function Credited(matched: map<string, nat>, lanes: set<string>): map<string, nat>
  {
    map l | l in matched.Keys + lanes :: Count(matched, l) + if l in lanes then 1 else 0
  }

  function Observed(reference: string, st: RaceState, lane: string, tx: SeenTx, now: Instant,
                    completed: seq<MatchedTx>): RaceState
  {
    var e := Noted(st.pending, lane, tx);
    RaceState(
      st.pending[tx.signature := e.(paired := e.paired + ReadyLanes(reference, e))],
      st.deltas + DeltasOf(completed, now),
      LastK(st.recent + completed, RECENT_KEPT),
      Bump(st.seen, lane),
      Credited(st.matched, LanesOf(completed)))
  }

  // ----- eviction -----

  function DropStale(deltas: seq<Delta>, now: Instant, window: Duration): seq<Delta>
  {
    if deltas != [] && SatSub(now, deltas[0].at) > window
    then DropStale(deltas[1..], now, window) else deltas
  }

  function Evicted(st: RaceState, now: Instant, window: Duration): RaceState
  {
    st.(pending := map s | s in st.pending && SatSub(now, st.pending[s].created) < PENDING_TTL :: st.pending[s],
        deltas := DropStale(st.deltas, now, window))
  }

  // ----- the published row of one lane -----

  function LeadsOf(deltas: seq<Delta>, lane: string): seq<int>
  {
    if deltas == [] then [] else
      LeadsOf(Front(deltas), lane) + if Last(deltas).lane == lane then [Last(deltas).lead] else []
  }

  function RowOf(st: RaceState, lane: string): LaneStats
  {
    var sorted := Sorted1(LeadsOf(st.deltas, lane));
    LaneStats(
      lane, Count(st.seen, lane), Count(st.matched, lane), |sorted|,
      Percentile(sorted, 50), Percentile(sorted, 10), Percentile(sorted, 90),
      if |sorted| > 0 then Some(PctTenths(|Led(sorted)|, |sorted|)) else None,
      Ladder(sorted), Ladder(Led(sorted)))
  }

  function ByName(a: LaneStats, b: LaneStats): bool { StrLe(a.lane, b.lane) }

  class Race {
    const reference: string
    const window: Duration
    var pending: map<string, Pending>
    var deltas: seq<Delta>
    var recent: seq<MatchedTx>
    var seen: map<string, nat>
    var matched: map<string, nat>

    ghost function State(): RaceState
      reads this
    {
      RaceState(pending, deltas, recent, seen, matched)
    }

    ghost predicate Valid()
      reads this
    {
      |recent| <= RECENT_KEPT
    }

    constructor (window: Duration, reference: string)
      ensures Valid() && State() == EMPTY
      ensures this.window == window && this.reference == reference
    {
      this.window, this.reference := window, reference;
      pending, deltas, recent, seen, matched := map[], [], [], map[], map[];
    }

    /** Record one arrival; `now` is the clock when it is processed. The ready
        lanes come out of a hash map, so in any order. */
    method Observe(lane: string, tx: SeenTx, now: Instant) returns (completed: seq<MatchedTx>)
      requires Valid()
      modifies this
      ensures Valid()
      ensures Completes(reference, Noted(old(pending), lane, tx), tx.signature, completed)
      ensures State() == Observed(reference, old(State()), lane, tx, now, completed)
    {
      var entry := Note(lane, tx);
      completed := [];
      if reference !in entry.arrivals {
        NothingCompleted(reference, old(State()), lane, tx, now);
        return;
      }
      completed := PairReady(entry, tx.signature, now);
      WrittenTwice(old(pending), tx.signature, entry, entry.(paired := entry.paired + ReadyLanes(reference, entry)));
    }

    /** Count the arrival and note it: the first on a lane stays. */
    method Note(lane: string, tx: SeenTx) returns (entry: Pending)
      modifies this`seen, this`pending
      ensures seen == Bump(old(seen), lane)
      ensures entry == Noted(old(pending), lane, tx)
      ensures pending == old(pending)[tx.signature := entry]
    {
      seen := Bump(seen, lane);
      entry := if tx.signature in pending then pending[tx.signature]
               else Pending(tx.slot, map[], {}, tx.at);
      if lane !in entry.arrivals {
        entry := entry.(arrivals := entry.arrivals[lane := tx.at]);
      }
      pending := pending[tx.signature := entry];
    }

    /** The reference is there: mark every ready lane and report its pair. */
    method PairReady(entry: Pending, signature: string, now: Instant) returns (completed: seq<MatchedTx>)
      requires Valid() && reference in entry.arrivals
      modifies this`pending, this`matched, this`deltas, this`recent
      ensures Valid()
      ensures Completes(reference, entry, signature, completed)
      ensures pending == old(pending)[signature := entry.(paired := entry.paired + ReadyLanes(reference, entry))]
      ensures deltas == old(deltas) + DeltasOf(completed, now)
      ensures recent == LastK(old(recent) + completed, RECENT_KEPT)
      ensures matched == Credited(old(matched), LanesOf(completed))
    {
      var ready := CollectReady(entry);
      var marked := MarkPaired(entry, ready);
      pending := pending[signature := marked];
      completed := Complete(signature, entry.slot, entry.arrivals[reference], ready, now);
      AllReadyCompleted(reference, entry, signature, ready, completed);
    }

    method MarkPaired(entry: Pending, ready: seq<(string, Instant)>) returns (marked: Pending)
      ensures marked == entry.(paired := entry.paired + Names(ready))
    {
      marked := entry;
      for i := 0 to |ready|
        invariant marked == entry.(paired := entry.paired + Names(ready[..i]))
      {
        NamesAppend(ready[..i], ready[i]);
        assert ready[..i] + [ready[i]] == ready[..i + 1];
        marked := marked.(paired := marked.paired + {ready[i].0});
      }
      assert ready[..|ready|] == ready;
    }

    method Complete(signature: string, slot: nat, referenceAt: Instant, ready: seq<(string, Instant)>, now: Instant)
      returns (completed: seq<MatchedTx>)
      requires Valid()
      requires forall i, j :: 0 <= i < j < |ready| ==> ready[i].0 != ready[j].0
      modifies this`matched, this`deltas, this`recent
      ensures Valid()
      ensures completed == MatchesOf(signature, slot, referenceAt, ready)
      ensures deltas == old(deltas) + DeltasOf(completed, now)
      ensures recent == LastK(old(recent) + completed, RECENT_KEPT)
      ensures matched == Credited(old(matched), LanesOf(completed))
    {
      completed := [];
      NothingCredited(matched);
      assert recent + [] == recent && deltas + DeltasOf([], now) == deltas;
      for i := 0 to |ready|
        invariant Valid()
        invariant completed == MatchesOf(signature, slot, referenceAt, ready[..i])
        invariant deltas == old(deltas) + DeltasOf(completed, now)
        invariant recent == LastK(old(recent) + completed, RECENT_KEPT)
        invariant matched == Credited(old(matched), LanesOf(completed))
      {
        var found := MatchedTx(signature, slot, ready[i].0, Lead(referenceAt, ready[i].1));
        assert found.lane !in LanesOf(completed);
        DeltasAppend(old(deltas), completed, found, now);
        CreditOne(old(matched), completed, found);
        RecentOne(old(recent), completed, found, recent);
        Push(found, now);
        completed := completed + [found];
        assert completed == MatchesOf(signature, slot, referenceAt, ready[..i + 1]);
      }
      assert ready[..|ready|] == ready;
    }

    method Push(found: MatchedTx, now: Instant)
      requires Valid()
      modifies this`matched, this`deltas, this`recent
      ensures Valid()
      ensures matched == Bump(old(matched), found.lane)
      ensures deltas == old(deltas) + [Delta(now, found.lane, found.lead)]
      ensures recent == LastK(old(recent) + [found], RECENT_KEPT)
    {
      matched := Bump(matched, found.lane);
      deltas := deltas + [Delta(now, found.lane, found.lead)];
      recent := recent + [found];
      if |recent| > RECENT_KEPT {
        recent := recent[1..];
      }
    }

    method CollectReady(entry: Pending) returns (ready: seq<(string, Instant)>)
      ensures forall i, j :: 0 <= i < j < |ready| ==> ready[i].0 != ready[j].0
      ensures forall i :: 0 <= i < |ready| ==>
                ready[i].0 in entry.arrivals && ready[i].1 == entry.arrivals[ready[i].0]
      ensures Names(ready) == entry.arrivals.Keys - {reference} - entry.paired
    {
      ready := [];
      var names := entry.arrivals.Keys;
      while names != {}
        invariant names <= entry.arrivals.Keys
        invariant forall i, j :: 0 <= i < j < |ready| ==> ready[i].0 != ready[j].0
        invariant forall i :: 0 <= i < |ready| ==>
                    ready[i].0 in entry.arrivals && ready[i].0 !in names &&
                    ready[i].1 == entry.arrivals[ready[i].0]
        invariant Names(ready) == entry.arrivals.Keys - names - {reference} - entry.paired
        decreases names
      {
        var name :| name in names;
        names := names - {name};
        if name != reference && name !in entry.paired {
          NamesAppend(ready, (name, entry.arrivals[name]));
          ready := ready + [(name, entry.arrivals[name])];
        }
      }
    }

    /** Entries opened a minute ago or more go, and so does the front of the queue
        while it is out of the window. */
    method Evict(now: Instant)
      requires Valid()
      modifies this
      ensures Valid()
      ensures State() == Evicted(old(State()), now, window)
    {
      pending := map s | s in pending && SatSub(now, pending[s].created) < PENDING_TTL :: pending[s];
      while deltas != [] && SatSub(now, deltas[0].at) > window
        invariant DropStale(deltas, now, window) == DropStale(old(deltas), now, window)
        invariant pending == Evicted(old(State()), now, window).pending
        invariant recent == old(recent) && seen == old(seen) && matched == old(matched)
        decreases |deltas|
      {
        deltas := deltas[1..];
      }
    }

    /** One row for every lane heard from except the reference, by name. */
    method Snapshot() returns (snap: RaceSnapshot)
      ensures snap.referenceLane == reference
      ensures snap.referenceSeen == Count(seen, reference) && snap.awaitingPair == |pending|
      ensures snap.recent == Reverse(recent)
      ensures forall row :: row in snap.lanes ==> row == RowOf(State(), row.lane)
      ensures LanesIn(snap.lanes) == seen.Keys - {reference}
      ensures Sorted(snap.lanes, ByName) && DistinctBy(snap.lanes, LaneName)
    {
      var rows := Rows();
      SortedRows(rows);
      snap := RaceSnapshot(reference, Count(seen, reference), |pending|, Sort(rows, ByName), Reverse(recent));
    }

    /** The lanes come out of a hash map, so the rows are in any order. */
    method Rows() returns (rows: seq<LaneStats>)
      ensures DistinctBy(rows, LaneName)
      ensures forall row :: row in rows ==> row == RowOf(State(), row.lane)
      ensures LanesIn(rows) == seen.Keys - {reference}
    {
      var byLane := ByLane();
      rows := [];
      var names := seen.Keys - {reference};
      while names != {}
        invariant names <= seen.Keys - {reference}
        invariant DistinctBy(rows, LaneName)
        invariant forall row :: row in rows ==> row == RowOf(State(), row.lane)
        invariant LanesIn(rows) == seen.Keys - {reference} - names
        decreases names
      {
        var lane :| lane in names;
        names := names - {lane};
        var row := Row(lane, if lane in byLane then byLane[lane] else []);
        LanesInAppend(rows, row);
        OneMoreRow(rows, row);
        rows := rows + [row];
      }
    }

    method Row(lane: string, leads: seq<int>) returns (row: LaneStats)
      requires leads == LeadsOf(deltas, lane)
      ensures row == RowOf(State(), lane)
    {
      var sorted := Sorted1(leads);
      var n := |sorted|;
      var ahead := |Led(sorted)|;
      row := LaneStats(
        lane, Count(seen, lane), Count(matched, lane), n,
        Percentile(sorted, 50), Percentile(sorted, 10), Percentile(sorted, 90),
        if n > 0 then Some(PctTenths(ahead, n)) else None,
        Ladder(sorted), Ladder(Led(sorted)));
    }

    method ByLane() returns (byLane: map<string, seq<int>>)
      ensures forall l :: LeadsOf(deltas, l) == if l in byLane then byLane[l] else []
    {
      byLane := map[];
      for i := 0 to |deltas|
        invariant forall l :: LeadsOf(deltas[..i], l) == if l in byLane then byLane[l] else []
      {
        var d := deltas[i];
        assert Front(deltas[..i + 1]) == deltas[..i] && Last(deltas[..i + 1]) == d;
        byLane := byLane[d.lane := (if d.lane in byLane then byLane[d.lane] else []) + [d.lead]];
      }
      assert deltas[..|deltas|] == deltas;
    }
  }

  // ----- steps of the loops above -----

  function Names(ready: seq<(string, Instant)>): set<string> { set r | r in ready :: r.0 }

  function MatchesOf(signature: string, slot: nat, referenceAt: Instant, ready: seq<(string, Instant)>): seq<MatchedTx>
  {
    seq(|ready|, i requires 0 <= i < |ready| =>
      MatchedTx(signature, slot, ready[i].0, Lead(referenceAt, ready[i].1)))
  }

  function LaneName(row: LaneStats): string { row.lane }

  function LanesIn(rows: seq<LaneStats>): set<string> { set row | row in rows :: row.lane }

  lemma NamesAppend(ready: seq<(string, Instant)>, r: (string, Instant))
    ensures Names(ready + [r]) == Names(ready) + {r.0}
  {
  }

  lemma LanesInAppend(rows: seq<LaneStats>, row: LaneStats)
    ensures LanesIn(rows + [row]) == LanesIn(rows) + {row.lane}
  {
  }

  lemma OneMoreRow(rows: seq<LaneStats>, row: LaneStats)
    requires DistinctBy(rows, LaneName) && row.lane !in LanesIn(rows)
    ensures DistinctBy(rows + [row], LaneName)
  {
  }

  lemma NothingCredited(matched: map<string, nat>)
    ensures Credited(matched, LanesOf([])) == matched
  {
  }

  lemma NothingCompleted(reference: string, st: RaceState, lane: string, tx: SeenTx, now: Instant)
    requires reference !in Noted(st.pending, lane, tx).arrivals && |st.recent| <= RECENT_KEPT
    ensures Observed(reference, st, lane, tx, now, [])
         == st.(pending := st.pending[tx.signature := Noted(st.pending, lane, tx)], seen := Bump(st.seen, lane))
  {
    var e := Noted(st.pending, lane, tx);
    NothingCredited(st.matched);
    assert st.recent + [] == st.recent && st.deltas + DeltasOf([], now) == st.deltas;
    assert e.paired + ReadyLanes(reference, e) == e.paired;
  }

  lemma WrittenTwice<V>(m: map<string, V>, k: string, first: V, second: V)
    ensures m[k := first][k := second] == m[k := second]
  {
  }

  lemma DeltasAppend(old_: seq<Delta>, completed: seq<MatchedTx>, found: MatchedTx, now: Instant)
    ensures old_ + DeltasOf(completed + [found], now)
         == old_ + DeltasOf(completed, now) + [Delta(now, found.lane, found.lead)]
  {
  }

  lemma CreditOne(matched: map<string, nat>, completed: seq<MatchedTx>, found: MatchedTx)
    requires found.lane !in LanesOf(completed)
    ensures Credited(matched, LanesOf(completed + [found]))
         == Bump(Credited(matched, LanesOf(completed)), found.lane)
  {
  }

  lemma RecentOne(old_: seq<MatchedTx>, completed: seq<MatchedTx>, found: MatchedTx, recent: seq<MatchedTx>)
    requires recent == LastK(old_ + completed, RECENT_KEPT)
    ensures LastK(old_ + (completed + [found]), RECENT_KEPT) == LastK(recent + [found], RECENT_KEPT)
  {
  }

  lemma AllReadyCompleted(reference: string, e: Pending, signature: string,
                          ready: seq<(string, Instant)>, completed: seq<MatchedTx>)
    requires reference in e.arrivals
    requires forall i, j :: 0 <= i < j < |ready| ==> ready[i].0 != ready[j].0
    requires forall i :: 0 <= i < |ready| ==>
               ready[i].0 in e.arrivals && ready[i].1 == e.arrivals[ready[i].0]
    requires Names(ready) == ReadyLanes(reference, e)
    requires completed == MatchesOf(signature, e.slot, e.arrivals[reference], ready)
    ensures Completes(reference, e, signature, completed)
  {
    forall m | m in completed
      ensures m.lane in ReadyLanes(reference, e)
      ensures m == MatchedTx(signature, e.slot, m.lane, Lead(e.arrivals[reference], e.arrivals[m.lane]))
    {
      var j :| 0 <= j < |completed| && completed[j] == m;
      assert ready[j] in ready && ready[j].0 in Names(ready);
    }
    forall l | l in ReadyLanes(reference, e)
      ensures l in LanesOf(completed)
    {
      var j :| 0 <= j < |ready| && ready[j].0 == l;
      assert completed[j] in completed;
    }
  }

  lemma SortedRows(rows: seq<LaneStats>)
    requires DistinctBy(rows, LaneName)
    ensures forall row :: row in Sort(rows, ByName) <==> row in rows
    ensures Sorted(Sort(rows, ByName), ByName) && DistinctBy(Sort(rows, ByName), LaneName)
    ensures LanesIn(Sort(rows, ByName)) == LanesIn(rows)
  {
    StrOrder();
    SortSorts(rows, ByName);
    SortPermutes(rows, ByName);
    SortKeepsDistinct(rows, ByName, LaneName);
  }
}
