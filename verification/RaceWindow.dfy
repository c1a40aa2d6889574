/** The sliding window of the race over whole runs: what the popping sweep
    keeps, what the counters say about it, and how the rows partition it. */
module RaceWindow {
  import opened Prelude
  import opened Sorting
  import opened Quantiles
  import opened Races
  import opened RaceRuns

  /** Every delta the run ever queued. */
  function Pushed(es: seq<Event>): seq<Delta> {
    if es == [] then [] else
      Pushed(Front(es)) + if Last(es).Arrived? then DeltasOf(Last(es).completed, Last(es).now) else []
  }

  function Clock(es: seq<Event>): Instant { if es == [] then 0 else Last(es).now }

  function LastSweep(es: seq<Event>): Instant {
    if es == [] then 0 else if Last(es).Swept? then Last(es).now else LastSweep(Front(es))
  }

  /** The clock never runs backwards. */
  ghost predicate Monotone(es: seq<Event>) {
    es == [] || (Monotone(Front(es)) && Clock(Front(es)) <= Last(es).now)
  }

  ghost predicate ByTime(ds: seq<Delta>) { forall i, j :: 0 <= i < j < |ds| ==> ds[i].at <= ds[j].at }

  function Young(now: Instant, window: Duration): Delta -> bool {
    (d: Delta) => SatSub(now, d.at) <= window
  }

  /** On a queue in time order, popping the stale front is keeping the young. */
  lemma {:induction false} DropStaleIsFilter(ds: seq<Delta>, now: Instant, window: Duration)
    requires ByTime(ds)
    ensures DropStale(ds, now, window) == Filter(ds, Young(now, window))
  {
    var young := Young(now, window);
    if ds != [] && SatSub(now, ds[0].at) > window {
      DropStaleIsFilter(ds[1..], now, window);
      FilterAppend([ds[0]], ds[1..], young);
      assert ds == [ds[0]] + ds[1..];
      assert Filter([ds[0]], young) == [] by { FilterNone([ds[0]], young); }
    } else {
      FilterAll(ds, young);
    }
  }

  lemma {:induction false} PushedByTime(es: seq<Event>)
    requires Monotone(es)
    ensures ByTime(Pushed(es))
    ensures forall d :: d in Pushed(es) ==> d.at <= Clock(es)
    ensures LastSweep(es) <= Clock(es)
  {
    if es != [] {
      PushedByTime(Front(es));
    }
  }

  lemma {:induction false} FilterKeepsTime(ds: seq<Delta>, p: Delta -> bool)
    requires ByTime(ds)
    ensures ByTime(Filter(ds, p))
  {
    if ds != [] {
      FilterKeepsTime(Front(ds), p);
      FilterMembers(Front(ds), p);
      forall d | d in Front(ds)
        ensures d.at <= Last(ds).at
      {
      }
    }
  }

  lemma {:induction false} FilterTwice(ds: seq<Delta>, early: Instant, late: Instant, window: Duration)
    requires early <= late
    ensures Filter(Filter(ds, Young(early, window)), Young(late, window)) == Filter(ds, Young(late, window))
  {
    if ds != [] {
      FilterTwice(Front(ds), early, late, window);
      var kept, d := Filter(Front(ds), Young(early, window)), Last(ds);
      FilterAppend(kept, [d], Young(late, window));
      assert Front([d]) == [] && Filter([d], Young(late, window)) == if Young(late, window)(d) then [d] else [];
      if Young(early, window)(d) {
        assert Filter(ds, Young(early, window)) == kept + [d];
      } else {
        assert Filter(ds, Young(early, window)) == kept;
        assert !Young(late, window)(d);
      }
    }
  }

  /** With a clock that never runs backwards, the queue is exactly the deltas
      ever queued that were still inside the window at the last sweep, although
      the sweep only ever looks at its front. */
  lemma {:induction false} WindowIsWhatIsYoung(c: Config, es: seq<Event>)
    requires Monotone(es)
    ensures After(c, es).deltas == Filter(Pushed(es), Young(LastSweep(es), c.window))
    ensures ByTime(After(c, es).deltas)
  {
    PushedByTime(es);
    FilterKeepsTime(Pushed(es), Young(LastSweep(es), c.window));
    if es != [] {
      var e, f := Last(es), Front(es);
      WindowIsWhatIsYoung(c, f);
      PushedByTime(f);
      if e.Swept? {
        DropStaleIsFilter(After(c, f).deltas, e.now, c.window);
        FilterTwice(Pushed(f), LastSweep(f), e.now, c.window);
        assert Pushed(es) == Pushed(f);
      } else {
        var added := DeltasOf(e.completed, e.now);
        FilterAppend(Pushed(f), added, Young(LastSweep(es), c.window));
        FilterAll(added, Young(LastSweep(es), c.window));
      }
    }
  }

  // ----- the counters and the tape -----

  lemma {:induction false} LeadsAppend(a: seq<Delta>, b: seq<Delta>, lane: string)
    ensures LeadsOf(a + b, lane) == LeadsOf(a, lane) + LeadsOf(b, lane)
  {
    if b == [] {
      assert a + b == a;
    } else {
      assert Front(a + b) == a + Front(b) && Last(a + b) == Last(b);
      LeadsAppend(a, Front(b), lane);
    }
  }

  lemma {:induction false} OneDeltaPerLane(ms: seq<MatchedTx>, now: Instant, lane: string)
    requires forall i, j :: 0 <= i < j < |ms| ==> ms[i].lane != ms[j].lane
    ensures |LeadsOf(DeltasOf(ms, now), lane)| == if lane in LanesOf(ms) then 1 else 0
  {
    if ms != [] {
      OneDeltaPerLane(Front(ms), now, lane);
      assert Front(DeltasOf(ms, now)) == DeltasOf(Front(ms), now);
      assert ms == Front(ms) + [Last(ms)];
      assert Last(ms).lane !in LanesOf(Front(ms));
      assert LanesOf(ms) == LanesOf(Front(ms)) + {Last(ms).lane} by {
        assert forall m :: m in ms <==> m in Front(ms) || m == Last(ms);
      }
    }
  }

  /** `matched` counts every delta the lane ever queued. */
  lemma {:induction false} MatchedCountsPushed(c: Config, es: seq<Event>, lane: string)
    requires Run(c, es)
    ensures Count(After(c, es).matched, lane) == |LeadsOf(Pushed(es), lane)|
  {
    if es != [] {
      MatchedCountsPushed(c, Front(es), lane);
      if Last(es).Arrived? {
        LeadsAppend(Pushed(Front(es)), DeltasOf(Last(es).completed, Last(es).now), lane);
        OneDeltaPerLane(Last(es).completed, Last(es).now, lane);
      } else {
        assert Pushed(es) == Pushed(Front(es));
      }
    }
  }

  /** The queue is always the tail of everything queued. */
  lemma {:induction false} DropStaleIsTail(ds: seq<Delta>, now: Instant, window: Duration)
    ensures var out := DropStale(ds, now, window);
            |out| <= |ds| && out == ds[|ds| - |out|..]
  {
    if ds != [] && SatSub(now, ds[0].at) > window {
      DropStaleIsTail(ds[1..], now, window);
    }
  }

  lemma {:induction false} QueueIsTail(c: Config, es: seq<Event>)
    ensures var q, all := After(c, es).deltas, Pushed(es);
            |q| <= |all| && q == all[|all| - |q|..]
  {
    if es != [] {
      QueueIsTail(c, Front(es));
      if Last(es).Swept? {
        DropStaleIsTail(After(c, Front(es)).deltas, Last(es).now, c.window);
        assert Pushed(es) == Pushed(Front(es));
      } else {
        TailGrows(After(c, Front(es)).deltas, Pushed(Front(es)), DeltasOf(Last(es).completed, Last(es).now));
      }
    }
  }

  lemma TailGrows(q: seq<Delta>, all: seq<Delta>, more: seq<Delta>)
    requires |q| <= |all| && q == all[|all| - |q|..]
    ensures q + more == (all + more)[|all + more| - |q + more|..]
  {
  }

  /** What a lane has matched is what its row's window holds plus the deltas of
      that lane that were swept away; nothing is lost in between. */
  lemma MatchedIsWindowPlusSwept(c: Config, es: seq<Event>, lane: string)
    requires Run(c, es)
    ensures var q, all := After(c, es).deltas, Pushed(es);
            && |q| <= |all|
            && Count(After(c, es).matched, lane)
               == RowOf(After(c, es), lane).nWindow + |LeadsOf(all[..|all| - |q|], lane)|
  {
    var q, all := After(c, es).deltas, Pushed(es);
    QueueIsTail(c, es);
    MatchedCountsPushed(c, es, lane);
    assert all == all[..|all| - |q|] + q;
    LeadsAppend(all[..|all| - |q|], q, lane);
    SortedLeads(LeadsOf(q, lane));
  }

  /** The tape holds the last pairs ever completed, evictions or not. */
  lemma {:induction false} RecentIsTheTail(c: Config, es: seq<Event>)
    ensures After(c, es).recent == LastK(Emitted(es), RECENT_KEPT)
  {
    if es != [] {
      RecentIsTheTail(c, Front(es));
      if Last(es).Arrived? {
        TailOfTail(Emitted(Front(es)), Last(es).completed, RECENT_KEPT);
      } else {
        assert Emitted(es) == Emitted(Front(es));
      }
    }
  }

  lemma TailOfTail<T>(a: seq<T>, b: seq<T>, k: nat)
    ensures LastK(LastK(a, k) + b, k) == LastK(a + b, k)
  {
  }

  // ----- the rows partition the queue -----

  ghost predicate LanesKnown(c: Config, st: RaceState) {
    && (forall s, l :: s in st.pending && l in st.pending[s].arrivals ==> l in st.seen)
    && (forall d :: d in st.deltas ==> d.lane in st.seen && d.lane != c.reference)
  }

  lemma {:induction false} LanesAlwaysKnown(c: Config, es: seq<Event>)
    requires Run(c, es)
    ensures LanesKnown(c, After(c, es))
  {
    if es != [] {
      var st, e := After(c, Front(es)), Last(es);
      LanesAlwaysKnown(c, Front(es));
      if e.Swept? {
        DropStaleIsTail(st.deltas, e.now, c.window);
      } else {
        KnownStep(c, st, e);
      }
    }
  }

  lemma KnownStep(c: Config, st: RaceState, e: Event)
    requires LanesKnown(c, st) && e.Arrived? && Legal(c, st, e)
    ensures LanesKnown(c, Apply(c, st, e))
  {
  }

  function Windowed(rows: seq<LaneStats>): nat {
    if rows == [] then 0 else Windowed(Front(rows)) + Last(rows).nWindow
  }

  function LeadTotal(ds: seq<Delta>, rows: seq<LaneStats>): nat {
    if rows == [] then 0 else LeadTotal(ds, Front(rows)) + |LeadsOf(ds, Last(rows).lane)|
  }

  lemma {:induction false} LeadTotalStep(ds: seq<Delta>, d: Delta, rows: seq<LaneStats>)
    requires DistinctBy(rows, LaneName)
    ensures LeadTotal(ds + [d], rows) == LeadTotal(ds, rows) + if d.lane in LanesIn(rows) then 1 else 0
  {
    if rows != [] {
      LeadTotalStep(ds, d, Front(rows));
      OneMoreLead(ds, d, Last(rows).lane);
      LastRowIsNew(rows);
    }
  }

  lemma OneMoreLead(ds: seq<Delta>, d: Delta, lane: string)
    ensures |LeadsOf(ds + [d], lane)| == |LeadsOf(ds, lane)| + if d.lane == lane then 1 else 0
  {
    assert Front(ds + [d]) == ds;
  }

  lemma LastRowIsNew(rows: seq<LaneStats>)
    requires rows != [] && DistinctBy(rows, LaneName)
    ensures DistinctBy(Front(rows), LaneName) && Last(rows).lane !in LanesIn(Front(rows))
    ensures LanesIn(rows) == LanesIn(Front(rows)) + {Last(rows).lane}
  {
    assert rows == Front(rows) + [Last(rows)];
    LanesInAppend(Front(rows), Last(rows));
    assert forall i :: 0 <= i < |rows| - 1 ==> LaneName(rows[i]) != LaneName(rows[|rows| - 1]);
  }

  lemma {:induction false} LeadTotalIsAll(ds: seq<Delta>, rows: seq<LaneStats>)
    requires DistinctBy(rows, LaneName)
    requires forall d :: d in ds ==> d.lane in LanesIn(rows)
    ensures LeadTotal(ds, rows) == |ds|
  {
    if ds == [] {
      NoLeads(rows);
    } else {
      assert ds == Front(ds) + [Last(ds)];
      LeadTotalIsAll(Front(ds), rows);
      LeadTotalStep(Front(ds), Last(ds), rows);
    }
  }

  lemma {:induction false} NoLeads(rows: seq<LaneStats>)
    ensures LeadTotal([], rows) == 0
  {
    if rows != [] {
      NoLeads(Front(rows));
    }
  }

  lemma {:induction false} WindowedIsLeadTotal(st: RaceState, rows: seq<LaneStats>)
    requires forall row :: row in rows ==> row == RowOf(st, row.lane)
    ensures Windowed(rows) == LeadTotal(st.deltas, rows)
  {
    if rows != [] {
      assert rows == Front(rows) + [Last(rows)];
      WindowedIsLeadTotal(st, Front(rows));
      SortedLeads(LeadsOf(st.deltas, Last(rows).lane));
    }
  }

  /** In every reachable state the published rows split the queue between them:
      their window counts add up to its length. */
  lemma RowsPartitionTheWindow(c: Config, es: seq<Event>, rows: seq<LaneStats>)
    requires Run(c, es) && DistinctBy(rows, LaneName)
    requires LanesIn(rows) == After(c, es).seen.Keys - {c.reference}
    requires forall row :: row in rows ==> row == RowOf(After(c, es), row.lane)
    ensures Windowed(rows) == |After(c, es).deltas|
  {
    LanesAlwaysKnown(c, es);
    WindowedIsLeadTotal(After(c, es), rows);
    LeadTotalIsAll(After(c, es).deltas, rows);
  }

  /** A published row: both ladders rise, the "when ahead" one dominates rung
      for rung and holds wins only. */
  lemma RowLadders(st: RaceState, lane: string)
    ensures var row := RowOf(st, lane);
            && row.nWindow == |LeadsOf(st.deltas, lane)|
            && Rises(row.quantiles) && Rises(row.ledQuantiles)
            && Dominated(row.quantiles, row.ledQuantiles)
            && (forall i :: 0 <= i < |row.ledQuantiles| ==> row.ledQuantiles[i].lead > 0)
  {
    LadderDominance(LeadsOf(st.deltas, lane));
    SortedLeads(LeadsOf(st.deltas, lane));
  }

  /** The published share is there exactly when the window is not empty, and is
      the nearest tenth of a percent to the lane's share of lost races in it. */
  lemma RowShare(st: RaceState, lane: string)
    ensures var row, leads := RowOf(st, lane), LeadsOf(st.deltas, lane);
            var n, wins := |leads|, |Filter(leads, (d: int) => d > 0)|;
            if leads == [] then row.referenceFirstTenths.None? else
              && row.referenceFirstTenths.Some? && row.referenceFirstTenths.value <= 1000
              && 2 * n * row.referenceFirstTenths.value <= 2000 * wins + n
              && 2000 * wins + n < 2 * n * (row.referenceFirstTenths.value + 1)
  {
    var leads, ahead := LeadsOf(st.deltas, lane), (d: int) => d > 0;
    SortedLeads(leads);
    FilterSort(leads, ahead);
    FilterMembers(leads, ahead);
    if leads != [] {
      PctIsNearest(|Filter(leads, ahead)|, |leads|);
    }
  }
}
