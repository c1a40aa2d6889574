/** What a published row of the race says about the run: its figures read off the
    pairs the run reported, with no mention of the queue they are kept in. */
module RaceRows {
  import opened Prelude
  import opened Quantiles
  import opened Sorting
  import opened Races
  import opened RaceRuns
  import opened RaceEpochs
  import opened RaceWindow

  /** A reported pair, and when its completing arrival was processed. */
  datatype Timed = Timed(pair: MatchedTx, at: Instant)

  function TimedAt(ms: seq<MatchedTx>, now: Instant): seq<Timed> {
    seq(|ms|, i requires 0 <= i < |ms| => Timed(ms[i], now))
  }

  function Reported(es: seq<Event>): seq<Timed> {
    if es == [] then [] else
      Reported(Front(es)) + if Last(es).Arrived? then TimedAt(Last(es).completed, Last(es).now) else []
  }

  /** The lane's pairs among these that are no older than the window. */
  function YoungPairs(ts: seq<Timed>, lane: string, now: Instant, window: Duration): seq<MatchedTx> {
    if ts == [] then [] else
      YoungPairs(Front(ts), lane, now, window) +
      if Last(ts).pair.lane == lane && SatSub(now, Last(ts).at) <= window then [Last(ts).pair] else []
  }

  /** The lane's pairs still in the window: processed no longer before the last
      sweep than the window is long. */
  function WindowPairs(c: Config, es: seq<Event>, lane: string): seq<MatchedTx> {
    YoungPairs(Reported(es), lane, LastSweep(es), c.window)
  }

  // ----- the queue holds those pairs' leads -----

  function Leads(ms: seq<MatchedTx>): seq<int> { seq(|ms|, i requires 0 <= i < |ms| => ms[i].lead) }

  function AsDeltas(ts: seq<Timed>): seq<Delta> {
    seq(|ts|, i requires 0 <= i < |ts| => Delta(ts[i].at, ts[i].pair.lane, ts[i].pair.lead))
  }

  lemma {:induction false} PushedAreReported(es: seq<Event>)
    ensures Pushed(es) == AsDeltas(Reported(es))
  {
    if es != [] {
      PushedAreReported(Front(es));
    }
  }

  lemma {:induction false} YoungLeads(ts: seq<Timed>, lane: string, now: Instant, window: Duration)
    ensures LeadsOf(Filter(AsDeltas(ts), Young(now, window)), lane) == Leads(YoungPairs(ts, lane, now, window))
  {
    if ts != [] {
      YoungLeads(Front(ts), lane, now, window);
      var ds, d := AsDeltas(ts), Delta(Last(ts).at, Last(ts).pair.lane, Last(ts).pair.lead);
      assert Front(ds) == AsDeltas(Front(ts)) && Last(ds) == d;
      var kept := Filter(Front(ds), Young(now, window));
      if Young(now, window)(d) {
        assert Front(kept + [d]) == kept;
      } else {
        assert Filter(ds, Young(now, window)) == kept;
      }
    }
  }

  lemma QueueLeads(c: Config, es: seq<Event>, lane: string)
    requires Monotone(es)
    ensures LeadsOf(After(c, es).deltas, lane) == Leads(WindowPairs(c, es, lane))
  {
    WindowIsWhatIsYoung(c, es);
    PushedAreReported(es);
    YoungLeads(Reported(es), lane, LastSweep(es), c.window);
  }

  lemma {:induction false} YoungWereReported(es: seq<Event>, ts: seq<Timed>, lane: string, now: Instant,
                                             window: Duration)
    requires forall t :: t in ts ==> t.pair in Emitted(es)
    ensures forall m :: m in YoungPairs(ts, lane, now, window) ==> m in Emitted(es) && m.lane == lane
  {
    if ts != [] {
      assert ts == Front(ts) + [Last(ts)];
      YoungWereReported(es, Front(ts), lane, now, window);
    }
  }

  lemma {:induction false} ReportedWereEmitted(es: seq<Event>)
    ensures forall t :: t in Reported(es) ==> t.pair in Emitted(es)
  {
    if es != [] {
      ReportedWereEmitted(Front(es));
    }
  }

  // ----- figures over pairs -----

  function Fewer(ms: seq<MatchedTx>, v: int): nat { |Filter(ms, (m: MatchedTx) => m.lead < v)| }

  function NoMore(ms: seq<MatchedTx>, v: int): nat { |Filter(ms, (m: MatchedTx) => m.lead <= v)| }

  lemma {:induction false} CountLeads(ms: seq<MatchedTx>, v: int)
    ensures Below(Leads(ms), v) == Fewer(ms, v) && AtMost(Leads(ms), v) == NoMore(ms, v)
  {
    if ms != [] {
      CountLeads(Front(ms), v);
      assert Front(Leads(ms)) == Leads(Front(ms)) && Last(Leads(ms)) == Last(ms).lead;
    }
  }

  /** The figure is the lead of one of these pairs; and with `k` the nearest whole
      number to `p` percent of one less than their number, half rounding up, at
      most `k` of them have a smaller lead and more than `k` one no larger. */
  ghost predicate IsPercentile(figure: Option<int>, ms: seq<MatchedTx>, p: nat) {
    if ms == [] then figure.None? else
      && figure.Some? && (exists m :: m in ms && m.lead == figure.value)
      && exists k: nat :: HasRank(figure.value, ms, p, k)
  }

  ghost predicate HasRank(v: int, ms: seq<MatchedTx>, p: nat, k: nat)
    requires ms != []
  {
    100 * k <= (|ms| - 1) * p + 50 < 100 * (k + 1) && Fewer(ms, v) <= k < NoMore(ms, v)
  }

  lemma RungIsNearest(n: nat, p: nat)
    requires n > 0 && p <= 100
    ensures 100 * Rung(n, p) <= (n - 1) * p + 50 < 100 * (Rung(n, p) + 1)
  {
    MulMono(n - 1, p, 100);
  }

  /** These sorted leads are the pairs' leads. */
  ghost predicate SortsLeads(s: seq<int>, ms: seq<MatchedTx>) {
    && Sorted(s, IntLe) && |s| == |ms|
    && (forall v :: v in s ==> exists m :: m in ms && m.lead == v)
    && (forall v :: Below(s, v) == Fewer(ms, v) && AtMost(s, v) == NoMore(ms, v))
  }

  lemma PercentileOfPairs(s: seq<int>, ms: seq<MatchedTx>, p: nat)
    requires SortsLeads(s, ms) && p <= 100
    ensures IsPercentile(Percentile(s, p), ms, p)
  {
    if ms != [] {
      var k := Rung(|s|, p);
      RungIsNearest(|ms|, p);
      UnderSorted(s, k);
      UptoSorted(s, k);
      assert Below(s, s[k]) == Fewer(ms, s[k]) && s[k] in s;
      assert HasRank(s[k], ms, p, k);
    }
  }

  lemma AllSorted(ms: seq<MatchedTx>)
    ensures SortsLeads(Sorted1(Leads(ms)), ms)
  {
    var s := Sorted1(Leads(ms));
    SortedLeads(Leads(ms));
    SortPermutes(Leads(ms), IntLe);
    forall v
      ensures Below(s, v) == Fewer(ms, v) && AtMost(s, v) == NoMore(ms, v)
    {
      FilterSort(Leads(ms), (d: int) => d < v);
      FilterSort(Leads(ms), (d: int) => d <= v);
      CountLeads(ms, v);
    }
    forall v | v in s
      ensures exists m :: m in ms && m.lead == v
    {
      var i :| 0 <= i < |ms| && Leads(ms)[i] == v;
      assert ms[i] in ms;
    }
  }

  lemma LedCounts(leads: seq<int>, q: int -> bool)
    ensures |Filter(Led(Sorted1(leads)), q)| == |Filter(Filter(leads, (d: int) => d > 0), q)|
  {
    var led, both := (d: int) => d > 0, (d: int) => d > 0 && q(d);
    FilterBoth(Sorted1(leads), led, q, both);
    FilterBoth(leads, led, q, both);
    FilterSort(leads, both);
  }

  /** The won pairs' leads are the positive ones of all. */
  lemma LedSorted(ms: seq<MatchedTx>, won: seq<MatchedTx>)
    requires Filter(Leads(ms), (d: int) => d > 0) == Leads(won)
    ensures SortsLeads(Led(Sorted1(Leads(ms))), won)
  {
    var s, leads := Led(Sorted1(Leads(ms))), Leads(ms);
    SortedLeads(leads);
    LedIsASuffix(Sorted1(leads));
    FilterSort(leads, (d: int) => d > 0);
    forall v
      ensures Below(s, v) == Fewer(won, v) && AtMost(s, v) == NoMore(won, v)
    {
      LedCounts(leads, (d: int) => d < v);
      LedCounts(leads, (d: int) => d <= v);
      CountLeads(won, v);
    }
    forall v | v in s
      ensures exists m :: m in won && m.lead == v
    {
      LedMember(leads, v);
      var i :| 0 <= i < |won| && Leads(won)[i] == v;
      assert won[i] in won;
    }
  }

  lemma LedMember(leads: seq<int>, v: int)
    requires v in Led(Sorted1(leads))
    ensures v in Filter(leads, (d: int) => d > 0)
  {
    SortPermutes(leads, IntLe);
    FilterMembers(Sorted1(leads), (d: int) => d > 0);
    FilterMembers(leads, (d: int) => d > 0);
  }

  ghost predicate IsLadder(ladder: seq<Quantile>, ms: seq<MatchedTx>) {
    if ms == [] then ladder == [] else
      |ladder| == |LADDER| &&
      forall i :: 0 <= i < |LADDER| ==>
        ladder[i].at == LADDER[i].0 && IsPercentile(Some(ladder[i].lead), ms, LADDER[i].1)
  }

  lemma LadderOfPairs(s: seq<int>, ms: seq<MatchedTx>)
    requires SortsLeads(s, ms)
    ensures IsLadder(Ladder(s), ms)
  {
    if ms != [] {
      forall i | 0 <= i < |LADDER|
        ensures IsPercentile(Some(Ladder(s)[i].lead), ms, LADDER[i].1)
      {
        assert LADDER[i].1 <= 100;
        PercentileOfPairs(s, ms, LADDER[i].1);
      }
    }
  }

  // ----- who was first -----

  /** The pair is of a life of its signature in which the reference delivered
      before the lane. */
  ghost predicate ReferenceFirst(c: Config, es: seq<Event>, m: MatchedTx) {
    exists life :: life in Epochs(es, m.signature) && OfLife(c, life, m)
                && FirstOf(life.arrivals, c.reference).value < FirstOf(life.arrivals, m.lane).value
  }

  ghost predicate OfLife(c: Config, life: Epoch, m: MatchedTx) {
    life.arrivals != [] && Joined(c, life.arrivals, m.lane) && m == PairOf(c, m.signature, m.lane, life.arrivals)
  }

  lemma {:induction false} PairsAreOfLives(c: Config, signature: string, lane: string, lives: seq<Epoch>, m: MatchedTx)
    requires forall l :: l in lives ==> l.arrivals != []
    requires m in PairsOf(c, signature, lane, lives)
    ensures m.signature == signature && m.lane == lane && exists life :: life in lives && OfLife(c, life, m)
  {
    assert lives == Front(lives) + [Last(lives)] && Last(lives) in lives;
    if m in PairsOf(c, signature, lane, Front(lives)) {
      PairsAreOfLives(c, signature, lane, Front(lives), m);
    } else {
      assert OfLife(c, Last(lives), m);
    }
  }

  /** A reported lead is positive exactly when the reference was first. */
  lemma LeadSaysWhoWasFirst(c: Config, es: seq<Event>, m: MatchedTx)
    requires Run(c, es) && m in Emitted(es)
    ensures m.lead > 0 <==> ReferenceFirst(c, es, m)
  {
    OnePairPerEpoch(c, es, m.signature, m.lane);
    FilterMembers(Emitted(es), Of(m.signature, m.lane));
    assert m in Filter(Emitted(es), Of(m.signature, m.lane));
    PairsAreOfLives(c, m.signature, m.lane, Epochs(es, m.signature), m);
  }

  ghost function Won(c: Config, es: seq<Event>, ms: seq<MatchedTx>): seq<MatchedTx> {
    Filter(ms, (m: MatchedTx) => ReferenceFirst(c, es, m))
  }

  lemma {:induction false} PositiveLeads(ms: seq<MatchedTx>)
    ensures Filter(Leads(ms), (d: int) => d > 0) == Leads(Filter(ms, (m: MatchedTx) => m.lead > 0))
  {
    if ms != [] {
      PositiveLeads(Front(ms));
      assert Front(Leads(ms)) == Leads(Front(ms)) && Last(Leads(ms)) == Last(ms).lead;
    }
  }

  lemma WonLeads(c: Config, es: seq<Event>, ms: seq<MatchedTx>)
    requires Run(c, es) && forall m :: m in ms ==> m in Emitted(es)
    ensures Filter(Leads(ms), (d: int) => d > 0) == Leads(Won(c, es, ms))
  {
    forall m | m in ms
      ensures m.lead > 0 <==> ReferenceFirst(c, es, m)
    {
      LeadSaysWhoWasFirst(c, es, m);
    }
    PositiveLeads(ms);
    FilterAlike(ms, (m: MatchedTx) => m.lead > 0, (m: MatchedTx) => ReferenceFirst(c, es, m));
  }

  // ----- the row -----

  /** How many arrivals the lane had. */
  ghost function Arrivals(es: seq<Event>, lane: string): set<nat> {
    set i: nat | i < |es| && es[i].Arrived? && es[i].lane == lane
  }

  /** The share is the nearest tenth of a percent to `won` of `n`, half up. */
  ghost predicate IsShare(tenths: Option<nat>, won: nat, n: nat) {
    if n == 0 then tenths.None? else
      tenths.Some? && 2 * n * tenths.value <= 2000 * won + n < 2 * n * (tenths.value + 1)
  }

  /** The windowed figures of a row, each read off the pairs themselves. */
  ghost predicate ReadsOff(row: LaneStats, ms: seq<MatchedTx>, won: seq<MatchedTx>) {
    && row.nWindow == |ms|
    && IsPercentile(row.p10, ms, 10) && IsPercentile(row.median, ms, 50) && IsPercentile(row.p90, ms, 90)
    && IsLadder(row.quantiles, ms) && IsLadder(row.ledQuantiles, won)
    && IsShare(row.referenceFirstTenths, |won|, |ms|)
  }

  lemma ShareOfPairs(ms: seq<MatchedTx>, won: seq<MatchedTx>)
    requires ms != [] && |won| <= |ms|
    ensures IsShare(Some(PctTenths(|won|, |ms|)), |won|, |ms|)
  {
    PctIsNearest(|won|, |ms|);
  }

  lemma RowOfLeads(st: RaceState, lane: string, ms: seq<MatchedTx>, won: seq<MatchedTx>)
    requires LeadsOf(st.deltas, lane) == Leads(ms)
    requires Filter(Leads(ms), (d: int) => d > 0) == Leads(won)
    ensures ReadsOff(RowOf(st, lane), ms, won)
  {
    var s := Sorted1(Leads(ms));
    AllSorted(ms);
    LedSorted(ms, won);
    PercentileOfPairs(s, ms, 10);
    PercentileOfPairs(s, ms, 50);
    PercentileOfPairs(s, ms, 90);
    LadderOfPairs(s, ms);
    LadderOfPairs(Led(s), won);
    FilterMembers(s, (d: int) => d > 0);
    if ms != [] {
      ShareOfPairs(ms, won);
    }
  }

  /** The row theorem. Over every run on a clock that never runs backwards, a
      lane's row is about that lane's own reported pairs: those still in the
      window give its percentiles and both ladders by rank; its share counts
      exactly those of them whose reference arrived first; and its totals are the
      lane's arrivals and all its pairs. */
  lemma RowSpeaksOfItsPairs(c: Config, es: seq<Event>, lane: string)
    requires Run(c, es) && Monotone(es)
    ensures var row, ms := RowOf(After(c, es), lane), WindowPairs(c, es, lane);
            && (forall m :: m in ms ==> m in Emitted(es) && m.lane == lane)
            && ReadsOff(row, ms, Won(c, es, ms))
            && row.seen == |Arrivals(es, lane)|
            && row.matched == |Filter(Emitted(es), (m: MatchedTx) => m.lane == lane)|
  {
    var ms := WindowPairs(c, es, lane);
    ReportedWereEmitted(es);
    YoungWereReported(es, Reported(es), lane, LastSweep(es), c.window);
    QueueLeads(c, es, lane);
    WonLeads(c, es, ms);
    RowOfLeads(After(c, es), lane, ms, Won(c, es, ms));
    SeenAreArrivals(c, es, lane);
    MatchedAreEmitted(c, es, lane);
  }

  lemma {:induction false} SeenAreArrivals(c: Config, es: seq<Event>, lane: string)
    ensures Count(After(c, es).seen, lane) == |Arrivals(es, lane)|
  {
    if es == [] {
      assert Arrivals(es, lane) == {};
    } else {
      SeenAreArrivals(c, Front(es), lane);
      OneMoreArrival(es, lane);
    }
  }

  lemma OneMoreArrival(es: seq<Event>, lane: string)
    requires es != []
    ensures |Arrivals(es, lane)|
         == |Arrivals(Front(es), lane)| + if Last(es).Arrived? && Last(es).lane == lane then 1 else 0
  {
    var n := |es| - 1;
    assert Arrivals(es, lane) == Arrivals(Front(es), lane) + if es[n].Arrived? && es[n].lane == lane then {n} else {};
  }

  lemma {:induction false} MatchedAreEmitted(c: Config, es: seq<Event>, lane: string)
    requires Run(c, es)
    ensures Count(After(c, es).matched, lane) == |Filter(Emitted(es), (m: MatchedTx) => m.lane == lane)|
  {
    MatchedCountsPushed(c, es, lane);
    PushedAreReported(es);
    LaneLeads(Reported(es), lane);
    ReportedPairs(es);
  }

  function PairsAlone(ts: seq<Timed>): seq<MatchedTx> { seq(|ts|, i requires 0 <= i < |ts| => ts[i].pair) }

  lemma {:induction false} ReportedPairs(es: seq<Event>)
    ensures PairsAlone(Reported(es)) == Emitted(es)
  {
    if es != [] {
      ReportedPairs(Front(es));
    }
  }

  lemma {:induction false} LaneLeads(ts: seq<Timed>, lane: string)
    ensures |LeadsOf(AsDeltas(ts), lane)| == |Filter(PairsAlone(ts), (m: MatchedTx) => m.lane == lane)|
  {
    if ts != [] {
      LaneLeads(Front(ts), lane);
      assert Front(AsDeltas(ts)) == AsDeltas(Front(ts)) && Front(PairsAlone(ts)) == PairsAlone(Front(ts));
    }
  }
}
