/** What a duel shows, read off the reports alone: whose view each view is, what
    event the duel is about, what its verdict says, and where it is listed. */
module DuelViews {
  import opened Prelude
  import opened Lanes
  import opened Duels
  import opened DuelRuns

  // ----- the views and the labels -----

  /** No earlier report of this life is by the same lane. */
  ghost predicate FirstOfLane(life: seq<Report>, i: nat) {
    i < |life| && forall j :: 0 <= j < i ==> life[j].lane != life[i].lane
  }

  /** The view is what this report saw. */
  ghost predicate Shows(v: LaneView, r: Report) {
    && v.lane == r.lane && v.gapBps == r.found.gapBps && v.route == r.found.route
    && (v.tradeable <==> r.found.opportunity.Some?)
    && (r.found.opportunity.Some? ==> v.netLamports == r.found.opportunity.value.netLamports)
    && (r.found.opportunity.None? ==> v.netLamports == 0)
  }

  /** The views are the lanes' first reports, in the order they were made; `places`
      says where each stands in the life. */
  ghost predicate ShowsFirsts(life: seq<Report>, views: seq<LaneView>, places: seq<nat>) {
    && |places| == |views|
    && (forall k :: 0 <= k < |places| ==> FirstOfLane(life, places[k]) && Shows(views[k], life[places[k]]))
    && (forall k, l :: 0 <= k < l < |places| ==> places[k] < places[l])
    && (forall i :: 0 <= i < |life| && FirstOfLane(life, i) ==> i in places)
  }

  /** The duel is about the event its first report was on. */
  ghost predicate Labelled(d: Duel, r: Report) {
    && d.signature == r.found.triggerSignature && d.slot == r.found.slot
    && d.pair == r.found.pairLabel && d.pool == r.found.poolLabel
  }

  ghost predicate ShowsLife(life: seq<Report>, d: Duel) {
    && life != [] && Labelled(d, life[0])
    && exists places :: ShowsFirsts(life, d.views, places)
  }

  ghost predicate BookShows(ttl: Duration, es: seq<Event>, st: DuelState, key: string) {
    key in st.entries ==> ShowsLife(LifeOf(ttl, es, key), st.entries[key].duel)
  }

  lemma {:induction false} FirstBySome(life: seq<Report>, lane: string)
    ensures FirstBy(life, lane).Some? <==> exists j :: 0 <= j < |life| && life[j].lane == lane
    ensures FirstBy(life, lane).Some? ==> Report(lane, FirstBy(life, lane).value) in life
  {
    if life != [] {
      FirstBySome(Front(life), lane);
      assert life == Front(life) + [Last(life)];
    }
  }

  lemma FirstStays(life: seq<Report>, r: Report, i: nat)
    requires i < |life|
    ensures FirstOfLane(life + [r], i) <==> FirstOfLane(life, i)
  {
    var more := life + [r];
    assert forall j :: 0 <= j <= i ==> more[j] == life[j];
    if FirstOfLane(more, i) {
      forall j | 0 <= j < i
        ensures life[j].lane != life[i].lane
      {
        assert more[j].lane != more[i].lane;
      }
    }
  }

  lemma NewView(life: seq<Report>, views: seq<LaneView>, places: seq<nat>, r: Report)
    requires ShowsFirsts(life, views, places) && forall j :: 0 <= j < |life| ==> life[j].lane != r.lane
    ensures ShowsFirsts(life + [r], views + [ViewOf(r.lane, r.found)], places + [|life|])
  {
    var more, at := life + [r], places + [|life|];
    forall i | 0 <= i < |more| && FirstOfLane(more, i)
      ensures i in at
    {
      if i < |life| {
        FirstStays(life, r, i);
      } else {
        assert at[|places|] == i;
      }
    }
    forall k | 0 <= k < |places|
      ensures FirstOfLane(more, places[k])
    {
      FirstStays(life, r, places[k]);
    }
  }

  lemma RepeatedView(life: seq<Report>, views: seq<LaneView>, places: seq<nat>, r: Report)
    requires ShowsFirsts(life, views, places) && exists j :: 0 <= j < |life| && life[j].lane == r.lane
    ensures ShowsFirsts(life + [r], views, places)
  {
    var more := life + [r];
    var j :| 0 <= j < |life| && life[j].lane == r.lane;
    assert more[j].lane == more[|life|].lane;
    forall i | 0 <= i < |life| && FirstOfLane(more, i)
      ensures i in places
    {
      FirstStays(life, r, i);
    }
    forall k | 0 <= k < |places|
      ensures FirstOfLane(more, places[k])
    {
      FirstStays(life, r, places[k]);
    }
  }

  /** One more report in a life leaves the views one longer, or is a repeat. */
  lemma LifeGrows(life: seq<Report>, e: Entry, r: Report, e1: Entry)
    requires if life == [] then e == Opened(r.found) else ShowsLife(life, e.duel)
    requires r.lane in e.times <==> exists j :: 0 <= j < |life| && life[j].lane == r.lane
    requires SameLabels(e1.duel, e.duel)
    requires e1.duel.views == if r.lane in e.times then e.duel.views else e.duel.views + [ViewOf(r.lane, r.found)]
    ensures ShowsLife(life + [r], e1.duel)
  {
    var places: seq<nat> := [];
    if life != [] {
      places :| ShowsFirsts(life, e.duel.views, places);
    }
    if r.lane in e.times {
      RepeatedView(life, e.duel.views, places, r);
    } else {
      NewView(life, e.duel.views, places, r);
    }
  }

  lemma ReportShows(life: seq<Report>, st: DuelState, who: string, found: Found, out: DuelState)
    requires KeyOf(found) in st.entries ==> EntryRight(st.entries[KeyOf(found)])
    requires OpenedBy(life, st, KeyOf(found)) && HoldsFirst(life, st, KeyOf(found), who)
    requires Recorded(st, who, found, out)
    requires KeyOf(found) in st.entries ==> ShowsLife(life, st.entries[KeyOf(found)].duel)
    ensures KeyOf(found) in out.entries && ShowsLife(life + [Report(who, found)], out.entries[KeyOf(found)].duel)
  {
    var e1 := RecordedEntry(st, who, found, out);
    FirstBySome(life, who);
    LifeGrows(life, EntryFor(st, found), Report(who, found), e1);
  }

  lemma StepShows(ttl: Duration, life: seq<Report>, st: DuelState, e: Event, out: DuelState, key: string)
    requires Structure(st) && HoldsLife(life, st, key) && Step(ttl, st, e, out)
    requires key in st.entries ==> ShowsLife(life, st.entries[key].duel)
    ensures key in out.entries ==>
              match e
              case Reported(who, found) => ShowsLife(Extended(life, who, found, key), out.entries[key].duel)
              case Swept(now) => ShowsLife(Spared(ttl, life, now), out.entries[key].duel)
  {
    match e
    case Swept(now) =>
    case Reported(who, found) =>
      if KeyOf(found) == key {
        assert HoldsFirst(life, st, key, who);
        ReportShows(life, st, who, found, out);
      }
  }

  /** Over every run, sweeps included: a duel's labels are its first report's, and
      its views are the first report of each lane since, in the order they came,
      each with the gap, route and trade that its lane reported. */
  lemma {:induction false} DuelsShowFirstReports(ttl: Duration, es: seq<Event>, sts: seq<DuelState>, key: string)
    requires Run(ttl, es, sts)
    ensures BookShows(ttl, es, Last(sts), key)
  {
    if es != [] {
      var n := |es| - 1;
      assert Step(ttl, sts[n], es[n], sts[n + 1]);
      DuelsShowFirstReports(ttl, Front(es), Front(sts), key);
      FirstReportsAreHeld(ttl, Front(es), Front(sts), key);
      BookIsAlwaysRight(ttl, es, sts, n);
      StepShows(ttl, LifeOf(ttl, Front(es), key), sts[n], es[n], sts[n + 1], key);
    }
  }

  // ----- the verdict -----

  /** First this lane, next that one, then all others; and what the second saw
      less than the first. */
  ghost predicate Decides(life: seq<Report>, d: Duel, f: string, s: string) {
    var (one, two) := (FirstBy(life, f), FirstBy(life, s));
    && f != s && one.Some? && two.Some?
    && one.value.decidedAt <= two.value.decidedAt
    && (forall l :: l != f && FirstBy(life, l).Some? ==> two.value.decidedAt <= FirstBy(life, l).value.decidedAt)
    && d.first == Some(f)
    && d.headStart == Some(two.value.decidedAt - one.value.decidedAt)
    && d.gapLost == Some(one.value.gapBps - two.value.gapBps)
  }

  ghost predicate TwoLanes(life: seq<Report>) {
    exists f, s :: f != s && FirstBy(life, f).Some? && FirstBy(life, s).Some?
  }

  /** The verdict off the reports alone: none until two lanes have reported; then
      the lane whose first report was delivered first, by how long, and how many
      basis points of the gap the next one no longer saw. */
  lemma VerdictIsOfTheLife(ttl: Duration, es: seq<Event>, sts: seq<DuelState>, key: string)
    requires Run(ttl, es, sts) && key in Last(sts).entries
    requires forall r :: r in LifeOf(ttl, es, key) ==> r.found.gapBps <= U64_MAX / 2
    ensures var (life, d) := (LifeOf(ttl, es, key), Last(sts).entries[key].duel);
            if TwoLanes(life) then exists f, s :: Decides(life, d, f, s) else NoVerdict(d)
  {
    FirstReportsAreHeld(ttl, es, sts, key);
    BookIsAlwaysRight(ttl, es, sts, |es|);
    HeldDecides(LifeOf(ttl, es, key), Last(sts), key);
  }

  lemma HeldDecides(life: seq<Report>, st: DuelState, key: string)
    requires HoldsLife(life, st, key) && key in st.entries && EntryRight(st.entries[key])
    requires forall r :: r in life ==> r.found.gapBps <= U64_MAX / 2
    ensures var d := st.entries[key].duel;
            if TwoLanes(life) then exists f, s :: Decides(life, d, f, s) else NoVerdict(d)
  {
    var e := st.entries[key];
    HeldAreFirsts(life, st, key);
    TwoTimed(life, e.times);
    if |e.times| >= 2 {
      var f, s :| VerdictOn(e, f, s);
      GapsAreFirsts(life, st, key, f);
      GapsAreFirsts(life, st, key, s);
      assert Decides(life, e.duel, f, s);
    }
  }

  /** The times of a life's entry are its lanes' first reports'. */
  ghost predicate TimesAre(life: seq<Report>, times: map<string, Instant>) {
    forall l :: (l in times <==> FirstBy(life, l).Some?) &&
                (l in times && FirstBy(life, l).Some? ==> times[l] == FirstBy(life, l).value.decidedAt)
  }

  lemma HeldAreFirsts(life: seq<Report>, st: DuelState, key: string)
    requires HoldsLife(life, st, key) && key in st.entries
    ensures TimesAre(life, st.entries[key].times)
  {
    forall l
      ensures l in st.entries[key].times <==> FirstBy(life, l).Some?
      ensures l in st.entries[key].times && FirstBy(life, l).Some? ==>
                st.entries[key].times[l] == FirstBy(life, l).value.decidedAt
    {
      assert HoldsFirst(life, st, key, l);
    }
  }

  lemma GapsAreFirsts(life: seq<Report>, st: DuelState, key: string, lane: string)
    requires HoldsLife(life, st, key) && key in st.entries && FirstBy(life, lane).Some?
    requires forall r :: r in life ==> r.found.gapBps <= U64_MAX / 2
    ensures GapOf(st.entries[key].duel.views, lane) == Some(FirstBy(life, lane).value.gapBps)
  {
    assert HoldsFirst(life, st, key, lane);
    FirstBySome(life, lane);
    assert Report(lane, FirstBy(life, lane).value).found.gapBps <= U64_MAX / 2;
  }

  lemma TwoTimed(life: seq<Report>, times: map<string, Instant>)
    requires TimesAre(life, times)
    ensures |times| >= 2 <==> TwoLanes(life)
  {
    if |times| >= 2 {
      var f :| f in times;
      assert times.Keys != {f};
      var s :| s in times && s != f;
    }
    if f, s :| f != s && f in times && s in times {
      assert |{f, s}| == 2 && {f, s} <= times.Keys;
      SubsetCounts({f, s}, times.Keys);
    }
  }

  lemma {:induction false} SubsetCounts<T>(a: set<T>, b: set<T>)
    requires a <= b
    ensures |a| <= |b|
  {
    assert b == a + (b - a);
  }

  // ----- the order -----

  /** Event `n` opened the life of the key that lasts. */
  ghost predicate Opens(ttl: Duration, es: seq<Event>, key: string, n: nat) {
    && n < |es| && es[n].Reported? && KeyOf(es[n].found) == key
    && LifeOf(ttl, es[..n], key) == []
    && forall m :: n < m <= |es| ==> LifeOf(ttl, es[..m], key) != []
  }

  /** The keys in the order their lasting lives were opened in. */
  ghost predicate ByOpening(ttl: Duration, es: seq<Event>, order: seq<string>, openings: seq<nat>) {
    && |openings| == |order|
    && (forall i :: 0 <= i < |order| ==> Opens(ttl, es, order[i], openings[i]))
    && (forall i, j :: 0 <= i < j < |openings| ==> openings[i] < openings[j])
  }

  lemma OpensStill(ttl: Duration, es: seq<Event>, key: string, n: nat)
    requires es != [] && Opens(ttl, Front(es), key, n) && LifeOf(ttl, es, key) != []
    ensures Opens(ttl, es, key, n)
  {
    assert es[..|es|] == es && es[..n] == Front(es)[..n];
    forall m | n < m <= |es|
      ensures LifeOf(ttl, es[..m], key) != []
    {
      if m < |es| {
        assert es[..m] == Front(es)[..m];
      }
    }
  }

  lemma OpensNow(ttl: Duration, es: seq<Event>)
    requires es != [] && Last(es).Reported? && LifeOf(ttl, Front(es), KeyOf(Last(es).found)) == []
    ensures Opens(ttl, es, KeyOf(Last(es).found), |es| - 1)
  {
    assert es[..|es|] == es && es[..|es| - 1] == Front(es);
  }

  lemma ReportsEndNothing(ttl: Duration, es: seq<Event>, key: string)
    requires es != [] && Last(es).Reported? && LifeOf(ttl, Front(es), key) != []
    ensures LifeOf(ttl, es, key) != []
  {
  }

  lemma ReportOrders(ttl: Duration, es: seq<Event>, order: seq<string>, openings: seq<nat>, held: set<string>)
    returns (more: seq<nat>)
    requires es != [] && Last(es).Reported? && ByOpening(ttl, Front(es), order, openings)
    requires forall k :: k in order <==> k in held
    requires forall k :: k in held <==> LifeOf(ttl, Front(es), k) != []
    ensures var key := KeyOf(Last(es).found);
            ByOpening(ttl, es, if key in held then order else order + [key], more)
  {
    var key := KeyOf(Last(es).found);
    forall i | 0 <= i < |order|
      ensures Opens(ttl, es, order[i], openings[i])
    {
      assert order[i] in order;
      ReportsEndNothing(ttl, es, order[i]);
      OpensStill(ttl, es, order[i], openings[i]);
    }
    more := openings;
    if key !in held {
      OpensNow(ttl, es);
      more := openings + [|es| - 1];
    }
  }

  lemma SweepOrders(ttl: Duration, es: seq<Event>, order: seq<string>, openings: seq<nat>, keep: string -> bool)
    returns (fewer: seq<nat>)
    requires es != [] && ByOpening(ttl, Front(es), order, openings)
    requires forall k :: k in order && keep(k) ==> LifeOf(ttl, es, k) != []
    ensures ByOpening(ttl, es, Filter(order, keep), fewer)
  {
    var idx := FilterIndex(order, keep);
    fewer := seq(|idx|, i requires 0 <= i < |idx| => openings[idx[i]]);
    forall i | 0 <= i < |idx|
      ensures Opens(ttl, es, Filter(order, keep)[i], fewer[i])
    {
      assert order[idx[i]] in order;
      OpensStill(ttl, es, order[idx[i]], openings[idx[i]]);
    }
  }

  lemma HeldAreAlive(ttl: Duration, es: seq<Event>, sts: seq<DuelState>)
    requires Run(ttl, es, sts)
    ensures forall k :: k in Last(sts).entries <==> LifeOf(ttl, es, k) != []
  {
    forall k
      ensures k in Last(sts).entries <==> LifeOf(ttl, es, k) != []
    {
      FirstReportsAreHeld(ttl, es, sts, k);
    }
  }

  /** Over every run, sweeps included, the book lists its keys in the order the
      reports opened their lasting lives in; so the tape is the newest first. */
  lemma {:induction false} OrderIsByOpening(ttl: Duration, es: seq<Event>, sts: seq<DuelState>)
    returns (openings: seq<nat>)
    requires Run(ttl, es, sts)
    ensures ByOpening(ttl, es, Last(sts).order, openings)
  {
    if es == [] {
      openings := [];
    } else {
      var n := |es| - 1;
      assert Step(ttl, sts[n], es[n], sts[n + 1]);
      var before := OrderIsByOpening(ttl, Front(es), Front(sts));
      HeldAreAlive(ttl, Front(es), Front(sts));
      HeldAreAlive(ttl, es, sts);
      BookIsAlwaysRight(ttl, es, sts, n);
      match es[n]
      case Reported(who, found) =>
        openings := ReportOrders(ttl, es, sts[n].order, before, sts[n].entries.Keys);
      case Swept(now) =>
        var kept := Kept(sts[n], now, ttl).entries;
        openings := SweepOrders(ttl, es, sts[n].order, before, (k: string) => k in kept);
    }
  }
}
