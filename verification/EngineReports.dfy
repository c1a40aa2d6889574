/** What the lanes tell the duel book, over every run of the whole system: each
    event at most once per lane, and exactly the looks that compared something. */
module EngineReports {
  import opened Prelude
  import opened Pools
  import opened Lanes
  import opened LaneRuns
  import opened Duels
  import opened Engine
  import EngineRuns
  import DuelRuns

  predicate From(lane: string, r: Report) { r.lane == lane }

  /** A lane's reports are its looks that compared something, no event twice. */
  ghost predicate TellsTruly(lane: string, bot: LaneState, told: seq<Report>) {
    && |Filter(told, (r: Report) => From(lane, r))| == bot.stats.actionable + bot.stats.belowCost
    && (forall r :: r in told && From(lane, r) ==> (r.found.triggerSignature, r.found.pool) in bot.acted)
    && TellsOnce(lane, told)
  }

  ghost predicate TellsOnce(lane: string, told: seq<Report>) {
    forall i, j :: 0 <= i < j < |told| && From(lane, told[i]) && From(lane, told[j]) ==>
      KeyOf(told[i].found) != KeyOf(told[j].found)
  }

  /** A look that answers is counted as actionable or below cost, and answers on
      the event it was asked about, which it had not acted on before. */
  lemma AnswerIsCounted(su: Setup, st: LaneState, book: Book, ev: TriggerEvent, now: Instant)
    ensures var (t, r) := (Triggered(su, st, book, ev, now), Answer(su, st, book, ev, now));
            && st.acted <= t.acted
            && t.stats.actionable + t.stats.belowCost
               == st.stats.actionable + st.stats.belowCost + (if r.Some? then 1 else 0)
            && (r.Some? ==>
                  && r.value.triggerSignature == ev.signature && r.value.pool == ev.pool
                  && (ev.signature, ev.pool) !in st.acted && (ev.signature, ev.pool) in t.acted)
  {
    var found := Find(su.pools, ev.pool);
    if (ev.signature, ev.pool) !in st.acted && found.Some? {
      CountOverFrame(su, book, found.value, Peers(su, book, found.value, now), now,
                     st.stats.(seen := st.stats.seen + 1));
    }
  }

  lemma OneMoreTold(lane: string, bot: LaneState, told: seq<Report>, found: Found, after: LaneState)
    requires TellsTruly(lane, bot, told) && bot.acted <= after.acted
    requires (found.triggerSignature, found.pool) !in bot.acted && (found.triggerSignature, found.pool) in after.acted
    requires after.stats.actionable + after.stats.belowCost == bot.stats.actionable + bot.stats.belowCost + 1
    ensures TellsTruly(lane, after, told + [Report(lane, found)])
  {
    var more := told + [Report(lane, found)];
    assert Front(more) == told && Last(more) == Report(lane, found);
    forall i | 0 <= i < |told| && From(lane, told[i])
      ensures KeyOf(told[i].found) != KeyOf(found)
    {
      assert told[i] in told;
      if KeyOf(told[i].found) == KeyOf(found) {
        DuelRuns.KeyIsInjective(told[i].found, found);
      }
    }
  }

  lemma {:induction false} LooksTellTruly(c: Session, lane: string, d: Desk, book: Book, tx: Races.SeenTx,
                                          pools: seq<Pubkey>, clock: nat -> Moment, told: seq<Report>)
    requires TellsTruly(lane, d.bot, told) && d.reports == []
    ensures var out := LookedAt(c, lane, d, book, tx, pools, clock);
            TellsTruly(lane, out.bot, told + Told(lane, out.reports))
  {
    if pools == [] {
      assert told + Told(lane, []) == told;
    } else {
      LooksTellTruly(c, lane, d, book, tx, Front(pools), clock, told);
      var mid := LookedAt(c, lane, d, book, tx, Front(pools), clock);
      var ev, m := EventOn(tx, Last(pools)), clock(|pools| - 1);
      LookTellsTruly(c, lane, mid, book, ev, m, told);
    }
  }

  lemma LookTellsTruly(c: Session, lane: string, d: Desk, book: Book, ev: TriggerEvent, m: Moment, told: seq<Report>)
    requires TellsTruly(lane, d.bot, told + Told(lane, d.reports))
    ensures var out := Looked(c, lane, d, book, ev, m);
            TellsTruly(lane, out.bot, told + Told(lane, out.reports))
  {
    var out, r := Looked(c, lane, d, book, ev, m), Answer(c.su, d.bot, book, ev, m.now);
    AnswerIsCounted(c.su, d.bot, book, ev, m.now);
    if r.Some? {
      OneMoreTold(lane, d.bot, told + Told(lane, d.reports), r.value, out.bot);
      assert told + Told(lane, out.reports) == told + Told(lane, d.reports) + [Report(lane, r.value)];
    }
  }

  /** Another lane's reports change nothing of what this lane told. */
  lemma OthersTellTheirOwn(lane: string, bot: LaneState, told: seq<Report>, more: seq<Report>)
    requires TellsTruly(lane, bot, told) && forall r :: r in more ==> !From(lane, r)
    ensures TellsTruly(lane, bot, told + more)
  {
    FilterAppend(told, more, (r: Report) => From(lane, r));
    FilterNone(more, (r: Report) => From(lane, r));
    assert forall r :: r in told + more && From(lane, r) ==> r in told;
    forall j | |told| <= j < |told + more|
      ensures !From(lane, (told + more)[j])
    {
      assert (told + more)[j] in more;
    }
  }

  ghost predicate AllTellTruly(s: System) {
    && (forall l :: l in s.bots ==> TellsTruly(l, s.bots[l], s.reports))
    && forall r :: r in s.reports ==> r.lane in s.bots
  }

  lemma ServedTellsTruly(s: System, lane: string, d: Desk)
    requires AllTellTruly(s) && lane in s.bots
    requires TellsTruly(lane, d.bot, s.reports + Told(lane, d.reports))
    ensures AllTellTruly(Served(s, lane, d))
  {
    forall l | l in s.bots && l != lane
      ensures TellsTruly(l, s.bots[l], s.reports + Told(lane, d.reports))
    {
      OthersTellTheirOwn(l, s.bots[l], s.reports, Told(lane, d.reports));
    }
  }

  /** Over every run, each lane's reports to the duel book number exactly its
      looks that compared something, and none names an event a second time. */
  lemma {:induction false} LanesTellTruly(c: Session, lanes: set<string>, arrivals: seq<Arrival>)
    ensures AllTellTruly(EngineRuns.AfterArrivals(c, lanes, arrivals))
  {
    if |arrivals| > 0 {
      LanesTellTruly(c, lanes, Front(arrivals));
      var s, a := EngineRuns.AfterArrivals(c, lanes, Front(arrivals)), Last(arrivals);
      var touched := Touched(c.su.pools, a.tx.accountKeys);
      if touched != [] && a.lane in s.bots {
        LooksTellTruly(c, a.lane, DeskOf(s, a.lane), a.book, a.tx, touched, a.clock, s.reports);
        ServedTellsTruly(s.(triggers := Bump(s.triggers, a.lane)), a.lane,
                         LookedAt(c, a.lane, DeskOf(s, a.lane), a.book, a.tx, touched, a.clock));
      }
    }
  }

  // ----- and each report is what its look decided -----

  /** A look at this pool, touched by this transaction, decided what is reported. */
  ghost predicate Decided(c: Session, a: Arrival, r: Report, key: Pubkey, k: nat) {
    && key in a.tx.accountKeys && r.lane == a.lane
    && Decide(c.su, a.book, TriggerEvent(key, a.tx.signature, a.tx.slot, a.tx.at), a.clock(k).now) == Some(r.found)
  }

  ghost predicate DecidedBy(c: Session, a: Arrival, r: Report) {
    exists key: Pubkey, k: nat :: Decided(c, a, r, key, k)
  }

  lemma {:induction false} LooksReport(c: Session, d: Desk, a: Arrival, keys: seq<Pubkey>)
    requires d.reports == [] && forall key :: key in keys ==> key in a.tx.accountKeys
    ensures forall f :: f in LookedAt(c, a.lane, d, a.book, a.tx, keys, a.clock).reports ==>
              DecidedBy(c, a, Report(a.lane, f))
  {
    if keys != [] {
      assert keys == Front(keys) + [Last(keys)] && Last(keys) in keys;
      LooksReport(c, d, a, Front(keys));
      var mid := LookedAt(c, a.lane, d, a.book, a.tx, Front(keys), a.clock);
      LookReports(c, mid, a, Last(keys), |keys| - 1);
    }
  }

  lemma LookReports(c: Session, d: Desk, a: Arrival, key: Pubkey, k: nat)
    requires key in a.tx.accountKeys
    requires forall f :: f in d.reports ==> DecidedBy(c, a, Report(a.lane, f))
    ensures forall f :: f in Looked(c, a.lane, d, a.book, EventOn(a.tx, key), a.clock(k)).reports ==>
              DecidedBy(c, a, Report(a.lane, f))
  {
    var r := Answer(c.su, d.bot, a.book, EventOn(a.tx, key), a.clock(k).now);
    if r.Some? {
      assert Decided(c, a, Report(a.lane, r.value), key, k);
    }
  }

  /** Over every run, each report is by the lane its transaction came on, and is
      word for word what a look at a pool of that transaction decides on the book
      it met, its slot and delivery time with it. */
  lemma {:induction false} ReportsAreDecisions(c: Session, lanes: set<string>, arrivals: seq<Arrival>)
    ensures forall r :: r in EngineRuns.AfterArrivals(c, lanes, arrivals).reports ==>
              exists n: nat :: n < |arrivals| && DecidedBy(c, arrivals[n], r)
  {
    if |arrivals| > 0 {
      var f, n := Front(arrivals), |arrivals| - 1;
      var s, a := EngineRuns.AfterArrivals(c, lanes, f), arrivals[n];
      ReportsAreDecisions(c, lanes, f);
      OfferReports(c, s, a);
      forall r | r in Offered(c, s, a).reports
        ensures exists n: nat :: n < |arrivals| && DecidedBy(c, arrivals[n], r)
      {
        if r in s.reports {
          var m: nat :| m < |f| && DecidedBy(c, f[m], r);
          assert arrivals[m] == f[m];
        } else {
          assert DecidedBy(c, arrivals[n], r);
        }
      }
    }
  }

  lemma OfferReports(c: Session, s: System, a: Arrival)
    ensures forall r :: r in Offered(c, s, a).reports ==> r in s.reports || DecidedBy(c, a, r)
  {
    var touched := Touched(c.su.pools, a.tx.accountKeys);
    FilterMembers(a.tx.accountKeys, (k: Pubkey) => Find(c.su.pools, k).Some?);
    if touched != [] && a.lane in s.bots {
      LooksReport(c, DeskOf(s, a.lane), a, touched);
      ToldAre(a.lane, LookedAt(c, a.lane, DeskOf(s, a.lane), a.book, a.tx, touched, a.clock).reports);
    }
  }

  lemma ToldAre(lane: string, reports: seq<Found>)
    ensures forall r :: r in Told(lane, reports) ==> r.lane == lane && r.found in reports
  {
  }

  // ----- so the duel book's repeat rule never fires -----

  /** The reports a book took in, sweeps left out. */
  function ReportsIn(es: seq<DuelRuns.Event>): seq<Report> {
    if es == [] then [] else
      ReportsIn(Front(es)) + if Last(es).Reported? then [Report(Last(es).lane, Last(es).found)] else []
  }

  /** A lane is timed on a key only by a report it made. */
  ghost predicate TimedByReports(st: DuelState, told: seq<Report>) {
    forall k, l :: DuelRuns.HeldTime(st, k, l).Some? ==> exists r :: r in told && r.lane == l && KeyOf(r.found) == k
  }

  lemma ReportsInOneMore(es: seq<DuelRuns.Event>, n: nat)
    requires n < |es|
    ensures ReportsIn(es[..n + 1])
         == ReportsIn(es[..n]) + if es[n].Reported? then [Report(es[n].lane, es[n].found)] else []
  {
    assert Front(es[..n + 1]) == es[..n] && Last(es[..n + 1]) == es[n];
  }

  lemma NextTimes(ttl: Duration, es: seq<DuelRuns.Event>, sts: seq<DuelState>, n: nat)
    requires DuelRuns.Run(ttl, es, sts) && n < |es| && TimedByReports(sts[n], ReportsIn(es[..n]))
    ensures TimedByReports(sts[n + 1], ReportsIn(es[..n + 1]))
  {
    DuelRuns.BookIsAlwaysRight(ttl, es, sts, n);
    assert DuelRuns.Step(ttl, sts[n], es[n], sts[n + 1]);
    ReportsInOneMore(es, n);
    StepTimes(ttl, sts[n], es[n], sts[n + 1], ReportsIn(es[..n]));
  }

  lemma {:induction false} TimesAreReported(ttl: Duration, es: seq<DuelRuns.Event>, sts: seq<DuelState>, n: nat)
    requires DuelRuns.Run(ttl, es, sts) && n <= |es|
    ensures TimedByReports(sts[n], ReportsIn(es[..n]))
  {
    if n > 0 {
      TimesAreReported(ttl, es, sts, n - 1);
      NextTimes(ttl, es, sts, n - 1);
    }
  }

  lemma StepTimes(ttl: Duration, st: DuelState, e: DuelRuns.Event, out: DuelState, told: seq<Report>)
    requires DuelRuns.Structure(st) && DuelRuns.Step(ttl, st, e, out) && TimedByReports(st, told)
    ensures TimedByReports(out, told + if e.Reported? then [Report(e.lane, e.found)] else [])
  {
    match e
    case Reported(lane, found) => ReportTimes(st, lane, found, out, told);
    case Swept(now) =>
      assert told + [] == told;
      SweepTimes(st, now, ttl, told);
  }

  lemma SweepTimes(st: DuelState, now: Instant, ttl: Duration, told: seq<Report>)
    requires TimedByReports(st, told)
    ensures TimedByReports(Kept(st, now, ttl), told)
  {
    forall k, l | DuelRuns.HeldTime(Kept(st, now, ttl), k, l).Some?
      ensures DuelRuns.HeldTime(st, k, l).Some?
    {
    }
  }

  lemma ReportTimes(st: DuelState, lane: string, found: Found, out: DuelState, told: seq<Report>)
    requires DuelRuns.Structure(st) && Recorded(st, lane, found, out) && TimedByReports(st, told)
    ensures TimedByReports(out, told + [Report(lane, found)])
  {
    var more := told + [Report(lane, found)];
    forall k, l | DuelRuns.HeldTime(out, k, l).Some?
      ensures exists r :: r in more && r.lane == l && KeyOf(r.found) == k
    {
      DuelRuns.HeldStep(st, lane, found, out, k, l);
      if DuelRuns.HeldTime(st, k, l).Some? {
        var r :| r in told && r.lane == l && KeyOf(r.found) == k;
        assert r in more;
      } else {
        assert Report(lane, found) in more;
      }
    }
  }

  lemma {:induction false} ReportsInPrefix(es: seq<DuelRuns.Event>, n: nat)
    requires n < |es| && es[n].Reported?
    ensures ReportsIn(es[..n]) + [Report(es[n].lane, es[n].found)] <= ReportsIn(es)
  {
    if n == |es| - 1 {
      assert Front(es) == es[..n];
    } else {
      ReportsInPrefix(Front(es), n);
      assert Front(es)[..n] == es[..n];
    }
  }

  /** What is told once is not in the book yet when it is told. */
  lemma NewToTheBook(lane: string, found: Found, before: seq<Report>, all: seq<Report>, st: DuelState)
    requires TellsOnce(lane, all) && before + [Report(lane, found)] <= all && TimedByReports(st, before)
    ensures DuelRuns.HeldTime(st, KeyOf(found), lane).None?
  {
    var upto := before + [Report(lane, found)];
    assert upto[|before|] == all[|before|];
    forall i | 0 <= i < |before| && before[i].lane == lane
      ensures KeyOf(before[i].found) != KeyOf(found)
    {
      assert upto[i] == all[i];
    }
  }

  lemma ToldOnce(c: Session, lanes: set<string>, arrivals: seq<Arrival>, lane: string)
    ensures TellsOnce(lane, EngineRuns.AfterArrivals(c, lanes, arrivals).reports)
  {
    var s := EngineRuns.AfterArrivals(c, lanes, arrivals);
    LanesTellTruly(c, lanes, arrivals);
    if lane !in s.bots {
      assert forall i :: 0 <= i < |s.reports| ==> s.reports[i] in s.reports;
    }
  }

  /** Composed with the lanes, the duel book never sees a repeat: whatever sweeps
      come in between, every report of a run adds a lane to its event. */
  lemma EveryReportCounts(c: Session, lanes: set<string>, arrivals: seq<Arrival>,
                          ttl: Duration, es: seq<DuelRuns.Event>, sts: seq<DuelState>, n: nat)
    requires DuelRuns.Run(ttl, es, sts) && ReportsIn(es) == EngineRuns.AfterArrivals(c, lanes, arrivals).reports
    requires n < |es| && es[n].Reported?
    ensures DuelRuns.HeldTime(sts[n], KeyOf(es[n].found), es[n].lane).None?
    ensures DuelRuns.HeldTime(sts[n + 1], KeyOf(es[n].found), es[n].lane) == Some(es[n].found.decidedAt)
  {
    var (lane, found) := (es[n].lane, es[n].found);
    ToldOnce(c, lanes, arrivals, lane);
    ReportsInPrefix(es, n);
    TimesAreReported(ttl, es, sts, n);
    NewToTheBook(lane, found, ReportsIn(es[..n]), ReportsIn(es), sts[n]);
    DuelRuns.BookIsAlwaysRight(ttl, es, sts, n);
    assert DuelRuns.Step(ttl, sts[n], es[n], sts[n + 1]);
    DuelRuns.HeldStep(sts[n], lane, found, sts[n + 1], KeyOf(found), lane);
  }
}
