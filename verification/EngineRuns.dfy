/** Conservation across bots, executors and the ledger, over every run of
    transactions on every lane. */
module EngineRuns {
  import opened Prelude
  import opened Arb
  import opened Pools
  import opened Lanes
  import opened LaneRuns
  import opened Execute
  import opened Ledgers
  import opened Engine

  /** One bot and one executor per lane, as the program starts them. */
  function Fresh(lanes: set<string>): System {
    System(map l | l in lanes :: FRESH_LANE, map l | l in lanes :: NO_EXECUTION, map[], [], [])
  }

  function AfterArrivals(c: Session, lanes: set<string>, arrivals: seq<Arrival>): System {
    if |arrivals| == 0 then Fresh(lanes) else Offered(c, AfterArrivals(c, lanes, Front(arrivals)), Last(arrivals))
  }

  // ----- one lane's share of the ledger -----

  function Of(lane: string, p: Trade -> bool): Trade -> bool { (t: Trade) => t.lane == lane && p(t) }

  function Any(): Trade -> bool { (t: Trade) => true }

  /** A broker that never answers with a refusal of its own. */
  predicate Plain(m: Moment) { m.answer.Some? ==> !(m.answer.value.Skipped? && m.answer.value.reason.Limit?) }

  function Failures(e: ExecutionStats): nat { e.refused + e.simulatedFailed + e.buildFailed }

  /** The lane's bot, executor and ledger rows tell one story. `plain` says that
      no broker so far refused on its own account. */
  ghost predicate DeskBalances(c: Session, lane: string, d: Desk, plain: bool) {
    && LaneInvariant(c.su, d.bot)
    && d.exec.Some?
    && d.bot.stats.actionable == d.exec.value.offered
    && SpendingHolds(c.limits, d.exec.value)
    && RowsMatch(lane, d.exec.value, d.history, plain)
  }

  /** An attempt moves the counters exactly as its booking says. */
  lemma AttemptIsBooked(c: Session, s: ExecutionStats, w: World)
    ensures var (t, outcome) := Attempted(c.limits, c.mode, s, w);
            && t.offered == s.offered + 1
            && t.sent == s.sent + (if BookingOf(outcome) == Realised then 1 else 0)
            && t.simulatedOk == s.simulatedOk + (if BookingOf(outcome) == SimulatedOk then 1 else 0)
            && Failures(t) <= Failures(s) + (if BookingOf(outcome) == Nothing then 1 else 0)
            && (Plain(Moment(0, w.killed, w.answer)) ==>
                  Failures(t) == Failures(s) + (if BookingOf(outcome) == Nothing then 1 else 0))
  {
  }

  lemma BookedKeeps(c: Session, lane: string, h: seq<Trade>, t: Trade)
    requires t.lane == lane
    ensures Number(h + [t], Of(lane, Any())) == Number(h, Of(lane, Any())) + 1
    ensures Number(h + [t], Of(lane, Is(Realised))) == Number(h, Of(lane, Is(Realised)))
             + if t.booking == Realised then 1 else 0
    ensures Number(h + [t], Of(lane, Is(SimulatedOk))) == Number(h, Of(lane, Is(SimulatedOk)))
             + if t.booking == SimulatedOk then 1 else 0
    ensures Number(h + [t], Of(lane, Is(Nothing))) == Number(h, Of(lane, Is(Nothing)))
             + if t.booking == Nothing then 1 else 0
  {
  }

  /** The executor's counters against the lane's rows. */
  ghost predicate RowsMatch(lane: string, e: ExecutionStats, h: seq<Trade>, plain: bool) {
    && e.offered == Number(h, Of(lane, Any()))
    && e.sent == Number(h, Of(lane, Is(Realised)))
    && e.simulatedOk == Number(h, Of(lane, Is(SimulatedOk)))
    && Failures(e) <= Number(h, Of(lane, Is(Nothing)))
    && (plain ==> Failures(e) == Number(h, Of(lane, Is(Nothing))))
  }

  /** What the lane's executor spent is what it sent, within the cap. */
  ghost predicate SpendingHolds(limits: BotLimits, e: ExecutionStats) {
    && AccountsHold(limits, e)
    && (limits.sessionCap < U64_MAX || limits.perAttempt == 0 ==> e.spent <= limits.sessionCap)
  }

  lemma SpendingStep(limits: BotLimits, mode: Mode, e: ExecutionStats, w: World)
    requires SpendingHolds(limits, e)
    ensures SpendingHolds(limits, Attempted(limits, mode, e, w).0)
  {
    AccountsStep(limits, mode, e, w);
  }

  lemma AttemptKeeps(c: Session, lane: string, e: ExecutionStats, h: seq<Trade>, found: Found, o: Opportunity,
                     m: Moment, plain: bool)
    requires RowsMatch(lane, e, h, plain) && (plain ==> Plain(m))
    ensures var (after, outcome) := Attempted(c.limits, c.mode, e, World(m.killed, c.wallet, m.answer));
            && after.offered == e.offered + 1
            && RowsMatch(lane, after, h + [TradeOf(c, lane, found, o, outcome, m)], plain)
  {
    var w := World(m.killed, c.wallet, m.answer);
    AttemptIsBooked(c, e, w);
    BookedKeeps(c, lane, h, TradeOf(c, lane, found, o, Attempted(c.limits, c.mode, e, w).1, m));
  }

  /** A look only ever adds rows of its own lane. */
  ghost predicate GrewBy(lane: string, h: seq<Trade>, more: seq<Trade>) {
    h <= more && forall i :: |h| <= i < |more| ==> more[i].lane == lane
  }

  lemma GrewTwice(lane: string, h: seq<Trade>, more: seq<Trade>, most: seq<Trade>)
    requires GrewBy(lane, h, more) && GrewBy(lane, more, most)
    ensures GrewBy(lane, h, most)
  {
  }

  /** Acting on an answer keeps the books the bot's counter starts with. */
  lemma ConclusionKeeps(c: Session, lane: string, d: Desk, bot: LaneState, answer: Option<Found>, m: Moment,
                        plain: bool)
    requires DeskBalances(c, lane, d, plain) && (plain ==> Plain(m)) && LaneInvariant(c.su, bot)
    requires bot.stats.actionable == d.bot.stats.actionable +
               if answer.Some? && answer.value.opportunity.Some? then 1 else 0
    ensures DeskBalances(c, lane, Concludes(c, lane, d, bot, answer, m), plain)
    ensures GrewBy(lane, d.history, Concludes(c, lane, d, bot, answer, m).history)
  {
    if answer.Some? && answer.value.opportunity.Some? {
      SpendingStep(c.limits, c.mode, d.exec.value, World(m.killed, c.wallet, m.answer));
      AttemptKeeps(c, lane, d.exec.value, d.history, answer.value, answer.value.opportunity.value, m, plain);
    }
  }

  /** One look keeps the books, and is either a first look or a repeat. */
  lemma LookKeeps(c: Session, lane: string, d: Desk, book: Book, ev: TriggerEvent, m: Moment, plain: bool)
    requires DeskBalances(c, lane, d, plain) && (plain ==> Plain(m))
    ensures DeskBalances(c, lane, Looked(c, lane, d, book, ev, m), plain)
    ensures GrewBy(lane, d.history, Looked(c, lane, d, book, ev, m).history)
    ensures var s := Looked(c, lane, d, book, ev, m).bot.stats;
            s.seen + s.duplicates == d.bot.stats.seen + d.bot.stats.duplicates + 1
  {
    InvariantStep(c.su, d.bot, book, ev, m.now);
    SeenOrRepeat(c.su, d.bot, book, ev, m.now);
    ConclusionKeeps(c, lane, d, Triggered(c.su, d.bot, book, ev, m.now), Answer(c.su, d.bot, book, ev, m.now),
                    m, plain);
  }

  lemma {:induction false} LooksKeep(c: Session, lane: string, d: Desk, book: Book, tx: Races.SeenTx,
                                     pools: seq<Pubkey>, clock: nat -> Moment, plain: bool)
    requires DeskBalances(c, lane, d, plain) && (plain ==> forall i :: Plain(clock(i)))
    ensures var out := LookedAt(c, lane, d, book, tx, pools, clock);
            && DeskBalances(c, lane, out, plain)
            && GrewBy(lane, d.history, out.history)
            && out.bot.stats.seen + out.bot.stats.duplicates
               == d.bot.stats.seen + d.bot.stats.duplicates + |pools|
  {
    if pools != [] {
      LooksKeep(c, lane, d, book, tx, Front(pools), clock, plain);
      var mid, ev, m := LookedAt(c, lane, d, book, tx, Front(pools), clock), EventOn(tx, Last(pools)),
        clock(|pools| - 1);
      LookKeeps(c, lane, mid, book, ev, m, plain);
      GrewTwice(lane, d.history, mid.history, Looked(c, lane, mid, book, ev, m).history);
    }
  }

  // ----- the whole system -----

  ghost predicate LaneBalances(c: Session, s: System, lane: string, plain: bool)
    requires lane in s.bots
  {
    && DeskBalances(c, lane, DeskOf(s, lane), plain)
    && Count(s.triggers, lane) <= s.bots[lane].stats.seen + s.bots[lane].stats.duplicates
  }

  ghost predicate SystemBalances(c: Session, s: System, plain: bool) {
    && s.bots.Keys == s.execs.Keys
    && (forall t :: t in s.history ==> t.lane in s.bots)
    && forall l :: l in s.bots ==> LaneBalances(c, s, l, plain)
  }

  lemma {:induction false} OtherRowsStay(lane: string, other: string, h: seq<Trade>, more: seq<Trade>, p: Trade -> bool)
    requires lane != other && GrewBy(lane, h, more)
    ensures Number(more, Of(other, p)) == Number(h, Of(other, p))
    decreases |more|
  {
    if |more| > |h| {
      assert more == Front(more) + [Last(more)];
      OtherRowsStay(lane, other, h, Front(more), p);
    } else {
      assert more == h;
    }
  }

  lemma OtherLaneKeeps(c: Session, s: System, out: System, lane: string, other: string, plain: bool)
    requires other in s.bots && LaneBalances(c, s, other, plain) && lane != other
    requires other in out.bots && out.bots[other] == s.bots[other]
    requires other in s.execs && other in out.execs && out.execs[other] == s.execs[other]
    requires Count(out.triggers, other) == Count(s.triggers, other)
    requires GrewBy(lane, s.history, out.history)
    ensures LaneBalances(c, out, other, plain)
  {
    OtherRowsStay(lane, other, s.history, out.history, Any());
    OtherRowsStay(lane, other, s.history, out.history, Is(Realised));
    OtherRowsStay(lane, other, s.history, out.history, Is(SimulatedOk));
    OtherRowsStay(lane, other, s.history, out.history, Is(Nothing));
  }

  /** A trigger on a lane without a bot is only counted. */
  lemma CountedKeeps(c: Session, s: System, lane: string, plain: bool)
    requires SystemBalances(c, s, plain) && lane !in s.bots
    ensures SystemBalances(c, s.(triggers := Bump(s.triggers, lane)), plain)
  {
    forall l | l in s.bots
      ensures LaneBalances(c, s.(triggers := Bump(s.triggers, lane)), l, plain)
    {
      assert LaneBalances(c, s, l, plain);
    }
  }

  lemma ArrivalKeeps(c: Session, s: System, a: Arrival, plain: bool)
    requires SystemBalances(c, s, plain) && (plain ==> forall i :: Plain(a.clock(i)))
    ensures SystemBalances(c, Offered(c, s, a), plain)
  {
    var touched := Touched(c.su.pools, a.tx.accountKeys);
    var out := Offered(c, s, a);
    if touched != [] {
      if a.lane !in s.bots {
        CountedKeeps(c, s, a.lane, plain);
      } else {
        assert LaneBalances(c, s, a.lane, plain);
        LooksKeep(c, a.lane, DeskOf(s, a.lane), a.book, a.tx, touched, a.clock, plain);
        ArrivalOnLane(c, s, out, a.lane, LookedAt(c, a.lane, DeskOf(s, a.lane), a.book, a.tx, touched, a.clock), plain);
      }
    }
  }

  lemma LanesKeep(c: Session, s: System, out: System, lane: string, d: Desk, plain: bool)
    requires SystemBalances(c, s, plain) && lane in s.bots
    requires DeskBalances(c, lane, d, plain) && GrewBy(lane, s.history, d.history)
    requires d.bot.stats.seen + d.bot.stats.duplicates >= s.bots[lane].stats.seen + s.bots[lane].stats.duplicates + 1
    requires out.bots == s.bots[lane := d.bot] && out.execs == s.execs[lane := d.exec.value]
    requires out.triggers == Bump(s.triggers, lane) && out.history == d.history
    ensures forall l :: l in s.bots ==> LaneBalances(c, out, l, plain)
  {
    forall l | l in s.bots
      ensures LaneBalances(c, out, l, plain)
    {
      assert LaneBalances(c, s, l, plain);
      if l == lane {
        OwnLaneKeeps(c, s, out, lane, d, plain);
      } else {
        OtherLaneKeeps(c, s, out, lane, l, plain);
      }
    }
  }

  lemma ArrivalOnLane(c: Session, s: System, out: System, lane: string, d: Desk, plain: bool)
    requires SystemBalances(c, s, plain) && lane in s.bots
    requires DeskBalances(c, lane, d, plain) && GrewBy(lane, s.history, d.history)
    requires d.bot.stats.seen + d.bot.stats.duplicates >= s.bots[lane].stats.seen + s.bots[lane].stats.duplicates + 1
    requires out.bots == s.bots[lane := d.bot] && out.execs == s.execs[lane := d.exec.value]
    requires out.triggers == Bump(s.triggers, lane) && out.history == d.history
    ensures SystemBalances(c, out, plain)
  {
    LanesKeep(c, s, out, lane, d, plain);
    RowsKeepTheirLanes(s.bots.Keys, lane, s.history, d.history);
  }

  lemma OwnLaneKeeps(c: Session, s: System, out: System, lane: string, d: Desk, plain: bool)
    requires lane in s.bots && Count(s.triggers, lane) <= s.bots[lane].stats.seen + s.bots[lane].stats.duplicates
    requires DeskBalances(c, lane, d, plain) && lane in out.bots && lane in out.execs
    requires out.bots[lane] == d.bot && out.execs[lane] == d.exec.value && out.history == d.history
    requires Count(out.triggers, lane) == Count(s.triggers, lane) + 1
    requires d.bot.stats.seen + d.bot.stats.duplicates >= s.bots[lane].stats.seen + s.bots[lane].stats.duplicates + 1
    ensures LaneBalances(c, out, lane, plain)
  {
  }

  lemma RowsKeepTheirLanes(lanes: set<string>, lane: string, h: seq<Trade>, more: seq<Trade>)
    requires lane in lanes && GrewBy(lane, h, more)
    requires forall t :: t in h ==> t.lane in lanes
    ensures forall t :: t in more ==> t.lane in lanes
  {
  }

  lemma FreshBalances(c: Session, lanes: set<string>, plain: bool)
    ensures SystemBalances(c, Fresh(lanes), plain)
  {
  }

  lemma {:induction false} SameLanes(c: Session, lanes: set<string>, arrivals: seq<Arrival>)
    ensures AfterArrivals(c, lanes, arrivals).bots.Keys == lanes
  {
    if |arrivals| > 0 {
      SameLanes(c, lanes, Front(arrivals));
    }
  }

  /** Over every run, per lane: what the bot found actionable is what its
      executor was offered is the number of the lane's ledger rows; what the
      executor sent is its realised rows, and what it simulated with success its
      rows booked so; no trigger goes uncounted; and its
      refusals and failures are its empty rows, if and only as far as no broker
      refuses on its own account. */
  lemma {:induction false} LanesAlwaysBalance(c: Session, lanes: set<string>, arrivals: seq<Arrival>, plain: bool)
    requires plain ==> forall k, i :: 0 <= k < |arrivals| ==> Plain(arrivals[k].clock(i))
    ensures SystemBalances(c, AfterArrivals(c, lanes, arrivals), plain)
  {
    if |arrivals| == 0 {
      FreshBalances(c, lanes, plain);
    } else {
      var n := |arrivals| - 1;
      assert forall k :: 0 <= k < n ==> Front(arrivals)[k] == arrivals[k];
      LanesAlwaysBalance(c, lanes, Front(arrivals), plain);
      assert plain ==> forall i :: Plain(arrivals[n].clock(i));
      ArrivalKeeps(c, AfterArrivals(c, lanes, Front(arrivals)), arrivals[n], plain);
    }
  }

  // ----- summed over the lanes -----

  ghost function PerLane(lanes: set<string>, h: seq<Trade>, p: Trade -> bool): map<string, nat> {
    map l | l in lanes :: Number(h, Of(l, p))
  }

  /** Every row belongs to exactly one lane. */
  lemma {:induction false} LanesSumToAll(lanes: set<string>, h: seq<Trade>, p: Trade -> bool)
    requires forall t :: t in h ==> t.lane in lanes
    ensures SumMap(PerLane(lanes, h, p)) == Number(h, p)
  {
    if h == [] {
      SumZero(PerLane(lanes, h, p));
    } else {
      var t := Last(h);
      assert h == Front(h) + [t] && t in h;
      LanesSumToAll(lanes, Front(h), p);
      var before := PerLane(lanes, Front(h), p);
      SumUpdate(before, t.lane, before[t.lane] + if p(t) then 1 else 0);
      assert PerLane(lanes, h, p) == before[t.lane := before[t.lane] + if p(t) then 1 else 0];
    }
  }

  lemma {:induction false} NumberAny(h: seq<Trade>)
    ensures Number(h, Any()) == |h|
  {
    if h != [] {
      NumberAny(Front(h));
    }
  }

  /** Whole-system conservation, over every run on any set of lanes: the offers
      of all executors are the ledger's attempts, their sends the ledger's, and
      their refusals and failures the ledger's refusals when no broker refuses
      on its own account; and nothing is realised that was not expected. */
  lemma MoneyIsConserved(c: Session, lanes: set<string>, arrivals: seq<Arrival>)
    ensures var s := AfterArrivals(c, lanes, arrivals);
            var t := TotalsOf(s.history);
            && s.execs.Keys == lanes == s.bots.Keys
            && SumMap(map l | l in s.bots :: s.bots[l].stats.actionable) == t.attempts
            && SumMap(map l | l in s.execs :: s.execs[l].offered) == t.attempts
            && SumMap(map l | l in s.execs :: s.execs[l].sent) == t.sent
            && SumMap(map l | l in s.execs :: s.execs[l].simulatedOk) == Number(s.history, Is(SimulatedOk))
            && ((forall k, i :: 0 <= k < |arrivals| ==> Plain(arrivals[k].clock(i))) ==>
                  SumMap(map l | l in s.execs :: Failures(s.execs[l])) == t.refused)
            && t.realised <= t.expected
  {
    var s := AfterArrivals(c, lanes, arrivals);
    LanesAlwaysBalance(c, lanes, arrivals, false);
    SameLanes(c, lanes, arrivals);
    SentAndOffered(c, s, false);
    if forall k, i :: 0 <= k < |arrivals| ==> Plain(arrivals[k].clock(i)) {
      LanesAlwaysBalance(c, lanes, arrivals, true);
      FailuresAreRefusals(c, s);
    }
    TotalsAreHonest(s.history);
  }

  /** The lanes' numbers are their shares of the ledger. */
  lemma SharesOf(c: Session, s: System, plain: bool)
    requires SystemBalances(c, s, plain)
    ensures forall l :: l in s.bots ==>
              && l in s.execs
              && s.bots[l].stats.actionable == s.execs[l].offered == Number(s.history, Of(l, Any()))
              && s.execs[l].sent == Number(s.history, Of(l, Is(Realised)))
              && s.execs[l].simulatedOk == Number(s.history, Of(l, Is(SimulatedOk)))
              && (plain ==> Failures(s.execs[l]) == Number(s.history, Of(l, Is(Nothing))))
              && SpendingHolds(c.limits, s.execs[l])
  {
  }

  lemma SharesSum(m: map<string, nat>, lanes: set<string>, h: seq<Trade>, p: Trade -> bool)
    requires m.Keys == lanes && forall l :: l in lanes ==> m[l] == Number(h, Of(l, p))
    requires forall t :: t in h ==> t.lane in lanes
    ensures SumMap(m) == Number(h, p)
  {
    assert m == PerLane(lanes, h, p);
    LanesSumToAll(lanes, h, p);
  }

  lemma SentAndOffered(c: Session, s: System, plain: bool)
    requires SystemBalances(c, s, plain)
    ensures SumMap(map l | l in s.bots :: s.bots[l].stats.actionable) == |s.history|
    ensures SumMap(map l | l in s.execs :: s.execs[l].offered) == |s.history|
    ensures SumMap(map l | l in s.execs :: s.execs[l].sent) == Number(s.history, Is(Realised))
    ensures SumMap(map l | l in s.execs :: s.execs[l].simulatedOk) == Number(s.history, Is(SimulatedOk))
  {
    var lanes := s.bots.Keys;
    SharesOf(c, s, plain);
    NumberAny(s.history);
    SharesSum(map l | l in s.bots :: s.bots[l].stats.actionable, lanes, s.history, Any());
    SharesSum(map l | l in s.execs :: s.execs[l].offered, lanes, s.history, Any());
    SharesSum(map l | l in s.execs :: s.execs[l].sent, lanes, s.history, Is(Realised));
    SharesSum(map l | l in s.execs :: s.execs[l].simulatedOk, lanes, s.history, Is(SimulatedOk));
  }

  lemma FailuresAreRefusals(c: Session, s: System)
    requires SystemBalances(c, s, true)
    ensures SumMap(map l | l in s.execs :: Failures(s.execs[l])) == Number(s.history, Is(Nothing))
  {
    SharesOf(c, s, true);
    SharesSum(map l | l in s.execs :: Failures(s.execs[l]), s.bots.Keys, s.history, Is(Nothing));
  }

  /** Spending over every run: each executor spent exactly what its realised
      rows in the ledger say was sent, and is within its cap (below the top of
      the 64-bit range, where the cap binds). */
  lemma SpendingMatchesTheLedger(c: Session, lanes: set<string>, arrivals: seq<Arrival>)
    ensures var s := AfterArrivals(c, lanes, arrivals);
            forall l :: l in s.execs ==>
              && s.execs[l].spent == Number(s.history, Of(l, Is(Realised))) * c.limits.perAttempt
              && (c.limits.sessionCap < U64_MAX ==> s.execs[l].spent <= c.limits.sessionCap)
  {
    LanesAlwaysBalance(c, lanes, arrivals, false);
    SharesOf(c, AfterArrivals(c, lanes, arrivals), false);
  }

  // ----- what a row is -----

  /** A booked row is a trade of the session's size with a plausible gap that
      covers the margin, and with something left of it. */
  ghost predicate IsTrade(c: Session, t: Trade) {
    t.size == c.su.size > 0 && Max(1, c.su.costs.marginBps) <= t.grossBps <= IMPLAUSIBLE_BPS && t.net > 0
  }

  lemma AnsweredTrade(c: Session, st: LaneState, book: Book, ev: TriggerEvent, now: Instant)
    requires Answer(c.su, st, book, ev, now).Some? && Answer(c.su, st, book, ev, now).value.opportunity.Some?
    ensures var o := Answer(c.su, st, book, ev, now).value.opportunity.value;
            && o.inLamports == c.su.size > 0 && o.netLamports > 0
            && Max(1, c.su.costs.marginBps) <= o.grossBps <= IMPLAUSIBLE_BPS
  {
    DecisionIsBestOnOffer(c.su, book, ev, now);
    var pool, o := Find(c.su.pools, ev.pool).value, Answer(c.su, st, book, ev, now).value.opportunity.value;
    var s :| s in Siblings(c.su.pools, pool) && Offers(c.su, book, pool, s, now, o);
    OffersFacts(c.su, book, pool, s, now, o);
  }

  lemma {:induction false} LooksBookTrades(c: Session, lane: string, d: Desk, book: Book, tx: Races.SeenTx,
                                           pools: seq<Pubkey>, clock: nat -> Moment)
    requires forall t :: t in d.history ==> IsTrade(c, t)
    ensures forall t :: t in LookedAt(c, lane, d, book, tx, pools, clock).history ==> IsTrade(c, t)
  {
    if pools != [] {
      LooksBookTrades(c, lane, d, book, tx, Front(pools), clock);
      var b, m, ev := LookedAt(c, lane, d, book, tx, Front(pools), clock), clock(|pools| - 1), EventOn(tx, Last(pools));
      var answer := Answer(c.su, b.bot, book, ev, m.now);
      if answer.Some? && answer.value.opportunity.Some? {
        AnsweredTrade(c, b.bot, book, ev, m.now);
      }
    }
  }

  /** Over every run, on every lane, the ledger holds trades only. */
  lemma {:induction false} RowsAreTrades(c: Session, lanes: set<string>, arrivals: seq<Arrival>)
    ensures forall t :: t in AfterArrivals(c, lanes, arrivals).history ==> IsTrade(c, t)
  {
    if |arrivals| > 0 {
      RowsAreTrades(c, lanes, Front(arrivals));
      var s, a := AfterArrivals(c, lanes, Front(arrivals)), Last(arrivals);
      if a.lane in s.bots {
        LooksBookTrades(c, a.lane, DeskOf(s, a.lane), a.book, a.tx, Touched(c.su.pools, a.tx.accountKeys), a.clock);
      }
    }
  }

  /** As the program is wired today, with no broker, a run realises nothing. */
  lemma {:induction false} NothingIsEverSent(c: Session, lanes: set<string>, arrivals: seq<Arrival>)
    requires forall k, i :: 0 <= k < |arrivals| ==> arrivals[k].clock(i).answer.None?
    ensures TotalsOf(AfterArrivals(c, lanes, arrivals).history).sent == 0
    ensures TotalsOf(AfterArrivals(c, lanes, arrivals).history).realised == 0
  {
    NoneRealised(c, lanes, arrivals);
    TotalsAreHonest(AfterArrivals(c, lanes, arrivals).history);
  }

  lemma {:induction false} NoneRealised(c: Session, lanes: set<string>, arrivals: seq<Arrival>)
    requires forall k, i :: 0 <= k < |arrivals| ==> arrivals[k].clock(i).answer.None?
    ensures Number(AfterArrivals(c, lanes, arrivals).history, Is(Realised)) == 0
  {
    if |arrivals| > 0 {
      var n := |arrivals| - 1;
      assert forall k :: 0 <= k < n ==> Front(arrivals)[k] == arrivals[k];
      NoneRealised(c, lanes, Front(arrivals));
      var s, a := AfterArrivals(c, lanes, Front(arrivals)), arrivals[n];
      assert forall i :: a.clock(i).answer.None?;
      if a.lane in s.bots {
        LooksRealiseNothing(c, a.lane, DeskOf(s, a.lane), a.book, a.tx, Touched(c.su.pools, a.tx.accountKeys), a.clock);
      }
    }
  }

  lemma LookRealisesNothing(c: Session, lane: string, d: Desk, book: Book, ev: TriggerEvent, m: Moment)
    requires Number(d.history, Is(Realised)) == 0 && m.answer.None?
    ensures Number(Looked(c, lane, d, book, ev, m).history, Is(Realised)) == 0
  {
    var out := Looked(c, lane, d, book, ev, m);
    assert out.history == d.history || Front(out.history) == d.history;
  }

  lemma {:induction false} LooksRealiseNothing(c: Session, lane: string, d: Desk, book: Book, tx: Races.SeenTx,
                                               pools: seq<Pubkey>, clock: nat -> Moment)
    requires Number(d.history, Is(Realised)) == 0 && forall i :: clock(i).answer.None?
    ensures Number(LookedAt(c, lane, d, book, tx, pools, clock).history, Is(Realised)) == 0
  {
    if pools != [] {
      LooksRealiseNothing(c, lane, d, book, tx, Front(pools), clock);
      LookRealisesNothing(c, lane, LookedAt(c, lane, d, book, tx, Front(pools), clock), book,
                          EventOn(tx, Last(pools)), clock(|pools| - 1));
    }
  }
}
