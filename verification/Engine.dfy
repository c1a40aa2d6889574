/** The step that ties the parts together (src/main.rs): a transaction on a
    lane is judged once per watched pool, attempted, booked and reported. */
module Engine {
  import opened Prelude
  import Races
  import opened Arb
  import opened Pools
  import opened Lanes
  import opened Execute
  import opened Ledgers
  import opened Duels

  /** Readings of the outside world at one look. */
  datatype Moment = Moment(now: Instant, killed: bool, answer: Option<Outcome>)

  /** What stays the same for one lane over a session. */
  datatype Session = Session(su: Setup, limits: BotLimits, mode: Mode, started: Instant, wallet: nat)

  /** The parts one lane's transaction can touch, as values. */
  datatype Desk = Desk(bot: LaneState, exec: Option<ExecutionStats>, history: seq<Trade>, reports: seq<Found>)

  /** What an outcome is booked as: only a send is realised. */
  function BookingOf(outcome: Outcome): Booking {
    match outcome
    case Sent(_) => Realised
    case Simulated(ok, _) => if ok then SimulatedOk else Nothing
    case Skipped(reason) => if reason.WasDryRun? then Expected else Nothing
  }

  /** The outcome column of a ledger row. */
  function Describe(outcome: Outcome): string {
    match outcome
    case Sent(signature) => "sent " + signature[..Min(|signature|, 12)]
    case Simulated(ok, note) => if ok then "simulated ok" else "simulation failed: " + note
    case Skipped(WasDryRun) => "dry run"
    case Skipped(BuildFailed(why)) => "build failed: " + why
    case Skipped(Limit(Killed)) => "stopped by kill file"
    case Skipped(Limit(SessionCap)) => "over the session cap"
    case Skipped(Limit(WalletTooLarge)) => "wallet too large"
  }

  /** The booking read back off the outcome column: a send begins "se", a dry run
      "d", and a simulation that went well says "simulated". */
  function BookingIn(words: string): Booking {
    if |words| < 2 then Nothing
    else if words[0] == 'd' then Expected
    else if words[0] == 's' && words[1] == 'e' then Realised
    else if |words| > 7 && words[0] == 's' && words[1] == 'i' && words[7] == 'e' then SimulatedOk
    else Nothing
  }

  /** Whatever the broker writes, a row's words never contradict its booking. */
  lemma WordsTellTheBooking(o: Outcome)
    ensures BookingIn(Describe(o)) == BookingOf(o)
  {
    match o
    case Sent(signature) => assert Describe(o)[..5] == "sent ";
    case Simulated(ok, note) => assert Describe(o)[..8] == if ok then "simulate" else "simulati";
    case Skipped(WasDryRun) =>
    case Skipped(BuildFailed(why)) => assert Describe(o)[..5] == "build";
    case Skipped(Limit(refusal)) =>
  }

  function Touched(pools: seq<Pool>, keys: seq<Pubkey>): seq<Pubkey> {
    Filter(keys, (k: Pubkey) => Find(pools, k).Some?)
  }

  function EventOn(tx: Races.SeenTx, pool: Pubkey): TriggerEvent {
    TriggerEvent(pool, tx.signature, tx.slot, tx.at)
  }

  function TradeOf(c: Session, lane: string, found: Found, o: Opportunity, outcome: Outcome, m: Moment): Trade {
    Trade(SatSub(m.now, c.started), found.slot, lane, found.pairLabel, o.sellOn + " -> " + o.buyOn,
          o.inLamports, o.grossBps, o.netLamports, BookingOf(outcome), Describe(outcome))
  }

  /** What a lane's executor and the ledger hold. */
  datatype Money = Money(exec: Option<ExecutionStats>, history: seq<Trade>)

  /** What was found is attempted if it is a trade and there is an executor. */
  function Acted(c: Session, lane: string, money: Money, found: Found, m: Moment): Money {
    if found.opportunity.None? || money.exec.None? then money else
      var (stats, outcome) := Attempted(c.limits, c.mode, money.exec.value, World(m.killed, c.wallet, m.answer));
      Money(Some(stats), money.history + [TradeOf(c, lane, found, found.opportunity.value, outcome, m)])
  }

  /** The desk after a look that left the bot so and found this, if anything. */
  function Concludes(c: Session, lane: string, d: Desk, bot: LaneState, answer: Option<Found>, m: Moment): Desk {
    match answer
    case None => d.(bot := bot)
    case Some(found) =>
      var money := Acted(c, lane, Money(d.exec, d.history), found, m);
      Desk(bot, money.exec, money.history, d.reports + [found])
  }

  /** One look of the lane's bot, and what it leads to. */
  function Looked(c: Session, lane: string, d: Desk, book: Book, ev: TriggerEvent, m: Moment): Desk {
    Concludes(c, lane, d, Triggered(c.su, d.bot, book, ev, m.now), Answer(c.su, d.bot, book, ev, m.now), m)
  }

  /** All the looks of one transaction, each at its own moment. */
  function LookedAt(c: Session, lane: string, d: Desk, book: Book, tx: Races.SeenTx, pools: seq<Pubkey>,
                    clock: nat -> Moment): Desk {
    if pools == [] then d else
      Looked(c, lane, LookedAt(c, lane, d, book, tx, Front(pools), clock), book,
             EventOn(tx, Last(pools)), clock(|pools| - 1))
  }

  /** The duel book after these reports, in order. */
  ghost predicate ReportedAll(st: DuelState, lane: string, reports: seq<Found>, out: DuelState) {
    if reports == [] then out == st else
      exists mid :: ReportedAll(st, lane, Front(reports), mid) && Recorded(mid, lane, Last(reports), out)
  }

  /** What was found, if anything, is taken in by the duel book. */
  ghost predicate TakenIn(st: DuelState, lane: string, found: Option<Found>, out: DuelState) {
    if found.None? then out == st else Recorded(st, lane, found.value, out)
  }

  lemma OneMoreReported(st: DuelState, lane: string, before: seq<Found>, mid: DuelState,
                        found: Option<Found>, out: DuelState)
    requires ReportedAll(st, lane, before, mid) && TakenIn(mid, lane, found, out)
    ensures ReportedAll(st, lane, if found.Some? then before + [found.value] else before, out)
  {
    if found.Some? {
      assert Front(before + [found.value]) == before;
    }
  }

  ghost function ExecOf(executor: Executor?): Option<ExecutionStats>
    reads executor
  {
    if executor != null then Some(executor.stats) else None
  }

  ghost function DeskBefore(bot: LaneBot, exec: Executor?, ledger: Ledger): Desk
    reads bot, ledger, exec
  {
    Desk(bot.State(), ExecOf(exec), ledger.history, [])
  }

  /** Try what was found, and book it whatever came of it. */
  method AttemptAndBook(c: Session, lane: string, executor: Executor, found: Found, m: Moment, ledger: Ledger)
    requires ledger.Valid() && found.opportunity.Some?
    requires executor.limits == c.limits && executor.mode == c.mode
    modifies executor, ledger
    ensures ledger.Valid()
    ensures var (stats, outcome) := Attempted(c.limits, c.mode, old(executor.stats), World(m.killed, c.wallet,
                                                                                           m.answer));
            && executor.stats == stats
            && ledger.history == old(ledger.history) + [TradeOf(c, lane, found, found.opportunity.value, outcome, m)]
  {
    var outcome := executor.Attempt(World(m.killed, c.wallet, m.answer));
    ledger.Record(TradeOf(c, lane, found, found.opportunity.value, outcome, m));
  }

  ghost function MoneyOf(executor: Executor?, ledger: Ledger): Money
    reads ledger, executor
  {
    Money(ExecOf(executor), ledger.history)
  }

  /** Attempt and book what was found, and report it. */
  method Act(
    c: Session, lane: string, executor: Executor?, found: Found, m: Moment, duels: DuelBook, ledger: Ledger)
    requires ledger.Valid()
    requires executor != null ==> executor.limits == c.limits && executor.mode == c.mode
    modifies executor
    modifies duels, ledger
    ensures ledger.Valid()
    ensures MoneyOf(executor, ledger) == Acted(c, lane, old(MoneyOf(executor, ledger)), found, m)
    ensures Recorded(old(duels.State()), lane, found, duels.State())
  {
    if found.opportunity.Some? && executor != null {
      AttemptAndBook(c, lane, executor, found, m, ledger);
    }
    duels.Record(lane, found);
  }

  /** One pool: judge it, attempt what was found, book it and report it. */
  method JudgePool(
    c: Session, lane: string, bot: LaneBot, executor: Executor?, ev: TriggerEvent, m: Moment,
    duels: DuelBook, ledger: Ledger)
    returns (found: Option<Found>)
    requires ledger.Valid() && bot.su == c.su
    requires executor != null ==> executor.limits == c.limits && executor.mode == c.mode
    modifies bot, executor
    modifies duels, ledger
    ensures ledger.Valid()
    ensures bot.State() == Triggered(c.su, old(bot.State()), bot.prices.inner, ev, m.now)
    ensures found == Answer(c.su, old(bot.State()), bot.prices.inner, ev, m.now)
    ensures MoneyOf(executor, ledger)
         == (if found.None? then old(MoneyOf(executor, ledger))
             else Acted(c, lane, old(MoneyOf(executor, ledger)), found.value, m))
    ensures TakenIn(old(duels.State()), lane, found, duels.State())
  {
    found := bot.OnTrigger(ev, m.now);
    if found.Some? {
      Act(c, lane, executor, found.value, m, duels, ledger);
    }
  }

  // ----- every lane at once -----

  /** A transaction on a lane, the book it is judged on and the world then. */
  datatype Arrival = Arrival(lane: string, tx: Races.SeenTx, book: Book, clock: nat -> Moment)

  /** What a lane told the duel book. */
  datatype Report = Report(lane: string, found: Found)

  /** All lanes' bots and executors, the ledger's rows and everything reported. */
  datatype System = System(
    bots: map<string, LaneState>, execs: map<string, ExecutionStats>, triggers: map<string, nat>,
    history: seq<Trade>, reports: seq<Report>)

  function DeskOf(s: System, lane: string): Desk
    requires lane in s.bots
  {
    Desk(s.bots[lane], if lane in s.execs then Some(s.execs[lane]) else None, s.history, [])
  }

  function Told(lane: string, reports: seq<Found>): seq<Report> {
    seq(|reports|, i requires 0 <= i < |reports| => Report(lane, reports[i]))
  }

  /** The system with one lane's part replaced. */
  function Served(s: System, lane: string, d: Desk): System {
    s.(bots := s.bots[lane := d.bot],
       execs := if d.exec.Some? then s.execs[lane := d.exec.value] else s.execs,
       history := d.history,
       reports := s.reports + Told(lane, d.reports))
  }

  /** The whole effect of one transaction. */
  function Offered(c: Session, s: System, a: Arrival): System {
    var touched := Touched(c.su.pools, a.tx.accountKeys);
    if touched == [] then s else
      var counted := s.(triggers := Bump(s.triggers, a.lane));
      if a.lane !in s.bots then counted else
        Served(counted, a.lane, LookedAt(c, a.lane, DeskOf(s, a.lane), a.book, a.tx, touched, a.clock))
  }

  /** Each lane owns its bot and its executor. */
  ghost predicate OwnTheirs(bots: map<string, LaneBot>, executors: map<string, Executor>) {
    && (forall l, m :: l in bots && m in bots && l != m ==> bots[l] != bots[m])
    && (forall l, m :: l in executors && m in executors && l != m ==> executors[l] != executors[m])
  }

  ghost function BotsOf(bots: map<string, LaneBot>): map<string, LaneState>
    reads set l | l in bots :: bots[l]
  {
    map l | l in bots :: bots[l].State()
  }

  ghost function StatsOf(executors: map<string, Executor>): map<string, ExecutionStats>
    reads set l | l in executors :: executors[l]
  {
    map l | l in executors :: executors[l].stats
  }

  ghost function SystemOf(bots: map<string, LaneBot>, executors: map<string, Executor>, triggers: map<string, nat>,
                          ledger: Ledger, reports: seq<Report>): System
    reads set l | l in bots :: bots[l], set l | l in executors :: executors[l], ledger
  {
    System(BotsOf(bots), StatsOf(executors), triggers, ledger.history, reports)
  }

  ghost function BookOf(bots: map<string, LaneBot>, lane: string): Book
    reads if lane in bots then {bots[lane].prices} else {}
  {
    if lane in bots then bots[lane].prices.inner else map[]
  }

  /** A transaction touching a watched pool counts as one trigger, and each such
      pool as one look by that lane's bot. The objects of all lanes together move
      as the value-level step says, and the duel book takes in the reports. */
  method OfferTrigger(
    c: Session, lane: string, tx: Races.SeenTx,
    bots: map<string, LaneBot>, executors: map<string, Executor>, triggers: map<string, nat>,
    duels: DuelBook, ledger: Ledger, clock: nat -> Moment, ghost told: seq<Report>)
    returns (counted: map<string, nat>, ghost reports: seq<Found>)
    requires ledger.Valid() && OwnTheirs(bots, executors)
    requires lane in bots ==> bots[lane].su == c.su
    requires lane in executors ==> executors[lane].limits == c.limits && executors[lane].mode == c.mode
    modifies if lane in bots then {bots[lane]} else {}
    modifies if lane in executors then {executors[lane]} else {}
    modifies duels, ledger
    ensures ledger.Valid()
    ensures SystemOf(bots, executors, counted, ledger, told + Told(lane, reports))
         == Offered(c, old(SystemOf(bots, executors, triggers, ledger, told)),
                    Arrival(lane, tx, old(BookOf(bots, lane)), clock))
    ensures ReportedAll(old(duels.State()), lane, reports, duels.State())
  {
    var touched := Touched(c.su.pools, tx.accountKeys);
    counted, reports := triggers, [];
    assert told + Told(lane, []) == told;
    if touched == [] {
      return;
    }
    counted := Bump(triggers, lane);
    if lane !in bots {
      return;
    }
    reports := Serve(c, lane, tx, bots, executors, touched, clock, duels, ledger);
  }

  /** The lane's own objects are judged with; every other lane's stay as they were. */
  method Serve(
    c: Session, lane: string, tx: Races.SeenTx,
    bots: map<string, LaneBot>, executors: map<string, Executor>, touched: seq<Pubkey>, clock: nat -> Moment,
    duels: DuelBook, ledger: Ledger)
    returns (ghost reports: seq<Found>)
    requires ledger.Valid() && OwnTheirs(bots, executors) && lane in bots && bots[lane].su == c.su
    requires lane in executors ==> executors[lane].limits == c.limits && executors[lane].mode == c.mode
    modifies bots[lane]
    modifies if lane in executors then {executors[lane]} else {}
    modifies duels, ledger
    ensures ledger.Valid()
    ensures ReportedAll(old(duels.State()), lane, reports, duels.State())
    ensures DeskBefore(bots[lane], ExecutorFor(executors, lane), ledger).(reports := reports)
         == LookedAt(c, lane, old(DeskBefore(bots[lane], ExecutorFor(executors, lane), ledger)),
                     old(bots[lane].prices.inner), tx, touched, clock)
    ensures BotsOf(bots) == old(BotsOf(bots))[lane := bots[lane].State()]
    ensures StatsOf(executors) == if lane in executors then old(StatsOf(executors))[lane := executors[lane].stats]
                                  else old(StatsOf(executors))
  {
    ghost var bs, es := BotsOf(bots), StatsOf(executors);
    reports := JudgeAll(c, lane, bots[lane], ExecutorFor(executors, lane), tx, touched, clock, duels, ledger);
    assert BotsOf(bots) == bs[lane := bots[lane].State()] by {
      forall l | l in bots && l != lane
        ensures BotsOf(bots)[l] == bs[l]
      {
        assert bots[l].State() == old(bots[l].State());
      }
      OneUpdated(bs, BotsOf(bots), lane);
    }
    assert StatsOf(executors) == (if lane in executors then es[lane := executors[lane].stats] else es) by {
      forall l | l in executors && l != lane
        ensures StatsOf(executors)[l] == es[l]
      {
        assert executors[l].stats == old(executors[l].stats);
      }
      OneUpdated(es, StatsOf(executors), lane);
    }
  }

  lemma OneUpdated<V>(before: map<string, V>, after: map<string, V>, k: string)
    requires before.Keys == after.Keys && forall l :: l in before && l != k ==> after[l] == before[l]
    ensures after == if k in after then before[k := after[k]] else before
  {
  }

  /** The loop over the touched pools. */
  method JudgeAll(
    c: Session, lane: string, bot: LaneBot, executor: Executor?, tx: Races.SeenTx, touched: seq<Pubkey>,
    clock: nat -> Moment, duels: DuelBook, ledger: Ledger)
    returns (ghost reports: seq<Found>)
    requires ledger.Valid() && bot.su == c.su
    requires executor != null ==> executor.limits == c.limits && executor.mode == c.mode
    modifies bot, executor
    modifies duels, ledger
    ensures ledger.Valid()
    ensures DeskBefore(bot, executor, ledger).(reports := reports)
         == LookedAt(c, lane, old(DeskBefore(bot, executor, ledger)), bot.prices.inner, tx, touched, clock)
    ensures ReportedAll(old(duels.State()), lane, reports, duels.State())
  {
    reports := [];
    ghost var book, start := bot.prices.inner, DeskBefore(bot, executor, ledger);
    for i := 0 to |touched|
      invariant ledger.Valid()
      invariant bot.prices.inner == book
      invariant DeskBefore(bot, executor, ledger).(reports := reports)
             == LookedAt(c, lane, start, book, tx, touched[..i], clock)
      invariant ReportedAll(old(duels.State()), lane, reports, duels.State())
    {
      assert Front(touched[..i + 1]) == touched[..i] && Last(touched[..i + 1]) == touched[i];
      ghost var before, mid := reports, duels.State();
      var found := JudgePool(c, lane, bot, executor, EventOn(tx, touched[i]), clock(i), duels, ledger);
      reports := if found.Some? then before + [found.value] else before;
      OneMoreReported(old(duels.State()), lane, before, mid, found, duels.State());
    }
    assert touched[..|touched|] == touched;
  }

  function ExecutorFor(executors: map<string, Executor>, lane: string): Executor? {
    if lane in executors then executors[lane] else null
  }
}
