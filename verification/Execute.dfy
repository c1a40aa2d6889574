/** What an attempt must get past, and how it is counted (src/bot/config.rs,
    src/bot/execute.rs). The kill file, the balance and the broker's answer are
    inputs of each attempt. */
module Execute {
  import opened Prelude

  datatype Refusal = Killed | SessionCap | WalletTooLarge
  datatype Allowed = Yes | No(refusal: Refusal)

  datatype BotLimits = BotLimits(perAttempt: u64, sessionCap: u64, maxWallet: u64)

  function SatAdd(a: nat, b: nat): nat { Min(a + b, U64_MAX) }

  function Check(limits: BotLimits, killed: bool, spent: nat, balance: nat): Allowed {
    if killed then No(Killed)
    else if balance > limits.maxWallet then No(WalletTooLarge)
    else if SatAdd(spent, limits.perAttempt) > limits.sessionCap then No(SessionCap)
    else Yes
  }

  datatype Mode = DryRun | Simulate | Live
  datatype Reason = WasDryRun | Limit(refusal: Refusal) | BuildFailed(why: string)
  datatype Outcome = Skipped(reason: Reason) | Simulated(ok: bool, note: string) | Sent(signature: string)

  datatype ExecutionStats = ExecutionStats(
    offered: nat, refused: nat, refusedKilled: nat, refusedCap: nat, refusedWallet: nat,
    attempted: nat, simulatedOk: nat, simulatedFailed: nat, buildFailed: nat, sent: nat, spent: nat)

  const NO_EXECUTION: ExecutionStats := ExecutionStats(0, 0, 0, 0, 0, 0, 0, 0, 0, 0, 0)

  /** What the world is like at one attempt; `answer` is what a wired-in broker
      would say, and absent when none is. */
  datatype World = World(killed: bool, balance: nat, answer: Option<Outcome>)

  function Refused(s: ExecutionStats, refusal: Refusal): ExecutionStats {
    var t := s.(refused := s.refused + 1);
    match refusal
    case Killed => t.(refusedKilled := t.refusedKilled + 1)
    case SessionCap => t.(refusedCap := t.refusedCap + 1)
    case WalletTooLarge => t.(refusedWallet := t.refusedWallet + 1)
  }

  function Answered(limits: BotLimits, s: ExecutionStats, outcome: Outcome): ExecutionStats {
    match outcome
    case Simulated(ok, _) =>
      if ok then s.(simulatedOk := s.simulatedOk + 1) else s.(simulatedFailed := s.simulatedFailed + 1)
    case Skipped(reason) => if reason.BuildFailed? then s.(buildFailed := s.buildFailed + 1) else s
    case Sent(_) => s.(sent := s.sent + 1, spent := s.spent + limits.perAttempt)
  }

  /** One attempt: the counters after it, and what came of it. */
  function Attempted(limits: BotLimits, mode: Mode, s: ExecutionStats, w: World): (ExecutionStats, Outcome) {
    var t := s.(offered := s.offered + 1);
    match Check(limits, w.killed, s.spent, w.balance)
    case No(refusal) => (Refused(t, refusal), Skipped(Limit(refusal)))
    case Yes =>
      if w.answer.None? || mode == DryRun then (t, Skipped(WasDryRun)) else
        (Answered(limits, t.(attempted := t.attempted + 1), w.answer.value), w.answer.value)
  }

  class Executor {
    const lane: string
    const limits: BotLimits
    const mode: Mode
    var stats: ExecutionStats

    constructor (lane: string, limits: BotLimits, mode: Mode)
      ensures this.lane == lane && this.limits == limits && this.mode == mode
      ensures stats == NO_EXECUTION
    {
      this.lane, this.limits, this.mode := lane, limits, mode;
      stats := NO_EXECUTION;
    }

    /** Check, then act. */
    method Attempt(w: World) returns (outcome: Outcome)
      modifies this
      ensures (stats, outcome) == Attempted(limits, mode, old(stats), w)
    {
      stats := stats.(offered := stats.offered + 1);
      var allowed := Check(limits, w.killed, stats.spent, w.balance);
      if allowed.No? {
        stats := stats.(refused := stats.refused + 1);
        match allowed.refusal {
          case Killed => stats := stats.(refusedKilled := stats.refusedKilled + 1);
          case SessionCap => stats := stats.(refusedCap := stats.refusedCap + 1);
          case WalletTooLarge => stats := stats.(refusedWallet := stats.refusedWallet + 1);
        }
        return Skipped(Limit(allowed.refusal));
      }
      if w.answer.None? {
        return Skipped(WasDryRun);
      }
      if mode == DryRun {
        return Skipped(WasDryRun);
      }
      stats := stats.(attempted := stats.attempted + 1);
      outcome := w.answer.value;
      match outcome {
        case Simulated(ok, _) =>
          if ok {
            stats := stats.(simulatedOk := stats.simulatedOk + 1);
          } else {
            stats := stats.(simulatedFailed := stats.simulatedFailed + 1);
          }
        case Skipped(reason) =>
          if reason.BuildFailed? {
            stats := stats.(buildFailed := stats.buildFailed + 1);
          }
        case Sent(_) =>
          stats := stats.(sent := stats.sent + 1);
          stats := stats.(spent := stats.spent + limits.perAttempt);
      }
    }
  }

  // ----- every run of attempts -----

  function AfterAttempts(limits: BotLimits, mode: Mode, ws: seq<World>): ExecutionStats {
    if ws == [] then NO_EXECUTION else
      Attempted(limits, mode, AfterAttempts(limits, mode, Front(ws)), Last(ws)).0
  }

  /** Attempts that were allowed but had nothing to act with. */
  function DryStops(limits: BotLimits, mode: Mode, ws: seq<World>): nat {
    if ws == [] then 0 else
      var w, s := Last(ws), AfterAttempts(limits, mode, Front(ws));
      DryStops(limits, mode, Front(ws)) +
      if Check(limits, w.killed, s.spent, w.balance).Yes? && (w.answer.None? || mode == DryRun) then 1 else 0
  }

  /** The counters after any run of attempts. */
  ghost predicate AccountsHold(limits: BotLimits, s: ExecutionStats) {
    && s.spent == s.sent * limits.perAttempt
    && s.refused == s.refusedKilled + s.refusedCap + s.refusedWallet
    && s.sent + s.simulatedOk + s.simulatedFailed + s.buildFailed <= s.attempted
  }

  lemma OneMoreSend(n: nat, per: nat)
    ensures (n + 1) * per == n * per + per
  {
  }

  lemma AccountsStep(limits: BotLimits, mode: Mode, s: ExecutionStats, w: World)
    requires AccountsHold(limits, s)
    ensures AccountsHold(limits, Attempted(limits, mode, s, w).0)
  {
  }

  /** Over any run: what was spent is what was sent times the size of an
      attempt, and the refusals are the sum of their three reasons. */
  lemma {:induction false} AccountsAlwaysHold(limits: BotLimits, mode: Mode, ws: seq<World>)
    ensures AccountsHold(limits, AfterAttempts(limits, mode, ws))
  {
    if ws != [] {
      AccountsAlwaysHold(limits, mode, Front(ws));
      AccountsStep(limits, mode, AfterAttempts(limits, mode, Front(ws)), Last(ws));
    }
  }

  /** Every offer was refused, reached the broker, or stopped dry. */
  lemma {:induction false} OffersPartition(limits: BotLimits, mode: Mode, ws: seq<World>)
    ensures var s := AfterAttempts(limits, mode, ws);
            s.offered == |ws| == s.refused + s.attempted + DryStops(limits, mode, ws)
  {
    if ws != [] {
      OffersPartition(limits, mode, Front(ws));
    }
  }

  /** A dry run, or no broker, reaches nothing and spends nothing. */
  lemma {:induction false} DryReachesNothing(limits: BotLimits, mode: Mode, ws: seq<World>)
    requires mode == DryRun || forall w :: w in ws ==> w.answer.None?
    ensures var s := AfterAttempts(limits, mode, ws);
            s.attempted == s.sent == s.spent == 0
  {
    if ws != [] {
      assert ws == Front(ws) + [Last(ws)];
      DryReachesNothing(limits, mode, Front(ws));
    }
  }

  /** The gate, exactly: the broker is reached if and only if there is one, this
      is no dry run, and none of the three limits refuses. */
  lemma GateIsExact(limits: BotLimits, mode: Mode, s: ExecutionStats, w: World)
    ensures Attempted(limits, mode, s, w).0.attempted > s.attempted
       <==> (&& w.answer.Some? && mode != DryRun
             && !w.killed && w.balance <= limits.maxWallet
             && SatAdd(s.spent, limits.perAttempt) <= limits.sessionCap)
  {
  }

  /** Once the kill file is there, and for as long as it stays, nothing moves but
      the count of what it refused: after any run, any further run of attempts
      attempts, sends and spends nothing, whatever else is set. */
  lemma {:induction false} KillFileStopsTheRun(limits: BotLimits, mode: Mode, ws: seq<World>, more: seq<World>)
    requires forall w :: w in more ==> w.killed
    ensures var s, n := AfterAttempts(limits, mode, ws), |more|;
            AfterAttempts(limits, mode, ws + more)
            == s.(offered := s.offered + n, refused := s.refused + n, refusedKilled := s.refusedKilled + n)
  {
    if more == [] {
      assert ws + more == ws;
    } else {
      assert more == Front(more) + [Last(more)] && Last(more) in more;
      assert Front(ws + more) == ws + Front(more) && Last(ws + more) == Last(more);
      KillFileStopsTheRun(limits, mode, ws, Front(more));
    }
  }

  /** Sending is gated: no send with the kill file there, with the wallet over
      its ceiling, or past the cap (which, below the top of the range, is not
      blurred by saturation). */
  lemma SendsAreGated(limits: BotLimits, mode: Mode, s: ExecutionStats, w: World)
    requires Attempted(limits, mode, s, w).0.sent > s.sent
    ensures !w.killed && w.balance <= limits.maxWallet && mode != DryRun && w.answer.Some?
    ensures limits.sessionCap < U64_MAX ==> s.spent + limits.perAttempt <= limits.sessionCap
  {
  }

  lemma {:induction false} WithinTheCap(limits: BotLimits, mode: Mode, ws: seq<World>)
    requires limits.sessionCap < U64_MAX || limits.perAttempt == 0
    ensures AfterAttempts(limits, mode, ws).spent <= limits.sessionCap
  {
    if ws != [] {
      WithinTheCap(limits, mode, Front(ws));
    }
  }

  function Sends(n: nat): seq<World> {
    if n == 0 then [] else Sends(n - 1) + [World(false, 0, Some(Sent("")))]
  }

  /** With the cap at the very top the saturating sum never exceeds it. */
  lemma {:induction false} SendsGoThrough(limits: BotLimits, mode: Mode, n: nat)
    requires limits.sessionCap == U64_MAX && mode != DryRun
    ensures AfterAttempts(limits, mode, Sends(n)).spent == n * limits.perAttempt
  {
    if n > 0 {
      SendsGoThrough(limits, mode, n - 1);
      assert Front(Sends(n)) == Sends(n - 1);
      OneMoreSend(n - 1, limits.perAttempt);
    }
  }

  /** Spending safety, exactly: every run of attempts, whatever the balances,
      kill file and broker do, stays within the session cap -- and so its counter
      within 64 bits -- if and only if the cap is not the largest value there is
      (or an attempt costs nothing). */
  lemma SpendingSafety(limits: BotLimits, mode: Mode)
    requires mode != DryRun
    ensures (forall ws :: AfterAttempts(limits, mode, ws).spent <= limits.sessionCap)
       <==> (limits.sessionCap < U64_MAX || limits.perAttempt == 0)
    ensures (forall ws :: AfterAttempts(limits, mode, ws).spent <= U64_MAX)
       <==> (limits.sessionCap < U64_MAX || limits.perAttempt == 0)
  {
    if limits.sessionCap < U64_MAX || limits.perAttempt == 0 {
      forall ws
        ensures AfterAttempts(limits, mode, ws).spent <= limits.sessionCap
      {
        WithinTheCap(limits, mode, ws);
      }
    } else {
      SendsGoThrough(limits, mode, U64_MAX + 1);
      ManySends(limits.perAttempt);
      assert AfterAttempts(limits, mode, Sends(U64_MAX + 1)).spent > limits.sessionCap;
    }
  }

  /** The shortest way past the cap: with cap and attempt both at the top of the
      range, two sends send twice the cap. The counter here is unbounded; one of
      64 bits cannot hold what the second send makes of it. */
  lemma TwoSendsPastTheTop(mode: Mode)
    requires mode != DryRun
    ensures AfterAttempts(BotLimits(U64_MAX, U64_MAX, 0), mode, Sends(2)).spent == 2 * U64_MAX
  {
    SendsGoThrough(BotLimits(U64_MAX, U64_MAX, 0), mode, 2);
  }

  lemma ManySends(per: nat)
    requires per > 0
    ensures (U64_MAX + 1) * per > U64_MAX
  {
  }
}
