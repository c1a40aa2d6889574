/** An executor's counters over every run, each as what it counts: attempts,
    read off the kill file, the balances and the broker's answers alone. */
module AttemptCounts {
  import opened Prelude
  import opened Execute

  // ----- which attempt meets which limit -----

  ghost predicate MeetsKill(ws: seq<World>, i: nat) { i < |ws| && ws[i].killed }

  ghost predicate MeetsWallet(limits: BotLimits, ws: seq<World>, i: nat) {
    i < |ws| && !ws[i].killed && ws[i].balance > limits.maxWallet
  }

  /** What the earlier sends leave of the cap is less than an attempt. At the top
      of the range the sum saturates and nothing is ever past the cap. */
  ghost predicate MeetsCap(limits: BotLimits, mode: Mode, ws: seq<World>, i: nat)
    decreases i, 1
  {
    && i < |ws| && !ws[i].killed && ws[i].balance <= limits.maxWallet
    && limits.sessionCap < U64_MAX
    && (|SendsBefore(limits, mode, ws, i)| + 1) * limits.perAttempt > limits.sessionCap
  }

  ghost predicate Reaches(limits: BotLimits, mode: Mode, ws: seq<World>, i: nat)
    decreases i, 2
  {
    && i < |ws| && !ws[i].killed && ws[i].balance <= limits.maxWallet && !MeetsCap(limits, mode, ws, i)
    && ws[i].answer.Some? && mode != DryRun
  }

  ghost predicate Sends(limits: BotLimits, mode: Mode, ws: seq<World>, i: nat)
    decreases i, 3
  {
    Reaches(limits, mode, ws, i) && ws[i].answer.value.Sent?
  }

  ghost function SendsBefore(limits: BotLimits, mode: Mode, ws: seq<World>, n: nat): set<nat>
    decreases n, 0
  {
    set i: nat | i < n && Sends(limits, mode, ws, i)
  }

  // ----- the counters -----

  ghost function KillsBefore(ws: seq<World>, n: nat): set<nat> { set i: nat | i < n && MeetsKill(ws, i) }

  ghost function WalletsBefore(limits: BotLimits, ws: seq<World>, n: nat): set<nat> {
    set i: nat | i < n && MeetsWallet(limits, ws, i)
  }

  ghost function CapsBefore(limits: BotLimits, mode: Mode, ws: seq<World>, n: nat): set<nat> {
    set i: nat | i < n && MeetsCap(limits, mode, ws, i)
  }

  ghost function ReachesBefore(limits: BotLimits, mode: Mode, ws: seq<World>, n: nat): set<nat> {
    set i: nat | i < n && Reaches(limits, mode, ws, i)
  }

  /** The attempts the broker answered in this way. */
  ghost function AnsweredBefore(limits: BotLimits, mode: Mode, ws: seq<World>, n: nat, how: Outcome -> bool): set<nat> {
    set i: nat | i < n && Reaches(limits, mode, ws, i) && how(ws[i].answer.value)
  }

  function Passed(): Outcome -> bool { (o: Outcome) => o.Simulated? && o.ok }
  function Failed(): Outcome -> bool { (o: Outcome) => o.Simulated? && !o.ok }
  function Unbuilt(): Outcome -> bool { (o: Outcome) => o.Skipped? && o.reason.BuildFailed? }

  ghost predicate CountsLimits(limits: BotLimits, mode: Mode, ws: seq<World>, n: nat, s: ExecutionStats) {
    && s.offered == n
    && s.refusedKilled == |KillsBefore(ws, n)|
    && s.refusedWallet == |WalletsBefore(limits, ws, n)|
    && s.refusedCap == |CapsBefore(limits, mode, ws, n)|
    && s.refused == s.refusedKilled + s.refusedWallet + s.refusedCap
  }

  ghost predicate CountsAnswers(limits: BotLimits, mode: Mode, ws: seq<World>, n: nat, s: ExecutionStats) {
    && s.attempted == |ReachesBefore(limits, mode, ws, n)|
    && s.sent == |SendsBefore(limits, mode, ws, n)|
    && s.spent == |SendsBefore(limits, mode, ws, n)| * limits.perAttempt
    && s.simulatedOk == |AnsweredBefore(limits, mode, ws, n, Passed())|
    && s.simulatedFailed == |AnsweredBefore(limits, mode, ws, n, Failed())|
    && s.buildFailed == |AnsweredBefore(limits, mode, ws, n, Unbuilt())|
  }

  lemma OneMore(before: set<nat>, after: set<nat>, n: nat, hit: bool)
    requires n !in before && forall i :: i in after <==> i in before || (hit && i == n)
    ensures |after| == |before| + if hit then 1 else 0
  {
    assert after == before + if hit then {n} else {};
  }

  lemma KillsGrow(ws: seq<World>, n: nat)
    ensures |KillsBefore(ws, n + 1)|
         == |KillsBefore(ws, n)| + if MeetsKill(ws, n) then 1 else 0
  {
    OneMore(KillsBefore(ws, n), KillsBefore(ws, n + 1), n, MeetsKill(ws, n));
  }

  lemma WalletsGrow(limits: BotLimits, ws: seq<World>, n: nat)
    ensures |WalletsBefore(limits, ws, n + 1)|
         == |WalletsBefore(limits, ws, n)| + if MeetsWallet(limits, ws, n) then 1 else 0
  {
    OneMore(WalletsBefore(limits, ws, n), WalletsBefore(limits, ws, n + 1), n, MeetsWallet(limits, ws, n));
  }

  lemma CapsGrow(limits: BotLimits, mode: Mode, ws: seq<World>, n: nat)
    ensures |CapsBefore(limits, mode, ws, n + 1)|
         == |CapsBefore(limits, mode, ws, n)| + if MeetsCap(limits, mode, ws, n) then 1 else 0
  {
    OneMore(CapsBefore(limits, mode, ws, n), CapsBefore(limits, mode, ws, n + 1), n, MeetsCap(limits, mode, ws, n));
  }

  lemma ReachesGrow(limits: BotLimits, mode: Mode, ws: seq<World>, n: nat)
    ensures |ReachesBefore(limits, mode, ws, n + 1)|
         == |ReachesBefore(limits, mode, ws, n)| + if Reaches(limits, mode, ws, n) then 1 else 0
  {
    OneMore(ReachesBefore(limits, mode, ws, n), ReachesBefore(limits, mode, ws, n + 1), n,
            Reaches(limits, mode, ws, n));
  }

  lemma SendsGrow(limits: BotLimits, mode: Mode, ws: seq<World>, n: nat)
    ensures |SendsBefore(limits, mode, ws, n + 1)|
         == |SendsBefore(limits, mode, ws, n)| + if Sends(limits, mode, ws, n) then 1 else 0
  {
    OneMore(SendsBefore(limits, mode, ws, n), SendsBefore(limits, mode, ws, n + 1), n, Sends(limits, mode, ws, n));
  }

  lemma AnsweredGrow(limits: BotLimits, mode: Mode, ws: seq<World>, n: nat, how: Outcome -> bool)
    ensures |AnsweredBefore(limits, mode, ws, n + 1, how)| == |AnsweredBefore(limits, mode, ws, n, how)|
              + if Reaches(limits, mode, ws, n) && how(ws[n].answer.value) then 1 else 0
  {
    OneMore(AnsweredBefore(limits, mode, ws, n, how), AnsweredBefore(limits, mode, ws, n + 1, how), n,
            Reaches(limits, mode, ws, n) && how(ws[n].answer.value));
  }

  /** Over every run: an attempt counts as refused by the kill file whenever the
      file is there, else by the wallet whenever it holds too much, else by the
      cap whenever the earlier sends leave less than an attempt of it; the rest
      reach the broker, if there is one and this is no dry run, and each of its
      answers is counted as what it says. */
  lemma {:induction false} AttemptsAreCounted(limits: BotLimits, mode: Mode, ws: seq<World>, n: nat)
    requires n <= |ws|
    ensures CountsLimits(limits, mode, ws, n, AfterAttempts(limits, mode, ws[..n]))
    ensures CountsAnswers(limits, mode, ws, n, AfterAttempts(limits, mode, ws[..n]))
  {
    if n == 0 {
      NothingBefore(limits, mode, ws);
    } else {
      var s := AfterAttempts(limits, mode, ws[..n - 1]);
      assert Front(ws[..n]) == ws[..n - 1] && Last(ws[..n]) == ws[n - 1];
      AttemptsAreCounted(limits, mode, ws, n - 1);
      LimitsCounted(limits, mode, ws, n - 1, s);
      AnswersCounted(limits, mode, ws, n - 1, s);
    }
  }

  lemma NothingBefore(limits: BotLimits, mode: Mode, ws: seq<World>)
    ensures CountsLimits(limits, mode, ws, 0, NO_EXECUTION) && CountsAnswers(limits, mode, ws, 0, NO_EXECUTION)
  {
    assert KillsBefore(ws, 0) == WalletsBefore(limits, ws, 0) == CapsBefore(limits, mode, ws, 0) == {};
    assert ReachesBefore(limits, mode, ws, 0) == SendsBefore(limits, mode, ws, 0) == {};
    assert forall how :: AnsweredBefore(limits, mode, ws, 0, how) == {};
  }

  lemma LimitsCounted(limits: BotLimits, mode: Mode, ws: seq<World>, n: nat, s: ExecutionStats)
    requires n < |ws| && CountsLimits(limits, mode, ws, n, s)
    requires s.spent == |SendsBefore(limits, mode, ws, n)| * limits.perAttempt
    ensures CountsLimits(limits, mode, ws, n + 1, Attempted(limits, mode, s, ws[n]).0)
  {
    KillsGrow(ws, n);
    WalletsGrow(limits, ws, n);
    CapsGrow(limits, mode, ws, n);
    OneMoreSend(|SendsBefore(limits, mode, ws, n)|, limits.perAttempt);
  }

  lemma AnswersCounted(limits: BotLimits, mode: Mode, ws: seq<World>, n: nat, s: ExecutionStats)
    requires n < |ws| && CountsAnswers(limits, mode, ws, n, s)
    ensures CountsAnswers(limits, mode, ws, n + 1, Attempted(limits, mode, s, ws[n]).0)
  {
    ReachesGrow(limits, mode, ws, n);
    SendsGrow(limits, mode, ws, n);
    AnsweredGrow(limits, mode, ws, n, Passed());
    AnsweredGrow(limits, mode, ws, n, Failed());
    AnsweredGrow(limits, mode, ws, n, Unbuilt());
    OneMoreSend(|SendsBefore(limits, mode, ws, n)|, limits.perAttempt);
  }

  /** What this attempt answers. */
  ghost function Answer(limits: BotLimits, mode: Mode, ws: seq<World>, n: nat): Outcome
    requires n < |ws|
  {
    if MeetsKill(ws, n) then Skipped(Limit(Killed))
    else if MeetsWallet(limits, ws, n) then Skipped(Limit(WalletTooLarge))
    else if MeetsCap(limits, mode, ws, n) then Skipped(Limit(SessionCap))
    else if Reaches(limits, mode, ws, n) then ws[n].answer.value
    else Skipped(WasDryRun)
  }

  /** An attempt says which limit it met, or it is the broker's own answer, or
      says it was a dry run. */
  lemma AnswerSaysWhy(limits: BotLimits, mode: Mode, ws: seq<World>, n: nat)
    requires n < |ws|
    ensures Attempted(limits, mode, AfterAttempts(limits, mode, ws[..n]), ws[n]).1 == Answer(limits, mode, ws, n)
  {
    AttemptsAreCounted(limits, mode, ws, n);
    WhySo(limits, mode, ws, n, AfterAttempts(limits, mode, ws[..n]));
  }

  lemma WhySo(limits: BotLimits, mode: Mode, ws: seq<World>, n: nat, s: ExecutionStats)
    requires n < |ws| && s.spent == |SendsBefore(limits, mode, ws, n)| * limits.perAttempt
    ensures Attempted(limits, mode, s, ws[n]).1 == Answer(limits, mode, ws, n)
  {
    OneMoreSend(|SendsBefore(limits, mode, ws, n)|, limits.perAttempt);
  }
}
