# The measuring and deciding engine of solana-edge-terminal, in Dafny

The program times the same Solana transaction on several feeds, lets one identical
arbitrage bot per feed judge the same event, and accounts for what each bot would have
done. This project models that engine and proves what it keeps over every run:

- **the race** (`Race.dfy`, `RaceRuns.dfy`, `RaceEpochs.dfy`, `RaceWindow.dfy`, `RaceRows.dfy`,
  `Quantiles.dfy`): an online join of lanes on the transaction signature with eviction, a
  sliding window and two percentile ladders;
- **the decision** (`Whirlpool.dfy`, `Arb.dfy`, `Promise.dfy`, `Pools.dfy`, `Lane.dfy`,
  `LaneRuns.dfy`, `LaneCounts.dfy`): account bytes to price, price to opportunity, what the opportunity
  promises against what it earns, and the double loop over sibling pools and directions with
  its counters;
- **the market table** (`Market.dfy`, `MarketRows.dfy`, `ScreenVsBot.dfy`): a second
  computation over the same prices, what each row says of them, and how far it agrees with
  the bot;
- **the duel book** (`Duel.dfy`, `DuelRuns.dfy`, `DuelViews.dfy`): who saw an event first,
  whatever order the reports were processed in, and what a duel shows;
- **the money** (`Execute.dfy`, `AttemptCounts.dfy`, `Ledger.dfy`, `Engine.dfy`,
  `EngineRuns.dfy`, `EngineOffers.dfy`, `EngineReports.dfy`, `SpendingRuns.dfy`): the gate, the ledger, conservation across all
  lanes, what they spend together, and what they tell the duel book;
- **the price stream** (`Stream.dfy`, `StreamRuns.dfy`, `StreamPrices.dfy`, `WholeRuns.dfy`):
  connect, acknowledge, notify, drop and clear, interleaved with the bots' looks, exactly
  which prices the book holds, and what each ledger row rests on;
- **the rehearsal** (`Rehearse.dfy`, `Roll.dfy`, `Replays.dfy`): a second driver of market
  table and ledger, with a wallet and a 64-bit generator, and why its seed decides it;
- **the capture parser** (`Capture.dfy`): section 3.1 of RFC 791 and the header of RFC 768.

Objects the program mutates are classes here, with loops where it loops; each method is
tied to a function (or, where a hash map's order leaves the result open, a relation) on the
object's state, and the theorems are about every run of those. `dafny verify dfyconfig.toml`
checks everything.

Instants are natural numbers of nanoseconds on one clock, and a lead or head start is a whole
number of nanoseconds. Prices are exact reals. A hash map's iteration order is any order. The
kill file, the wallet balance, the broker's answer, the clock and the frames on a socket are
inputs.

## Where the code and its own words differ

The model follows the code.

- A comment at src/bot/arb.rs:122-123 says rounding each fee up means the answer "can only
  understate the profit". That holds against fees that add up (`Arb.ProfitBound`), not against
  fees that compound: between pools of fee rates 400 and 500, ten thousand lamports can be
  promised 491 and earn less than 490.56 (`Promises.PromisedTooMuch`). For given fee rates and
  margin it holds on every book if and only if rounding the fees up covers what compounding
  takes at the widest plausible gap (`Promises.PromiseNeverTooMuch`). Every accepted trade
  still gains once its fees compound if and only if the margin is at least 24 basis points
  (`Promises.BreakEvenMargin`); the default margin is 5.
- The session cap is meant to bound what is spent. It does for every cap except the largest
  64-bit value, where the saturating sum can never exceed it (`Execute.SpendingSafety`;
  `Execute.TwoSendsPastTheTop` is the shortest run past it). The cap is each lane's own:
  together the lanes can spend one cap each (`SpendingRuns.TotalSpent`,
  `SpendingRuns.CapIsPerLane`).
- The rehearsal's wallet is meant to move exactly when a trade is sent. A trade whose gap only
  just covers its costs is sent for nothing (`Rehearse.WalletMovesOnSurplus`,
  `Rehearse.SentForNothing`).
- A signature is paired at most once per lane only while it is remembered: after an eviction it
  is paired again (`RaceEpochs.ReportedTwice` is such a run). A run reports no pair twice if and
  only if no signature has two lives in which the same lane and the reference both delivered
  (`RaceEpochs.PairedOnceExactly`).
- The market table is meant to agree with the bot. Where the bot can trade at all, it does on
  every book if and only if the pair has no third pool (`ScreenVsBot.RowFollowsPairsOfTwo`):
  with three, the table can show a wider route that does not clear
  (`ScreenVsBot.ThirdPoolRow`) while the bot trades a narrower one that does
  (`ScreenVsBot.FirstTwoTrade`). Its age is in whole milliseconds, so in the last one the bot
  alone refuses (`Market.StaleAgainstFresh`).
- Fragments are meant to be dropped. A first fragment, with offset zero and more to come, is
  accepted (`Capture.FirstFragmentPasses`; `Capture.ParseOfBuilt` holds for all flags).
- The rehearsal says the pools of a pair quote around a shared mid. Each has a mid of its own:
  on the default seed the first two pools, which the demo lists under one pair, part in the
  first tick (`Rehearse.FirstMidsPart`). After any ticks of a session two pools of a pair are
  on one mid if and only if their own steps multiply up to the same (`Rehearse.SessionMids`,
  `Rehearse.MidsAgree`).

## Model

| member | source | states |
|---|---|---|
| Races.Race.constructor | src/race.rs:134-145 | a new race remembers nothing |
| Races.Race.Observe | src/race.rs:148-195 | one arrival pairs each ready lane once, in some order of the map, with the signed lead; the whole new state is a function of the old one and that order |
| Races.Race.Evict | src/race.rs:198-209 | forgets exactly the signatures opened a minute ago or more, and pops the queue's front while it is out of the window |
| Races.Race.Snapshot | src/race.rs:211-258 | one row per lane heard from but the reference, strictly by name, each computed from that lane's own deltas; the tape newest first |
| RaceRuns.ExactlyOnePairPerJoin | src/race.rs:148-195 | over any run of arrivals, in any processing order, exactly one pair is reported per signature and non-reference lane that both it and the reference delivered, its lead the difference of the two first arrivals |
| RaceRuns.InterleavingsAgree | src/race.rs:148-195 | two runs in which each lane delivered the same stream report the same pairs with the same leads |
| RaceEpochs.EntriesAreTheirEpochs | src/race.rs:152-201 | over every run, evictions included, a signature is remembered exactly while a life of it lasts, read off the events alone, and its entry holds that life's opening slot and time and each lane's first arrival |
| RaceEpochs.OnePairPerEpoch | src/race.rs:148-201 | evictions included, what is reported of a signature and lane is, in order, one pair per life in which the lane and the reference both delivered, with that life's slot and difference of first arrivals, and nothing else |
| RaceEpochs.PairedOnceExactly | src/race.rs:166-201 | a run reports no pair twice if and only if no signature has two lives in which the same lane and the reference both delivered |
| RaceEpochs.ReportedTwice | src/race.rs:198-201 | a concrete run, with one sweep and a clock that never runs backwards, that reports the same pair twice |
| RaceRuns.PairedAlways | src/race.rs:162-175 | in every reachable state an entry is paired with all its lanes but the reference once the reference is there, and with none before |
| RaceRuns.BooksAlwaysBalance | src/race.rs:148-209 | evictions included, matched plus still waiting never exceeds what the lane delivered, and matched plus still owed never exceeds what the reference delivered |
| RaceWindow.WindowIsWhatIsYoung | src/race.rs:177-209 | with a clock that never runs backwards the popped queue is exactly every delta ever queued that was inside the window at the last sweep |
| RaceWindow.MatchedIsWindowPlusSwept | src/race.rs:186-207 | a lane's matched count is its row's window count plus its deltas that were swept away |
| RaceWindow.RecentIsTheTail | src/race.rs:188-191 | the tape is the last forty pairs ever completed |
| RaceWindow.RowsPartitionTheWindow | src/race.rs:211-243 | in every reachable state the rows' window counts add up to the queue's length |
| RaceWindow.RowLadders | src/race.rs:221-241 | each row's two ladders rise, the "when ahead" one holds wins only and is rung for rung no lower than the full one |
| RaceWindow.RowShare | src/race.rs:223-234 | the published share is present exactly for a non-empty window and is the nearest tenth of a percent to the wins among its leads |
| RaceRows.RowSpeaksOfItsPairs | src/race.rs:177-243 | over every run, evictions included, with a clock that never runs backwards: a lane's row is of that lane's reported pairs still inside the window at the last sweep; each percentile and rung is the lead of such a pair with its rank counted among their leads, the share counts exactly those pairs the reference won, seen is the lane's arrivals and matched its reported pairs |
| RaceRows.LeadSaysWhoWasFirst | src/race.rs:162-186 | a reported pair's lead is positive if and only if, in the life it was reported in, the reference's first arrival was the earlier one |
| Quantiles.PercentileIsTheOrderStatistic | src/race.rs:125-131 | a percentile is a lead of the window with at most its rung's number of leads below it and more than that many at most it |
| Quantiles.LadderDominance | src/race.rs:69-83 | for every window: both ladders rise, every rung is a lead of the window, led rungs are positive and dominate the full ladder's |
| Quantiles.RungDominance | src/race.rs:125-131 | rounding the smaller ladder's rank and shifting it by the losses never falls behind rounding the larger one's |
| Whirlpool.LeRoundTrip | src/bot/whirlpool.rs:47-50 | a number written little-endian reads back |
| Whirlpool.LeReadBack | src/bot/whirlpool.rs:47-50 | bytes read little-endian write back to themselves |
| Whirlpool.DecodeReadsWhatWasWritten | src/bot/whirlpool.rs:43-60 | decoding reads exactly the fee and price fields whatever surrounds them, and refuses exactly the zero price |
| Whirlpool.DecodesExactly | src/bot/whirlpool.rs:43-60 | an account decodes if and only if it reaches the end of the price and a byte of the price is not zero; its fee rate is the two bytes at offset 45, low first |
| Whirlpool.PriceIsTheScaledSquare | src/bot/whirlpool.rs:54-55 | the price times 2^128 is the square of the stored root times ten to the first token's decimals less the second's, whichever has more |
| Arb.GapIsSymmetric | src/bot/arb.rs:48-62 | the gap is the same whichever way round the prices sit |
| Arb.OneWayIsBackwards | src/bot/arb.rs:94-120 | trying both ways, exactly one is backwards when there is a gap, both when there is none, and the other is implausible exactly when the reported gap is over 500 |
| Arb.AcceptedFacts | src/bot/arb.rs:94-156 | an accepted trade sells the dearer of two fresh prices, its gross is the reported gap, at most 500, and covers both fees, the margin and the network fee |
| Arb.AcceptsExactly | src/bot/arb.rs:114-140 | a fresh, dearer side is sold if and only if the reported gap is plausible, covers fees and margin, and leaves more than the network fee; what is left is the net promised |
| Arb.RefusedExactly | src/bot/arb.rs:94-143 | every refusal if and only if its own condition on the sides, the ages, the reported gap, the ceiling fees, the margin and the network fee |
| Arb.ProfitBound | src/bot/arb.rs:122-140 | net plus network fee is at most the size times the price ratio less one less both pool fees |
| Arb.ProfitIsTight | src/bot/arb.rs:122-140 | the promise is short of the additive figure by less than three basis points of the size and one lamport |
| Promises.CompoundingGap | src/bot/arb.rs:122-131 | the additive figure exceeds the compounded one by exactly gap times fees less ratio times both fees |
| Promises.AcceptedRatio | src/bot/arb.rs:114-120 | an accepted price ratio is above 1 and below 1.0501 |
| Promises.CompoundBound | src/bot/arb.rs:122-140 | the additive figure overstates the compounded round trip by at most the size times the gap times the fees |
| Promises.BreakEvenMargin | src/bot/arb.rs:122-131 | every accepted trade gains once its fees compound if and only if the margin is at least 24 basis points |
| Promises.PromiseNeverTooMuch | src/bot/arb.rs:122-140 | for two fee rates and a margin: no accepted trade on any book is promised more than its legs earn if and only if the two ceiling fees and the margin leave no plausible gap, or what rounding adds to the fees covers what compounding takes at a gap of 500 |
| Promises.PromisedTooMuch | src/bot/arb.rs:122-140 | two concrete accounts at fee rates 400 and 500, accepted at any margin up to 491: 491 lamports are promised and less than 490.56 earned |
| Arb.DecodedGap | src/bot/whirlpool.rs:50-59 | two accounts read with the same decimals are apart by the integer (s1^2 - s2^2) * 10^4 / s2^2, saturated at 64 bits |
| Arb.ReciprocalIsImplausible | src/bot/arb.rs:15-19 | a sibling reading the reciprocal price is refused as implausible exactly from p^2 = 1.0501 on |
| Pools.Find | src/bot/pools.rs:85-87 | the pool found has the address and is listed; none is found exactly when no pool has it |
| Pools.FindIsFirst | src/bot/pools.rs:85-87 | of several pools listed under one address the first is found |
| Pools.PairsAreOnce | src/bot/pools.rs:96-101 | every pair is listed exactly once, in order |
| Lanes.LaneBot.OnTrigger | src/bot/lane.rs:119-218 | the lane's new state and its answer are the functions `Triggered` and `Answer` of the old state, the book, the event and the moment |
| Lanes.LaneBot.Compare | src/bot/lane.rs:132-183 | the sibling loop compares exactly the priced, fresh siblings and gathers the fold over them |
| Lanes.LaneBot.Weigh | src/bot/lane.rs:143-182 | one sibling's gap, counters and both directions |
| LaneRuns.DecisionIsBestOnOffer | src/bot/lane.rs:132-217 | a first look returns the maximum net over every sibling in both directions, one whenever there is one, with its own gap and route; with none, the widest plausible gap; always at most 500 |
| LaneRuns.DecisionIsTheFirst | src/bot/lane.rs:143-178 | of equally good trades a first look returns the one with the sibling listed first, and with none the first listed of the widest plausible gaps |
| LaneRuns.LanesDecideAlike | src/bot/lane.rs:119-131 | two lanes with any pasts answer a first look alike and a repeat with nothing |
| LaneRuns.LaneCountersHold | src/bot/lane.rs:119-205 | over every run: calls are looks plus repeats; looks are acted once and are exactly one of actionable, below cost, unpriced or unknown; stale and backwards are never reasons; implausible is counted once per sibling; best net <= best gap <= 500 and clears the margin once anything was actionable |
| LaneCounts.BestsAreReached | src/bot/lane.rs:148-153 | over every run the best gap is the maximum plausible gap over all first looks and their fresh priced siblings, and the best net the maximum of gap less both ceiling fees over the same, each reached, or zero with none |
| LaneCounts.CountersAreCounts | src/bot/lane.rs:119-205 | over every run each refusal but the backwards one is counted once per first look, sibling and direction that refuses with it, implausible once per sibling too far apart, and each kind of look once per first look of that kind |
| Market.PairRow | src/bot/market.rs:102-152 | the index loops measure the row on the first of the widest gaps between reporting pools of the pair, or leave it blank |
| Market.Snapshot | src/bot/market.rs:92-158 | one right row per pair, stale last, then by what is short, then by name |
| Market.RowIsWidest | src/bot/market.rs:103-126 | a row is priced exactly when two pools report, and its gap is then the maximum over reporting pairs and reached |
| Market.AcceptedWithinRow | src/bot/market.rs:115-124 | any trade the decision accepts between two pools of the pair has a gross gap no wider than the row's |
| Market.StaleAgainstFresh | src/bot/market.rs:117-136 | stale implies not fresh enough; not stale is exactly an age under the limit's next whole millisecond |
| MarketRows.RowSpeaksOfItsRoute | src/bot/market.rs:102-152 | a priced row is of two listed, priced pools of the pair, the first listed of the widest: their gap, labels, ceiling fees and margin and what is short of them; its age is the larger of their two ages, and it is stale if and only if one of them, in whole milliseconds, is over the limit; otherwise it is blank; and it counts the pair's listed and priced pools |
| MarketRows.TablesAlike | src/bot/market.rs:92-158 | the whole table, its order included, is decided by the listed pools' prices, fees and ages: not by the rest of the book nor the moment |
| MarketRows.ClosestFirst | src/bot/market.rs:155-157 | of two rows the later is never the only current one, then never the closer to clearing, then later in the alphabet |
| MarketRows.ClearingRowIsATrade | src/bot/market.rs:127-139 | a row short of nothing with a plausible gap is, sold on the dear side of its route, accepted or too small for the network fee if both prices are fresh to the nanosecond, and refused as stale otherwise; and it is not marked stale if and only if both are fresh up to the limit's last millisecond |
| ScreenVsBot.ReportWithinRow | src/bot/market.rs:108-126 | whatever a lane reports on a pair, trade or not, the pair's row on the same book is priced and at least as wide |
| ScreenVsBot.TwoPoolsAgree | src/bot/market.rs:127-139 | with exactly two reporting pools the row clears and is not stale whenever the bot would trade, on the same gap |
| ScreenVsBot.RowFollowsPairsOfTwo | src/bot/market.rs:108-139 | for any pools and costs: on every book and at every moment the pair's row is short of nothing and not stale whenever the bot is offered a trade on the pair, if and only if the pair has at most two pools or no plausible gap could pay at this size, margin and fee |
| ScreenVsBot.ThirdPoolRow | src/bot/market.rs:122-124 | on a given book of any pair of three pools or more the row shows 515 basis points and is short by 141 plus the margin |
| ScreenVsBot.FirstTwoTrade | src/bot/lane.rs:157-181 | on that same book the bot is offered the 500 basis points between the first two, whenever it can trade at all |
| Duels.DuelBook.Record | src/bot/duel.rs:87-128 | a report opens or extends its key's entry and resettles it; a repeat changes nothing |
| Duels.DuelBook.Settle | src/bot/duel.rs:55-73 | the head start is the second least time less the least, and the gap lost the difference of those two lanes' gaps |
| Duels.DuelBook.Evict | src/bot/duel.rs:130-135 | keeps the entries younger than the limit, and their keys in order |
| Duels.DuelBook.Recent | src/bot/duel.rs:138-145 | at most 250 held duels; where the order lists only held keys, the newest keys' own duels index by index, none left out |
| Duels.DuelBook.Wins | src/bot/duel.rs:148-156 | each lane's count is the number of duels it was first in, and the counts add up to the decided duels |
| Duels.DuelBook.Paired | src/bot/duel.rs:158-160 | counting entry by entry gives the number timed twice or more, which is the number decided where verdicts are there exactly from two lanes on |
| DuelRuns.KeyIsInjective | src/bot/duel.rs:88-92 | a key names one signature and one pool |
| DuelRuns.BookIsAlwaysRight | src/bot/duel.rs:87-135 | in every reachable book the order lists the map's keys once each, views are the timed lanes once each, and a verdict is there exactly from two lanes on and is the right one |
| DuelRuns.DecidedArePaired | src/bot/duel.rs:147-160 | the decided duels, whose number the win counts add up to, are the paired ones |
| DuelRuns.FirstReportsAreHeld | src/bot/duel.rs:87-135 | over every run, sweeps included, a key is held exactly while a life of it lasts, read off the events alone, dated from that life's first report, with each lane's first time and gap in it, whatever came in between |
| DuelRuns.VerdictIgnoresOrder | src/bot/duel.rs:55-73 | runs, sweeps included, whose first reports in the lasting life of a key agree have the same head start, and the same winner and gap lost when the two earliest decisions differ and precede any third |
| DuelRuns.InterleavingsHaveSameFirsts | src/bot/duel.rs:111-119 | before anything is swept, any interleaving of the same per-lane reports has the same first reports |
| DuelRuns.FirstIsTheEarliest | src/bot/duel.rs:59-63 | over every run the winner's first report in the lasting life was decided no later than any other lane's |
| DuelViews.DuelsShowFirstReports | src/bot/duel.rs:96-127 | over every run, sweeps included, a held duel's signature, slot, pair and pool are its life's first report's, and its views are each lane's first report in that life, in order, with that report's gap, route, trade or none, and net |
| DuelViews.VerdictIsOfTheLife | src/bot/duel.rs:55-73 | over every run the verdict is read off the reports alone: none with one lane, else the lane whose first report was delivered first, how long before the next lane's, and the first's gap less the next's, for gaps within 63 bits |
| DuelViews.OrderIsByOpening | src/bot/duel.rs:93-135 | over every run the order vector lists the held keys by the report that opened each one's lasting life |
| Execute.Executor.Attempt | src/bot/execute.rs:88-128 | one attempt's counters and outcome for any kill file, balance and broker answer |
| Execute.AccountsAlwaysHold | src/bot/execute.rs:94-127 | over every run spent is sent times the size of an attempt, and refusals are the sum of their reasons |
| Execute.OffersPartition | src/bot/execute.rs:94-127 | every offer was refused, reached the broker, or stopped dry |
| Execute.DryReachesNothing | src/bot/execute.rs:106-111 | a dry run, or no broker, attempts, sends and spends nothing |
| Execute.GateIsExact | src/bot/execute.rs:96-113 | the broker is reached if and only if there is one, it is no dry run, and none of the three limits refuses |
| Execute.KillFileStopsTheRun | src/bot/config.rs:38-40 | after any run, any further run with the kill file there attempts, sends and spends nothing: only its refusals are counted |
| Execute.SendsAreGated | src/bot/config.rs:37-48 | nothing is sent with the kill file there, the wallet over its ceiling, or past the cap |
| Execute.SpendingSafety | src/bot/config.rs:44-46 | every run stays within the session cap, and equally its counter within 64 bits, if and only if the cap is below the top of the 64-bit range or an attempt costs nothing |
| Execute.TwoSendsPastTheTop | src/bot/config.rs:44-46 | with cap and attempt at the top of the range the gate lets a second send through, and the money sent is twice the cap |
| AttemptCounts.AttemptsAreCounted | src/bot/execute.rs:88-128 | over every run each counter is the number of attempts it says: stopped by the kill file, else by the wallet, else by what the earlier sends leave of the cap; reaching the broker; and answered by it in each way |
| AttemptCounts.AnswerSaysWhy | src/bot/config.rs:37-48 | over every run an attempt's outcome names the limit it met, in that order, or is the broker's own, or says it was a dry run |
| Ledgers.Ledger.Record | src/bot/ledger.rs:67-85 | the totals are those of the whole history and the tape its last 200 trades, newest first |
| Ledgers.TotalsAreHonest | src/bot/ledger.rs:67-82 | realised never exceeds expected, bookings partition the attempts, and best is the widest ever recorded, refusals included |
| Ledgers.OneRowsTotals | src/bot/ledger.rs:67-82 | one row's totals: a dry run, a simulation and a send are expected, only a send is sent and realised, and the rest is refused |
| Ledgers.TotalsAddUp | src/bot/ledger.rs:67-82 | the totals of two histories in one are the sums, and the better best |
| Engine.JudgePool | src/main.rs:513-546 | the bot's answer and counters are those of the look, what was found is attempted and booked as the value-level step says, and the duel book takes in exactly what was found |
| Engine.AttemptAndBook | src/main.rs:530-542 | what was found is attempted, and booked whatever came of it |
| Engine.OfferTrigger | src/main.rs:488-547 | with each lane owning its bot and executor, all lanes' objects, the trigger counts, the ledger and the reports together move exactly as the step `Offered` of the whole system says, and the duel book takes in the reports in order |
| Engine.WordsTellTheBooking | src/main.rs:550-577 | the words in a row's outcome column decide its booking, whatever a broker writes in them |
| EngineOffers.EveryPoolIsLookedAt | src/main.rs:500-524 | a transaction with no listed pool among its keys changes nothing; any other is one trigger of its lane, whose bot looks once at each place that names a listed pool and then remembers exactly those pools with its signature; other lanes' bots stay |
| EngineOffers.RunsLookAtEveryPool | src/main.rs:500-524 | over every run a lane's triggers are its transactions that name a listed pool, its looks and repeats the places that do, and what it acted on exactly what they touched |
| EngineRuns.AttemptIsBooked | src/main.rs:550-560 | counters move exactly as the booking of the outcome says |
| EngineRuns.LanesAlwaysBalance | src/main.rs:488-547 | over every run, per lane: actionable = offered = its ledger rows, sent = its realised rows, simulated ok = its rows booked so, triggers <= looks + repeats, failures = its empty rows unless a broker refuses by itself |
| EngineRuns.MoneyIsConserved | src/main.rs:488-560 | summed over lanes: actionable and offered are the ledger's attempts, sent its sends, simulated ok its rows booked so, failures its refusals for such brokers; realised <= expected |
| EngineRuns.SpendingMatchesTheLedger | src/bot/execute.rs:119-124 | over every run each executor spent its lane's realised rows times the size of an attempt, within every cap below the top of the 64-bit range |
| SpendingRuns.TotalSpent | src/bot/execute.rs:119-124 | over every run all lanes together spent the ledger's sends times the size of an attempt, at most one cap per lane below the top of the range |
| SpendingRuns.OneCapEach | src/bot/config.rs:44-46 | in any live session whose cap is one attempt and that can be offered a trade, some run has every lane spend its cap, so that bound is reached |
| SpendingRuns.CapIsPerLane | src/bot/config.rs:44-46 | a concrete session in which any set of lanes together spends one cap each |
| EngineRuns.RowsAreTrades | src/main.rs:524-543 | over every run each ledger row is a trade of the session's size whose gross clears the margin, is plausible and leaves a profit |
| EngineRuns.NothingIsEverSent | src/main.rs:527-530 | with no broker, as wired, every run sends and realises nothing |
| EngineReports.LanesTellTruly | src/main.rs:516-544 | over every run each lane's reports to the duel book number its looks counted actionable or below cost, and no lane reports an event twice |
| EngineReports.ReportsAreDecisions | src/main.rs:508-544 | over every run each report is by the lane its transaction came on, and is in every field what a look at one of its keys decides on the book it met, with its slot and delivery time |
| EngineReports.EveryReportCounts | src/bot/duel.rs:108-119 | fed by the lanes, and whatever sweeps come in between, the duel book's repeat rule never fires: every report times a lane not timed on its event before |
| Stream.PriceFeed.OnAck | src/bot/prices.rs:231-236 | an acknowledgement maps its subscription to the request before, and id zero to nothing |
| Stream.PriceFeed.OnNotification | src/bot/prices.rs:237-247 | a notification writes the price of the pool its subscription was acknowledged for, or nothing |
| Stream.PriceFeed.Absorb | src/bot/prices.rs:79-93 | an account that does not decode leaves the book alone |
| Stream.PriceFeed.Connect | src/bot/prices.rs:202-212 | a connection starts with no attribution |
| Stream.PriceFeed.Drop | src/bot/prices.rs:216-230 | a stream that ends takes its attributions with it, and leaves the book to be cleared |
| Stream.PriceFeed.ClearBook | src/bot/prices.rs:184-188 | after a drop the book is emptied |
| Stream.Watched.AbsorbAck | src/rpc_lane.rs:153-166 | only a request that was made is attributed |
| StreamRuns.PricesHaveProvenance | src/bot/prices.rs:184-248 | over every interleaving, each price in the book is that pool's decoding of the last frame that wrote it, which came in on the latest connection, on the subscription last acknowledged for exactly that pool |
| StreamPrices.BookIsWhatWasDelivered | src/bot/prices.rs:184-248 | over every run, from the steps alone: the book holds a price for a pool if and only if some step notified, with bytes that decode, a subscription last acknowledged on its connection for a pool listed at that address, and since then the book was neither cleared nor given another price of it |
| StreamPrices.NotifiedReprices | src/bot/prices.rs:237-243 | what a notification reprices is the account the price side attributes its subscription to, the side `StreamRuns.SidesAgree` compares |
| StreamPrices.SubsAreTheAcks | src/bot/prices.rs:202-236 | what notifications are read through is the map that the open connection's acknowledgements make |
| StreamRuns.OpportunitiesRestOnOwnFreshPrices | src/bot/lane.rs:127-142 | with a server that keeps subscription ids apart, every opportunity rests on two prices from their own accounts' bytes, on the latest connection, no older than allowed |
| StreamRuns.OutagesAnswerNothing | src/bot/prices.rs:184-188 | once the book of a lost connection is cleared, and until a new one opens, nobody is answered |
| StreamRuns.DroppedStillAnswers | src/bot/prices.rs:184-188 | between the drop and the clearing a look is answered as it was before the drop |
| WholeRuns.RowsRestOnOwnFreshPrices | src/main.rs:505-543 | over every interleaving of stream steps and transactions, each ledger row was booked at a transaction touching one of its pools, with that pool's pair and that look's moment, and rests on two prices from their own accounts' bytes, on the latest connection, no older than allowed at that look |
| StreamRuns.SidesAgree | src/rpc_lane.rs:162-164 | price side and lane side attribute a subscription alike except exactly when a request never made is acknowledged over one that was |
| Rolls.ShuffleIsInvertible | src/rehearse.rs:30-36 | each generator step can be undone |
| Rolls.NeverZero | src/rehearse.rs:26-38 | the state never becomes zero |
| Rolls.Roll.Upto | src/rehearse.rs:41-47 | the scrambled next word modulo the range, one step on; zero, and no step, for an empty range |
| Rolls.Roll.Drift | src/rehearse.rs:50-52 | a value at most the span from zero, drawn from the next word |
| Rehearse.Rehearsal.PlayRow | src/rehearse.rs:163-213 | one event is one ledger row, one row of the tape and the takings of a clearing one, with the draws it takes; one with no surplus is taken and leaves the wallet alone |
| Rehearse.PlaysAreRows | src/rehearse.rs:157-165 | what is played of a table are rows of it, in its order, priced and not stale, with a head start of 18 to 81 ms and something lost exactly where the row clears |
| Rehearse.Rehearsal.WalkPrices | src/rehearse.rs:126-146 | every pool's mid takes the step and its deviation the noise and shock drawn from its own word, each pool four or six draws after the one before, and the last listed of an address is priced at what they make, at its fee tier, as old as drawn, less than 0.9 s |
| Rehearse.DevReverts | src/rehearse.rs:128-137 | a deviation keeps 55 percent of itself to within a fifth of a basis point, unless a shock is drawn, which moves it by 19.8 basis points at least and 69.2 at most |
| Rehearse.StaysNear | src/rehearse.rs:128-137 | reversion beats the shocks: a deviation within 1.54 percent stays within it |
| Rehearse.SteadyPrices | src/rehearse.rs:138-146 | so every walked price is positive and within 1.54 percent of its mid |
| Rehearse.RunRehearsal | src/main.rs:165-171 | a session starts as its seed and pools say and moves by one tick after another, and its wallet is what it started with and the ledger's realised |
| Rehearse.SessionMids | src/rehearse.rs:119-127 | in every session each mid is its pair's starting price and its own pool's steps, drawn tick by tick from the seed's words |
| Replays.SameSeedSameWallet | src/main.rs:165-171 | any two rehearsals of one seed and as many ticks end with the same wallet |
| Replays.SameSeedSameSession | src/rehearse.rs:22-39 | the same seed and pools replay the same session tick by tick -- prices, counters, events, ledger and tape -- whatever the clock reads at each tick |
| Rehearse.MidsAgree | src/rehearse.rs:119-127 | two mids from one starting price are equal after as many ticks if and only if their steps multiply up to the same |
| Rehearse.FirstSteps | src/rehearse.rs:126-127 | on seed 1, the default, the first two pools' mids step by -3 and 2 in 100 000 in the first tick |
| Rehearse.FirstMidsPart | src/rehearse.rs:119-127 | on seed 1, two first pools of one pair have different mids after the first tick of the session |
| Rehearse.Rehearsal.Step | src/rehearse.rs:110-219 | one tick is the relation `TickedOn`, and over any steps: wallet = started + realised, taken = sent, spent = 5000 per take, taken <= pairs per tick, at most 250 duels, every mid positive and every deviation within 1.54 percent, and the screen's subtraction cannot go below zero |
| Rehearse.DemoPairsAreSeven | src/bot/pools.rs:43-64 | the demo pools make seven pairs at most, so at most seven takes a tick |
| Rehearse.WalletMovesOnSurplus | src/rehearse.rs:176-186 | a row moves the wallet exactly when its gap is more than what it has to beat, and then by 25 000 lamports a basis point less the 5 000 of the network fee |
| Rehearse.SentForNothing | src/rehearse.rs:177-182 | prices the walk can make of the demo's first pair whose row clears on just the 11 basis points it has to beat, and is sent for nothing |
| Capture.ParseOfBuilt | src/capture.rs:54-95 | for every header length, options, flags, payload and padding, a built packet parses to exactly what was put in when it is wanted, else to nothing |
| Capture.FirstFragmentPasses | src/capture.rs:67-69 | a concrete first fragment, with more to come, is accepted |
| Capture.PaddingIsIgnored | src/capture.rs:80-87 | bytes after the IP total length never change the result |
| Capture.AcceptedWasBuilt | src/capture.rs:54-95 | what is accepted whole is exactly a built packet and its padding |
| Capture.CutParses | src/capture.rs:80-94 | cutting a packet anywhere past its headers leaves verdict, sender and port as they were and cuts the payload there; cutting it earlier leaves nothing |
| Capture.AcceptedWasCut | src/capture.rs:54-95 | what is accepted cut short of its own total length is the beginning of a built packet that is wanted, with as much payload as arrived |

## Left out

- Rounding of f64, NaN and infinities: prices are exact reals and leads whole nanoseconds, so the finiteness checks have no counterpart and a percentile or share is rounded exactly.
- Widths of counters: counts, ledger sums, the wallet, and fee-plus-margin sums are unbounded; widths are modelled where the code saturates or converts (the gap, the gain, ages, the cap, the signed gap of a view).
- Lanes.LaneBot.OnTrigger: reads one unchanging price book per look, while the program takes the book's lock once per price; the same holds for one market table.
- Engine.OfferTrigger: judges all the pools one transaction touches on one book, each at its own moment, while prices may arrive in between.
- Sockets, threads, reconnect delays, TLS and timeouts: only the order of the stream's steps is kept, and a ping or an unparsable frame is no step at all.
- Execute.TwoSendsPastTheTop: the counter of what was spent is unbounded here, while the program's 64-bit one overflows at the second send.
- JSON, base64 and base58 text: acknowledgements, notifications and account keys are records; a pool address is a string without a vertical bar.
- Shred decoding and deshredding (src/pipeline.rs): a seen transaction is an input record.
- The dashboard, the snapshot writer, command-line parsing, log scrubbing and the source list: presentation and plumbing.
- The reading rows of single pools (src/bot/market.rs:49-89): a map and a sort over the same table.
- Rehearse.Rehearsal.Step: of the screen it keeps the numbers that are subtracted, counted or drawn; the rest is constants, multiples and text, a ledger row's arrow and hexadecimal slot among it.
- The demo pool addresses: only the pairs matter here, and that labels differ within a pair and addresses differ is a premise where it is used.
- Uptime and the elapsed seconds printed beside a race or a trade's age: display only.
- Replays.SameSeedSameSession: is stated for ticks at least 0.9 s into the clock, since before that the program cannot subtract a drawn age at all; the seconds printed beside a row are left out as everywhere.
- Rehearse.DemoPairsAreSeven: is stated for any pools whose pairs are the demo's in the demo's order, because the addresses are not part of this model.
