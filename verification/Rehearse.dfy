/** The rehearsal (src/rehearse.rs): a second driver of the same market table
    and ledger, with a wallet of its own and a 64-bit generator for noise. The
    prices it walks are exact reals, and every pool has a mid of its own. */
module Rehearse {
  import opened Prelude
  import opened Whirlpool
  import opened Arb
  import opened Pools
  import opened Ledgers
  import opened Market
  import opened Rolls

  const FAST: string := "doublezero"
  const TAKE_PER_SEND: nat := 5_000
  const SIZE: nat := 250_000_000
  const DUELS_KEPT: nat := 250

  // ----- the money of one row -----

  /** What one row that clears is sent for: the gap beyond what it has to beat,
      on the fixed size, less the network fee. */
  function NetOf(row: MarketRow): nat {
    if row.shortByBps == 0 then SatSub(SIZE / 10_000 * SatSub(row.gapBps, row.needsBps), TAKE_PER_SEND) else 0
  }

  /** A row that clears is sent; the wallet moves exactly when the gap is more
      than what it has to beat, so a trade can be sent for nothing; and then each
      basis point beyond is worth 25 000 lamports, less one network fee of 5 000. */
  lemma WalletMovesOnSurplus(row: MarketRow)
    ensures NetOf(row) > 0 <==> row.shortByBps == 0 && row.gapBps > row.needsBps
    ensures NetOf(row) > 0 ==> NetOf(row) + 5_000 == 25_000 * (row.gapBps - row.needsBps)
  {
  }

  function PoolFee(index: nat): nat { [200, 400, 500, 1600, 3000][index % 5] }

  /** The price its mid and deviation make, its fee tier, and an age under 0.9 s. */
  ghost predicate Walked(pools: seq<Pool>, book: Book, i: nat, m: real, d: real, slot: nat, now: Instant)
    requires i < |pools|
  {
    && pools[i].address in book
    && book[pools[i].address].state == PoolState(m * (1.0 + d), PoolFee(i))
    && book[pools[i].address].slot == slot
    && SatSub(now, book[pools[i].address].at) < 900 * NANOS_PER_MILLI
  }

  /** A mid moves by at most four parts in a hundred thousand. */
  predicate Drifts(from: real, to: real) { 0.99996 * from <= to <= 1.00004 * from }

  lemma DriftsBy(mid: real, step: int)
    requires mid > 0.0 && -4 <= step <= 4
    ensures Drifts(mid, Stepped(mid, step))
  {
    SmallPart(mid, step as real / 100000.0);
  }

  lemma SmallPart(mid: real, more: real)
    requires mid > 0.0 && -0.00004 <= more <= 0.00004
    ensures Drifts(mid, Grown(mid, more))
  {
    NotNegative(mid, 0.00004 - more);
    NotNegative(mid, more + 0.00004);
  }

  /** A deviation keeps 55 percent of itself, and is moved by ordinary noise and
      at most one shock of under 70 basis points. */
  predicate Reverts(from: real, to: real) { 0.55 * from - 0.00692 <= to <= 0.55 * from + 0.00692 }

  /** How far a pool can ever stray from its mid: 1.54 percent. */
  const STRAY: real := 0.0154

  predicate Near(dev: real) { -STRAY <= dev <= STRAY }

  /** Reversion beats the shocks: a deviation within the bound stays within it. */
  lemma StaysNear(from: real, to: real)
    requires Near(from) && Reverts(from, to)
    ensures Near(to)
  {
  }

  ghost predicate Steady(mid: seq<real>, dev: seq<real>, n: nat) {
    |mid| == |dev| == n && forall i :: 0 <= i < n ==> mid[i] > 0.0 && Near(dev[i])
  }

  /** Every price of a steady walk is positive and within the bound of its mid. */
  lemma SteadyPrices(mid: seq<real>, dev: seq<real>, n: nat, i: nat)
    requires Steady(mid, dev, n) && i < n
    ensures 0.0 < mid[i] * (1.0 - STRAY) <= mid[i] * (1.0 + dev[i]) <= mid[i] * (1.0 + STRAY)
  {
  }

  // ----- the walk, as a function of the generator's state -----

  /** How often one pool draws: a step, noise, whether there is a shock, its age,
      and two draws for the shock itself. */
  function Draws(word: bv64): nat { if UptoOf(Shuffled(word, 2), 400) == 0 then 6 else 4 }

  /** The state one pool leaves behind, said of every number of draws, so that it
      is only looked into where some number is named. */
  ghost predicate PoolDrew(word: bv64, after: bv64) {
    forall n: nat {:trigger Shuffled(word, n)} :: n == Draws(word) ==> after == Shuffled(word, n)
  }

  lemma PoolIsDrawn(word: bv64, after: bv64)
    requires after == Shuffled(word, Draws(word))
    ensures PoolDrew(word, after)
  {
  }

  /** The states the pools of one tick draw from, and the one left at the end. */
  ghost predicate TickDrew(words: seq<bv64>) {
    words != [] && forall i :: 0 <= i < |words| - 1 ==> PoolDrew(words[i], words[i + 1])
  }

  /** What becomes of a deviation: 55 percent of it and the ordinary noise, and
      now and then a shock of 20 to 69 basis points, up or down. */
  function DevOf(word: bv64, dev: real): real {
    var calm := dev * 0.55 + DriftOf(Shuffled(word, 1), 2) as real / 100000.0;
    if Draws(word) == 4 then calm else
      var shock := (20 + UptoOf(Shuffled(word, 3), 50)) as real / 10000.0;
      calm + if UptoOf(Shuffled(word, 4), 2) == 0 then shock else -shock
  }

  /** The age, in milliseconds, is drawn last. */
  function AgeOf(word: bv64): nat { UptoOf(Shuffled(word, Draws(word) - 1), 900) }

  /** A deviation always reverts; and off its 55 percent it is by a fifth of a
      basis point at most, unless this was the one second in four hundred. */
  lemma DevReverts(word: bv64, dev: real)
    ensures Reverts(dev, DevOf(word, dev))
    ensures UptoOf(Shuffled(word, 2), 400) != 0 ==> -0.00002 <= DevOf(word, dev) - 0.55 * dev <= 0.00002
    ensures UptoOf(Shuffled(word, 2), 400) == 0 ==>
              0.00198 <= DevOf(word, dev) - 0.55 * dev || DevOf(word, dev) - 0.55 * dev <= -0.00198
  {
  }

  /** How many parts in a hundred thousand a mid steps by. */
  function StepOf(word: bv64): (step: int)
    ensures -4 <= step <= 4
  {
    DriftOf(word, 4)
  }

  function Grown(x: real, share: real): real { x * (1.0 + share) }

  function Stepped(mid: real, step: int): real { Grown(mid, step as real / 100000.0) }

  /** The first `n` mids have taken the steps drawn from these states. */
  ghost predicate Moved(from: seq<real>, to: seq<real>, words: seq<bv64>, n: nat) {
    && |to| == |from| && n <= |from| && n <= |words|
    && (forall i :: 0 <= i < n ==> to[i] == Stepped(from[i], StepOf(words[i])))
    && (forall i :: n <= i < |from| ==> to[i] == from[i])
  }

  lemma MovedOne(from: seq<real>, mid: seq<real>, words: seq<bv64>, n: nat, after: bv64)
    requires Moved(from, mid, words, n) && n < |from| && |words| == n + 1
    ensures Moved(from, mid[n := Stepped(mid[n], StepOf(words[n]))], words + [after], n + 1)
  {
  }

  lemma MovedDrifts(from: seq<real>, to: seq<real>, words: seq<bv64>, n: nat)
    requires Moved(from, to, words, n) && forall i :: 0 <= i < n ==> from[i] > 0.0
    ensures forall i :: 0 <= i < n ==> Drifts(from[i], to[i])
  {
    forall i | 0 <= i < n
      ensures Drifts(from[i], to[i])
    {
      DriftsBy(from[i], StepOf(words[i]));
    }
  }

  /** And so have the first `n` deviations. */
  ghost predicate Swayed(from: seq<real>, to: seq<real>, words: seq<bv64>, n: nat) {
    && |to| == |from| && n <= |from| && n <= |words|
    && (forall i :: 0 <= i < n ==> to[i] == DevOf(words[i], from[i]))
    && (forall i :: n <= i < |from| ==> to[i] == from[i])
  }

  lemma SwayedOne(from: seq<real>, dev: seq<real>, words: seq<bv64>, n: nat, after: bv64)
    requires Swayed(from, dev, words, n) && n < |from| && |words| == n + 1
    ensures Swayed(from, dev[n := DevOf(words[n], dev[n])], words + [after], n + 1)
  {
  }

  lemma SwayedReverts(from: seq<real>, to: seq<real>, words: seq<bv64>, n: nat)
    requires Swayed(from, to, words, n)
    ensures forall i :: 0 <= i < n ==> Reverts(from[i], to[i])
  {
    forall i | 0 <= i < n
      ensures Reverts(from[i], to[i])
    {
      DevReverts(words[i], from[i]);
    }
  }

  /** The price of the i-th pool, exactly, as old as was drawn. */
  ghost predicate Quoted(pools: seq<Pool>, book: Book, i: nat, m: real, d: real, word: bv64, slot: nat, now: Instant)
    requires i < |pools|
  {
    && pools[i].address in book
    && book[pools[i].address]
       == Priced(PoolState(m * (1.0 + d), PoolFee(i)), slot, SatSub(now, AgeOf(word) * NANOS_PER_MILLI))
  }

  /** No pool listed after it, and before `n`, has its address. */
  ghost predicate LastListed(pools: seq<Pool>, i: nat, n: nat)
    requires i < n <= |pools|
  {
    forall j :: i < j < n ==> pools[j].address != pools[i].address
  }

  /** The first `n` pools are priced; of those with one address, the last. */
  ghost predicate AllQuoted(pools: seq<Pool>, book: Book, mid: seq<real>, dev: seq<real>, words: seq<bv64>,
                            slot: nat, now: Instant, n: nat) {
    n <= |pools| && n <= |mid| && n <= |dev| && n <= |words| &&
    forall i :: 0 <= i < n && LastListed(pools, i, n) ==>
      Quoted(pools, book, i, mid[i], dev[i], words[i], slot, now)
  }

  lemma QuotedOne(pools: seq<Pool>, before: Book, mid: seq<real>, dev: seq<real>, words: seq<bv64>,
                  slot: nat, now: Instant, n: nat, book: Book, m: real, d: real, after: bv64)
    requires AllQuoted(pools, before, mid, dev, words, slot, now, n)
    requires n < |pools| && |words| == n + 1 && n < |mid| && n < |dev|
    requires Quoted(pools, book, n, m, d, words[n], slot, now)
    requires OthersKept(before, book, pools[n].address)
    ensures AllQuoted(pools, book, mid[n := m], dev[n := d], words + [after], slot, now, n + 1)
  {
    forall i | 0 <= i < n && LastListed(pools, i, n + 1)
      ensures Quoted(pools, book, i, mid[i], dev[i], words[i], slot, now)
    {
      assert LastListed(pools, i, n);
      assert pools[i].address != pools[n].address;
    }
  }

  ghost predicate OthersKept(before: Book, book: Book, address: Pubkey) {
    forall a :: a != address ==> (a in book <==> a in before) && (a in book && a in before ==> book[a] == before[a])
  }

  lemma QuotedWalks(pools: seq<Pool>, book: Book, i: nat, m: real, d: real, word: bv64, slot: nat, now: Instant)
    requires i < |pools| && Quoted(pools, book, i, m, d, word, slot, now)
    ensures Walked(pools, book, i, m, d, slot, now)
  {
    assert AgeOf(word) < 900;
  }

  /** Where a pair starts. */
  function SeedPrice(pair: string): real {
    match pair
    case "SOL/USDC" => 104.5
    case "JUP/SOL" => 0.0021
    case "SOL/BONK" => 32000000.0
    case "SOL/JLP" => 23.2
    case "SOL/FART" => 604.0
    case "MEW/SOL" => 0.000031
    case _ => 0.0012
  }

  function SeedPrices(pools: seq<Pool>): seq<real> {
    seq(|pools|, i requires 0 <= i < |pools| => SeedPrice(pools[i].pair))
  }

  /** What the rehearsal's screen is asked with. */
  function ScreenAsk(now: Instant): Ask { Ask(5, 5_000 * NANOS_PER_MILLI, now) }

  datatype DuelRow = DuelRow(slot: nat, pair: string, headStart: nat, gapLost: nat, route: string, gapBps: nat,
                             took: bool)

  /** The numbers the screen draws from the counters. */
  datatype Screen = Screen(seenFast: nat, belowCost: nat, paired: nat, medianLead: nat)

  /** The most that can be taken: every pair once in each tick. */
  function MostTaken(pairs: nat, ticks: nat): nat { if ticks == 0 then 0 else MostTaken(pairs, ticks - 1) + pairs }

  lemma {:induction false} MostTakenIs(pairs: nat, ticks: nat)
    ensures MostTaken(pairs, ticks) == pairs * ticks
  {
    if ticks > 0 {
      MostTakenIs(pairs, ticks - 1);
      assert pairs * ticks == pairs * (ticks - 1) + pairs;
    }
  }

  lemma {:induction false} NineATick(pairs: nat, ticks: nat)
    requires pairs <= 9
    ensures MostTaken(pairs, ticks) <= 9 * ticks
  {
    if ticks > 0 {
      NineATick(pairs, ticks - 1);
    }
  }

  // ----- what is made of the rows -----

  /** One row that became an event. */
  datatype Play = Play(row: MarketRow, headStart: nat, lost: nat)

  /** The events so far, newest last, and the state of the generator. */
  datatype Played = Played(plays: seq<Play>, word: bv64)

  /** A priced row that is not stale is an event 23 times in a hundred. */
  function PlayNext(p: Played, row: MarketRow): Played {
    if !row.priced || row.stale then p
    else if UptoOf(p.word, 100) > 22 then p.(word := Shuffle(p.word))
    else PlayedRow(p.(word := Shuffle(p.word)), row)
  }

  function PlayedRow(p: Played, row: MarketRow): Played {
    Played(p.plays + [PlayOf(row, p.word)], AfterPlay(row, p.word))
  }

  /** An event draws the head start, and if it clears what the slow lane lost. */
  function PlayOf(row: MarketRow, word: bv64): Play {
    Play(row, 18 + UptoOf(word, 64),
         if row.shortByBps > 0 then 0 else 1 + UptoOf(Shuffle(word), Max(row.gapBps, 2)))
  }

  function AfterPlay(row: MarketRow, word: bv64): bv64 {
    if row.shortByBps > 0 then Shuffle(word) else Shuffle(Shuffle(word))
  }

  /** One row of the table, said of every row equal to it, so that what is drawn
      is only looked into where some row is named. */
  ghost predicate PlayStep(p: Played, row: MarketRow, q: Played) {
    forall r: MarketRow {:trigger PlayNext(p, r)} :: r == row ==> q == PlayNext(p, r)
  }

  lemma PlayIsStep(p: Played, row: MarketRow, q: Played)
    requires q == PlayNext(p, row)
    ensures PlayStep(p, row, q)
  {
  }

  /** What has been played before each row of the table, and at its end. */
  ghost predicate PlayedThrough(rows: seq<MarketRow>, word: bv64, trace: seq<Played>) {
    && |trace| == |rows| + 1 && trace[0] == Played([], word)
    && forall k :: 0 <= k < |rows| ==> PlayStep(trace[k], rows[k], trace[k + 1])
  }

  lemma PlayedFurther(rows: seq<MarketRow>, i: nat, word: bv64, trace: seq<Played>, q: Played)
    requires i < |rows| && PlayedThrough(rows[..i], word, trace) && PlayStep(Last(trace), rows[i], q)
    ensures PlayedThrough(rows[..i + 1], word, trace + [q])
  {
  }

  /** The table's events, and the state that playing it leaves. */
  ghost predicate PlaysTo(rows: seq<MarketRow>, word: bv64, p: Played) {
    exists trace :: PlayedThrough(rows, word, trace) && p == Last(trace)
  }

  /** There is one way to play a table. */
  lemma PlaysOneWay(rows: seq<MarketRow>, word: bv64, p: Played, q: Played)
    requires PlaysTo(rows, word, p) && PlaysTo(rows, word, q)
    ensures p == q
  {
    var trace :| PlayedThrough(rows, word, trace) && p == Last(trace);
    var other :| PlayedThrough(rows, word, other) && q == Last(other);
    TracesAgree(rows, word, trace, other, |rows|);
  }

  lemma {:induction false} TracesAgree(rows: seq<MarketRow>, word: bv64, one: seq<Played>, other: seq<Played>, n: nat)
    requires PlayedThrough(rows, word, one) && PlayedThrough(rows, word, other) && n <= |rows|
    ensures one[n] == other[n]
  {
    if n > 0 {
      TracesAgree(rows, word, one, other, n - 1);
      assert PlayStep(one[n - 1], rows[n - 1], one[n]) && PlayStep(other[n - 1], rows[n - 1], other[n]);
      NextIsOne(one[n - 1], rows[n - 1], one[n], other[n]);
    }
  }

  lemma NextIsOne(p: Played, row: MarketRow, q: Played, q': Played)
    requires PlayStep(p, row, q) && PlayStep(p, row, q')
    ensures q == q'
  {
    var next := PlayNext(p, row);
    assert q == next && q' == next;
  }

  function TradeOf(row: MarketRow, slot: nat): Trade {
    var took := row.shortByBps == 0;
    Trade(0, slot, FAST, row.pair, row.route, SIZE, row.gapBps, NetOf(row),
          if took then Realised else Nothing, if took then "sent" else "under the fees")
  }

  function TradesOf(plays: seq<Play>, slot: nat): seq<Trade> {
    seq(|plays|, i requires 0 <= i < |plays| => TradeOf(plays[i].row, slot))
  }

  function DuelOf(p: Play, slot: nat): DuelRow {
    DuelRow(slot, p.row.pair, p.headStart, p.lost, p.row.route, p.row.gapBps, p.row.shortByBps == 0)
  }

  /** The events as the tape shows them, newest first. */
  function DuelsOf(plays: seq<Play>, slot: nat): seq<DuelRow> {
    seq(|plays|, i requires 0 <= i < |plays| => DuelOf(plays[|plays| - 1 - i], slot))
  }

  function TakeRows<T>(s: seq<T>, k: nat): seq<T> { if |s| <= k then s else s[..k] }

  /** The events stand in the table at these places, in its order, and each is of
      a priced row that is not stale. */
  ghost predicate AreRows(rows: seq<MarketRow>, plays: seq<Play>, places: seq<nat>) {
    && |places| == |plays|
    && (forall k :: 0 <= k < |places| ==>
          places[k] < |rows| && plays[k].row == rows[places[k]] && IsEvent(plays[k]))
    && (forall k, l :: 0 <= k < l < |places| ==> places[k] < places[l])
  }

  ghost predicate IsEvent(p: Play) {
    && p.row.priced && !p.row.stale && 18 <= p.headStart < 82
    && (p.row.shortByBps > 0 <==> p.lost == 0) && p.lost <= Max(p.row.gapBps, 2)
  }

  lemma PlaysAreRows(rows: seq<MarketRow>, word: bv64, p: Played) returns (places: seq<nat>)
    requires PlaysTo(rows, word, p)
    ensures AreRows(rows, p.plays, places)
  {
    var trace :| PlayedThrough(rows, word, trace) && p == Last(trace);
    places := TraceIsOfRows(rows, word, trace, |rows|);
  }

  lemma {:induction false} TraceIsOfRows(rows: seq<MarketRow>, word: bv64, trace: seq<Played>, n: nat)
    returns (places: seq<nat>)
    requires PlayedThrough(rows, word, trace) && n <= |rows|
    ensures AreRows(rows[..n], trace[n].plays, places)
  {
    if n == 0 {
      places := [];
    } else {
      var p, row, q := trace[n - 1], rows[n - 1], trace[n];
      places := TraceIsOfRows(rows, word, trace, n - 1);
      assert PlayStep(trace[n - 1], rows[n - 1], trace[n - 1 + 1]);
      OneMoreEvent(p, row, q);
      if q.plays != p.plays {
        places := places + [n - 1];
      }
    }
  }

  lemma OneMoreEvent(p: Played, row: MarketRow, q: Played)
    requires PlayStep(p, row, q)
    ensures q.plays == p.plays
         || (q.plays != [] && Front(q.plays) == p.plays && Last(q.plays).row == row && IsEvent(Last(q.plays)))
  {
    var next := PlayNext(p, row);
    assert q == next;
    if next.plays != p.plays {
      EventAdded(p.(word := Shuffle(p.word)), row);
    }
  }

  lemma EventAdded(p: Played, row: MarketRow)
    requires row.priced && !row.stale
    ensures var q := PlayedRow(p, row);
            q.plays != [] && Front(q.plays) == p.plays && Last(q.plays).row == row && IsEvent(Last(q.plays))
  {
    IsAnEvent(row, p.word);
  }

  lemma IsAnEvent(row: MarketRow, word: bv64)
    requires row.priced && !row.stale
    ensures IsEvent(PlayOf(row, word))
  {
  }

  /** A played row pays what it is worth and is sent if it clears. */
  lemma TradeCounts(h: seq<Trade>, row: MarketRow, slot: nat)
    ensures var (was, now) := (TotalsOf(h), TotalsOf(h + [TradeOf(row, slot)]));
            && now.sent == was.sent + (if row.shortByBps == 0 then 1 else 0)
            && now.realised == was.realised + NetOf(row)
  {
    RecordStep(h, TradeOf(row, slot));
  }

  // ----- one tick of a session, on values -----

  /** What a rehearsal holds; its wallet and its counters of takes and of what
      they cost are the ledger's (see `Valid`). */
  datatype Session = Session(
    word: bv64, mid: seq<real>, dev: seq<real>, tick: nat, slot: nat, packets: nat, transactions: nat,
    duels: seq<DuelRow>, history: seq<Trade>)

  /** The walk of one second: each pool draws from its own word, and the book is
      what the new mids and deviations make. */
  ghost predicate Walks(pools: seq<Pool>, word: bv64, words: seq<bv64>, from: seq<real>, mid: seq<real>,
                        was: seq<real>, dev: seq<real>, book: Book, slot: nat, now: Instant) {
    && |words| == |pools| + 1 && words[0] == word && TickDrew(words)
    && Moved(from, mid, words, |pools|) && Swayed(was, dev, words, |pools|)
    && AllQuoted(pools, book, mid, dev, words, slot, now, |pools|)
  }

  /** The second's counters, prices and rows. */
  ghost predicate QuotedOn(pools: seq<Pool>, from: Session, now: Instant, words: seq<bv64>, book: Book,
                           rows: seq<MarketRow>, out: Session) {
    && out.tick == from.tick + 1 && out.slot == from.slot + 2
    && out.packets == from.packets + 44_000 + UptoOf(from.word, 9_000)
    && out.transactions == from.transactions + 2_600 + UptoOf(Shuffle(from.word), 700)
    && Walks(pools, Shuffled(from.word, 2), words, from.mid, out.mid, from.dev, out.dev, book, out.slot, now)
    && RowsRight(pools, book, ScreenAsk(now), rows)
  }

  /** Nothing later in the second touches them. */
  lemma QuotedStays(pools: seq<Pool>, from: Session, now: Instant, words: seq<bv64>, book: Book,
                    rows: seq<MarketRow>, quoted: Session, out: Session)
    requires QuotedOn(pools, from, now, words, book, rows, quoted)
    requires out == quoted.(word := out.word, duels := out.duels, history := out.history)
    ensures QuotedOn(pools, from, now, words, book, rows, out)
  {
  }

  /** And what is played of the rows, before the tape is cut. */
  ghost predicate TradedOn(pools: seq<Pool>, from: Session, now: Instant, words: seq<bv64>, book: Book,
                           rows: seq<MarketRow>, played: Played, out: Session) {
    && QuotedOn(pools, from, now, words, book, rows, out)
    && PlaysTo(rows, words[|pools|], played) && out.word == played.word
    && out.history == from.history + TradesOf(played.plays, out.slot)
    && out.duels == DuelsOf(played.plays, out.slot) + from.duels
  }

  /** The tape cut, and one more draw, for the screen. */
  function Drawn(st: Session): Session {
    st.(word := Shuffle(st.word), duels := TakeRows(st.duels, DUELS_KEPT))
  }

  ghost predicate TickedOn(pools: seq<Pool>, from: Session, now: Instant, words: seq<bv64>, book: Book,
                           rows: seq<MarketRow>, played: Played, out: Session) {
    exists traded :: TradedOn(pools, from, now, words, book, rows, played, traded) && out == Drawn(traded)
  }

  lemma CutAndDrawn(pools: seq<Pool>, from: Session, now: Instant, words: seq<bv64>, book: Book,
                    rows: seq<MarketRow>, played: Played, traded: Session)
    requires TradedOn(pools, from, now, words, book, rows, played, traded)
    ensures TickedOn(pools, from, now, words, book, rows, played, Drawn(traded))
  {
  }

  class Rehearsal {
    const roll: Roll
    const pools: seq<Pool>
    const prices: PriceBook
    const ledger: Ledger
    const walletStarted: nat
    var mid: seq<real>
    var dev: seq<real>
    var tick: nat
    var slot: nat
    var packets: nat
    var transactions: nat
    var duels: seq<DuelRow>
    var taken: nat
    var spent: nat
    var wallet: nat

    ghost function State(): Session
      reads this, roll, ledger
    {
      Session(roll.word, mid, dev, tick, slot, packets, transactions, duels, ledger.history)
    }

    /** The wallet and the ledger describe the same money, and the counters the
        screen subtracts cannot pass one another. */
    ghost predicate Valid()
      reads this, roll, ledger
    {
      && roll.word != 0
      && Balanced()
      && Steady(mid, dev, |pools|)
      && taken <= MostTaken(|Pairs(pools)|, tick)
      && |duels| <= DUELS_KEPT
    }

    ghost predicate Balanced()
      reads this, ledger
    {
      && ledger.Valid()
      && wallet == walletStarted + ledger.totals.realised
      && taken == ledger.totals.sent
      && spent == TAKE_PER_SEND * taken
    }

    constructor (seed: bv64, pools: seq<Pool>)
      ensures Valid() && this.pools == pools && wallet == walletStarted == 2_000_000_000
      ensures State() == Started(seed, pools)
      ensures fresh(roll) && fresh(ledger) && fresh(prices)
    {
      var r := new Roll(seed);
      var p := new PriceBook();
      var l := new Ledger();
      roll, prices, ledger := r, p, l;
      this.pools := pools;
      mid := SeedPrices(pools);
      dev := seq(|pools|, i => 0.0);
      walletStarted, wallet := 2_000_000_000, 2_000_000_000;
      tick, packets, transactions, taken, spent := 0, 0, 0, 0, 0;
      slot, duels := 444_000_000, [];
    }

    /** One second of a session. */
    method Step(now: Instant)
      returns (screen: Screen, ghost words: seq<bv64>, ghost rows: seq<MarketRow>, ghost played: Played)
      requires Valid() && |Pairs(pools)| <= 9
      modifies this, roll, ledger, prices
      ensures Valid()
      ensures TickedOn(pools, old(State()), now, words, prices.inner, rows, played, State())
      ensures screen.seenFast == 9 * tick && screen.belowCost + taken == screen.seenFast
      ensures screen.paired == |duels| && screen.medianLead == 31 + UptoOf(played.word, 9)
    {
      words, rows, played := Trading(now);
      NineATick(|Pairs(pools)|, tick);
      ghost var traded := State();
      screen := Draw();
      CutAndDrawn(pools, old(State()), now, words, prices.inner, rows, played, traded);
    }

    /** Everything of the second but the tape's cut and the screen. */
    method Trading(now: Instant)
      returns (ghost words: seq<bv64>, ghost rows: seq<MarketRow>, ghost played: Played)
      requires roll.word != 0 && Balanced() && Steady(mid, dev, |pools|) && taken <= MostTaken(|Pairs(pools)|, tick)
      modifies this, roll, ledger, prices
      ensures roll.word != 0 && Balanced() && Steady(mid, dev, |pools|) && taken <= MostTaken(|Pairs(pools)|, tick)
      ensures tick == old(tick) + 1 && roll.word == played.word
      ensures TradedOn(pools, old(State()), now, words, prices.inner, rows, played, State())
    {
      var table;
      table, words := Quote(now);
      rows := table;
      ghost var quoted := State();
      played := PlayRows(table);
      QuotedStays(pools, old(State()), now, words, prices.inner, rows, quoted, State());
    }

    /** The second's traffic and prices, and the rows they make. */
    method Quote(now: Instant) returns (rows: seq<MarketRow>, ghost words: seq<bv64>)
      requires roll.word != 0 && Steady(mid, dev, |pools|)
      modifies this`tick, this`slot, this`packets, this`transactions, this`mid, this`dev, roll, prices
      ensures roll.word != 0 && Steady(mid, dev, |pools|)
      ensures QuotedOn(pools, old(State()), now, words, prices.inner, rows, State())
      ensures |words| == |pools| + 1 && words[|pools|] == roll.word && |rows| == |Pairs(pools)|
    {
      tick, slot := tick + 1, slot + 2;
      Traffic();
      words := WalkPrices(now);
      rows := Snapshot(pools, prices, ScreenAsk(now));
    }

    method Traffic()
      requires roll.word != 0
      modifies this`packets, this`transactions, roll
      ensures roll.word != 0 && roll.word == Shuffled(old(roll.word), 2)
      ensures packets == old(packets) + 44_000 + UptoOf(old(roll.word), 9_000)
      ensures transactions == old(transactions) + 2_600 + UptoOf(Shuffle(old(roll.word)), 700)
    {
      SixDraws(roll.word);
      var more := roll.Upto(9_000);
      packets := packets + 44_000 + more;
      more := roll.Upto(700);
      transactions := transactions + 2_600 + more;
    }

    /** The tape is cut, and the screen drawn from the counters. */
    method Draw() returns (screen: Screen)
      requires roll.word != 0 && Balanced() && taken <= 9 * tick
      modifies this`duels, roll
      ensures Balanced()
      ensures roll.word != 0 && State() == Drawn(old(State())) && |duels| <= DUELS_KEPT
      ensures screen.seenFast == 9 * tick && screen.belowCost + taken == screen.seenFast
      ensures screen.paired == |duels| && screen.medianLead == 31 + UptoOf(old(roll.word), 9)
    {
      if |duels| > DUELS_KEPT {
        duels := duels[..DUELS_KEPT];
      }
      var seenFast := tick * 9;
      var median := roll.Upto(9);
      screen := Screen(seenFast, seenFast - taken, |duels|, 31 + median);
    }

    /** Every pool's mid takes the step it draws, its deviation reverts, and it
        gets the price they make, up to 0.9 s old. */
    method WalkPrices(now: Instant) returns (ghost words: seq<bv64>)
      requires roll.word != 0 && Steady(mid, dev, |pools|)
      modifies this`mid, this`dev, roll, prices
      ensures roll.word != 0 && Steady(mid, dev, |pools|)
      ensures Walks(pools, old(roll.word), words, old(mid), mid, old(dev), dev, prices.inner, slot, now)
      ensures words[|pools|] == roll.word
      ensures forall i :: 0 <= i < |pools| ==> Drifts(old(mid)[i], mid[i]) && Reverts(old(dev)[i], dev[i])
      ensures forall i :: 0 <= i < |pools| && LastListed(pools, i, |pools|) ==>
                Walked(pools, prices.inner, i, mid[i], dev[i], slot, now)
    {
      words := [roll.word];
      for index := 0 to |pools|
        invariant |words| == index + 1 && words[0] == old(roll.word) && words[index] == roll.word != 0
        invariant TickDrew(words) && Steady(mid, dev, |pools|)
        invariant Moved(old(mid), mid, words, index) && Swayed(old(dev), dev, words, index)
        invariant AllQuoted(pools, prices.inner, mid, dev, words, slot, now, index)
      {
        ghost var m, d, book := mid, dev, prices.inner;
        WalkPool(index, now);
        MovedOne(old(mid), m, words, index, roll.word);
        SwayedOne(old(dev), d, words, index, roll.word);
        QuotedOne(pools, book, m, d, words, slot, now, index, prices.inner, mid[index], dev[index], roll.word);
        words := words + [roll.word];
      }
      MovedDrifts(old(mid), mid, words, |pools|);
      SwayedReverts(old(dev), dev, words, |pools|);
      forall i | 0 <= i < |pools| && LastListed(pools, i, |pools|)
        ensures Walked(pools, prices.inner, i, mid[i], dev[i], slot, now)
      {
        QuotedWalks(pools, prices.inner, i, mid[i], dev[i], words[i], slot, now);
      }
    }

    method WalkPool(index: nat, now: Instant)
      requires index < |pools| && roll.word != 0 && Steady(mid, dev, |pools|)
      modifies this`mid, this`dev, roll, prices
      ensures roll.word != 0 && PoolDrew(old(roll.word), roll.word)
      ensures Steady(mid, dev, |pools|)
      ensures mid == old(mid)[index := Stepped(old(mid)[index], StepOf(old(roll.word)))]
      ensures dev == old(dev)[index := DevOf(old(roll.word), old(dev)[index])]
      ensures Quoted(pools, prices.inner, index, mid[index], dev[index], old(roll.word), slot, now)
      ensures OthersKept(old(prices.inner), prices.inner, pools[index].address)
    {
      ghost var start := roll.word;
      var m, d := WalkOne(mid[index], dev[index]);
      StaysNear(dev[index], d);
      PriceOne(index, m, d, now);
      PoolIsDrawn(start, roll.word);
      mid, dev := mid[index := m], dev[index := d];
    }

    method PriceOne(index: nat, m: real, d: real, now: Instant)
      requires index < |pools| && roll.word != 0
      modifies roll, prices
      ensures roll.word != 0 && roll.word == Shuffle(old(roll.word))
      ensures forall word :: old(roll.word) == Shuffled(word, Draws(word) - 1) ==>
                Quoted(pools, prices.inner, index, m, d, word, slot, now)
      ensures OthersKept(old(prices.inner), prices.inner, pools[index].address)
    {
      var age := roll.Upto(900);
      prices.Set(pools[index].address,
                 Priced(PoolState(m * (1.0 + d), PoolFee(index)), slot, SatSub(now, age * NANOS_PER_MILLI)));
    }

    /** One pool's mid and deviation, a second on; now and then a swap shocks it. */
    method WalkOne(mid: real, dev: real) returns (m: real, d: real)
      requires roll.word != 0 && mid > 0.0
      modifies roll
      ensures roll.word != 0 && roll.word == Shuffled(old(roll.word), Draws(old(roll.word)) - 1)
      ensures Shuffle(roll.word) == Shuffled(old(roll.word), Draws(old(roll.word)))
      ensures m == Stepped(mid, StepOf(old(roll.word))) && Drifts(mid, m)
      ensures d == DevOf(old(roll.word), dev) && Reverts(dev, d)
    {
      SixDraws(roll.word);
      DevReverts(roll.word, dev);
      var step := roll.Drift(4);
      m := Stepped(mid, step);
      DriftsBy(mid, step);
      var noise := roll.Drift(2);
      d := dev * 0.55 + noise as real / 100000.0;
      var shocked := roll.Upto(400);
      if shocked == 0 {
        var part := roll.Upto(50);
        var shock := (20 + part) as real / 10000.0;
        var up := roll.Upto(2);
        d := d + if up == 0 then shock else -shock;
      }
    }

    /** The rows that are priced and not stale, each an event now and then. */
    method PlayRows(rows: seq<MarketRow>) returns (ghost p: Played)
      requires roll.word != 0 && Balanced()
      modifies this`taken, this`spent, this`wallet, this`duels, roll, ledger
      ensures roll.word != 0 && Balanced()
      ensures taken <= old(taken) + |rows|
      ensures PlaysTo(rows, old(roll.word), p) && roll.word == p.word
      ensures ledger.history == old(ledger.history) + TradesOf(p.plays, slot)
      ensures duels == DuelsOf(p.plays, slot) + old(duels)
    {
      ghost var trace := [Played([], roll.word)];
      p := trace[0];
      for i := 0 to |rows|
        invariant roll.word != 0 && Balanced()
        invariant taken <= old(taken) + i
        invariant PlayedThrough(rows[..i], old(roll.word), trace) && p == Last(trace) && roll.word == p.word
        invariant ledger.history == old(ledger.history) + TradesOf(p.plays, slot)
        invariant duels == DuelsOf(p.plays, slot) + old(duels)
      {
        ghost var q, added := PlayNextRow(rows[i], p);
        MorePlays(p.plays, added, slot, old(ledger.history), old(duels));
        PlayedFurther(rows, i, old(roll.word), trace, q);
        p, trace := q, trace + [q];
      }
      assert rows[..|rows|] == rows;
    }

    method PlayNextRow(row: MarketRow, ghost p: Played) returns (ghost q: Played, ghost added: seq<Play>)
      requires roll.word != 0 && Balanced() && roll.word == p.word
      modifies this`taken, this`spent, this`wallet, this`duels, roll, ledger
      ensures roll.word != 0 && Balanced()
      ensures taken <= old(taken) + 1
      ensures PlayStep(p, row, q) && roll.word == q.word && q.plays == p.plays + added
      ensures ledger.history == old(ledger.history) + TradesOf(added, slot)
      ensures duels == DuelsOf(added, slot) + old(duels)
    {
      NoPlays(slot);
      q, added := p, [];
      if !row.priced || row.stale {
        PlayIsStep(p, row, q);
        return;
      }
      q := p.(word := Shuffle(p.word));
      var happens := roll.Upto(100);
      if happens > 22 {
        PlayIsStep(p, row, q);
        return;
      }
      added := [PlayOf(row, roll.word)];
      q := PlayedRow(q, row);
      PlayIsStep(p, row, q);
      PlayRow(row);
    }

    /** One event: a row that clears is taken, paid and booked as realised. */
    method PlayRow(row: MarketRow)
      requires roll.word != 0 && Balanced()
      modifies this`taken, this`spent, this`wallet, this`duels, roll, ledger
      ensures roll.word != 0 && Balanced()
      ensures ledger.history == old(ledger.history) + [TradeOf(row, slot)]
      ensures duels == [DuelOf(PlayOf(row, old(roll.word)), slot)] + old(duels)
      ensures roll.word == AfterPlay(row, old(roll.word))
      ensures taken == old(taken) + (if row.shortByBps == 0 then 1 else 0)
      ensures wallet == old(wallet) + NetOf(row)
      ensures row.shortByBps == 0 && row.gapBps == row.needsBps ==> taken == old(taken) + 1 && wallet == old(wallet)
    {
      WalletMovesOnSurplus(row);
      var head, lost := DrawPlay(row);
      Settle(row);
      duels := [DuelRow(slot, row.pair, head, lost, row.route, row.gapBps, row.shortByBps == 0)] + duels;
    }

    /** The draws of one event. */
    method DrawPlay(row: MarketRow) returns (head: nat, lost: nat)
      requires roll.word != 0
      modifies roll
      ensures roll.word != 0 && roll.word == AfterPlay(row, old(roll.word))
      ensures Play(row, head, lost) == PlayOf(row, old(roll.word))
    {
      lost := 0;
      head := roll.Upto(64);
      head := head + 18;
      if row.shortByBps == 0 {
        lost := roll.Upto(Max(row.gapBps, 2));
        lost := lost + 1;
      }
    }

    /** The money of one event. */
    method Settle(row: MarketRow)
      requires Balanced()
      modifies this`taken, this`spent, this`wallet, ledger
      ensures Balanced()
      ensures ledger.history == old(ledger.history) + [TradeOf(row, slot)]
      ensures taken == old(taken) + (if row.shortByBps == 0 then 1 else 0)
      ensures wallet == old(wallet) + NetOf(row)
    {
      TradeCounts(ledger.history, row, slot);
      var took := row.shortByBps == 0;
      if took {
        taken := taken + 1;
        spent := spent + TAKE_PER_SEND;
      }
      var surplus := SatSub(row.gapBps, row.needsBps);
      var net := if took then SatSub(SIZE / 10_000 * surplus, TAKE_PER_SEND) else 0;
      wallet := wallet + net;
      ledger.Record(Trade(
        0, slot, FAST, row.pair, row.route, SIZE, row.gapBps, net,
        if took then Realised else Nothing,
        if took then "sent" else "under the fees"));
    }
  }

  lemma NoPlays(slot: nat)
    ensures TradesOf([], slot) == [] && DuelsOf([], slot) == []
  {
  }

  lemma MorePlays(plays: seq<Play>, added: seq<Play>, slot: nat, h: seq<Trade>, d: seq<DuelRow>)
    ensures h + TradesOf(plays, slot) + TradesOf(added, slot) == h + TradesOf(plays + added, slot)
    ensures DuelsOf(added, slot) + (DuelsOf(plays, slot) + d) == DuelsOf(plays + added, slot) + d
  {
    assert TradesOf(plays + added, slot) == TradesOf(plays, slot) + TradesOf(added, slot);
    assert DuelsOf(plays + added, slot) == DuelsOf(added, slot) + DuelsOf(plays, slot);
  }

  /** How a session starts. */
  function Started(seed: bv64, pools: seq<Pool>): Session {
    Session(seed | 1, SeedPrices(pools), seq(|pools|, i => 0.0), 0, 444_000_000, 0, 0, [], [])
  }

  // ----- a trade sent for nothing -----

  /** Where three pools of one pair stand: the first 11 basis points above their
      common mid, the second on it, the third 5 above. */
  const APART: seq<real> := [0.0011, 0.0, 0.0005]

  function ApartBook(pools: seq<Pool>, slot: nat, now: Instant): Book
    requires |pools| >= 3
  {
    map[pools[0].address := ApartAt(0, slot, now), pools[1].address := ApartAt(1, slot, now),
        pools[2].address := ApartAt(2, slot, now)]
  }

  function ApartAt(i: nat, slot: nat, now: Instant): Priced
    requires i < 3
  {
    Priced(PoolState(SeedPrice("SOL/USDC") * (1.0 + APART[i]), PoolFee(i)), slot, now)
  }

  /** The gaps between the three, on the pair's starting price. */
  lemma ApartGaps(slot: nat, now: Instant)
    ensures GapBps(ApartAt(0, slot, now), ApartAt(1, slot, now)) == 11
    ensures GapBps(ApartAt(0, slot, now), ApartAt(2, slot, now)) == 5
    ensures GapBps(ApartAt(1, slot, now), ApartAt(2, slot, now)) == 5
    ensures FeeBps(ApartAt(0, slot, now).state) == 2 && FeeBps(ApartAt(1, slot, now).state) == 4
  {
    assert SeedPrice("SOL/USDC") == 104.5;
  }

  /** An input on which a trade is sent for nothing: prices the walk can make of
      the demo's first pair, whose three pools are the demo's first three. The
      row clears on just the 11 basis points it has to beat. */
  lemma SentForNothing(pools: seq<Pool>, slot: nat, now: Instant) returns (row: MarketRow)
    requires |pools| >= 3 && DistinctAddresses(pools) && Members(pools, "SOL/USDC") == pools[..3]
    ensures forall i :: 0 <= i < 3 ==>
              && Near(APART[i])
              && Walked(pools, ApartBook(pools, slot, now), i, SeedPrice("SOL/USDC"), APART[i], slot, now)
    ensures RowRight(pools, ApartBook(pools, slot, now), ScreenAsk(now), row) && row.pair == "SOL/USDC"
    ensures row.priced && !row.stale && row.gapBps == row.needsBps == 11 && row.shortByBps == 0
    ensures NetOf(row) == 0
  {
    var (ms, book, ask) := (pools[..3], ApartBook(pools, slot, now), ScreenAsk(now));
    ApartGaps(slot, now);
    assert Both(ms, book, 0, 1);
    var best := Measured(ms, book, 0, 1, ask);
    row := RowOf("SOL/USDC", ms, book, ask, best);
    FirstTwoWidest(pools, slot, now);
    assert BestSoFar(ms, book, ask, best, |ms|, 0);
    ThreeReport(ms, book);
  }

  lemma ThreeReport(ms: seq<Pool>, book: Book)
    requires |ms| >= 2 && Both(ms, book, 0, 1)
    ensures |Filter(ms, (p: Pool) => p.address in book)| >= 2
  {
    ReportingPairs(ms, book);
  }

  lemma FirstTwoWidest(pools: seq<Pool>, slot: nat, now: Instant)
    requires |pools| >= 3 && DistinctAddresses(pools)
    ensures FirstWidest(pools[..3], ApartBook(pools, slot, now), 0, 1, 3, 0)
  {
    ApartGaps(slot, now);
  }

  // ----- a session: one mid per pool, whatever its pair -----

  ghost predicate Ticks(ticks: seq<seq<bv64>>, n: nat) { forall t :: t in ticks ==> |t| == n + 1 && TickDrew(t) }

  /** The steps the i-th pool's mid took, tick by tick. */
  function StepsOver(ticks: seq<seq<bv64>>, i: nat): (steps: seq<int>)
    requires forall t :: t in ticks ==> i < |t|
    ensures |steps| == |ticks| && forall s :: s in steps ==> -4 <= s <= 4
  {
    if ticks == [] then [] else
      assert Last(ticks) in ticks;
      StepsOver(Front(ticks), i) + [StepOf(Last(ticks)[i])]
  }

  /** A mid after these steps. */
  function MidAfter(start: real, steps: seq<int>): real {
    if steps == [] then start else Stepped(MidAfter(start, Front(steps)), Last(steps))
  }

  /** The product of what each step makes of a hundred thousand. */
  function Factors(steps: seq<int>): int {
    if steps == [] then 1 else Factors(Front(steps)) * (100_000 + Last(steps))
  }

  function Scale(n: nat): (r: real)
    ensures r > 0.0
  {
    if n == 0 then 1.0 else
      PositiveProduct(Scale(n - 1), 100000.0);
      Scale(n - 1) * 100000.0
  }

  lemma {:induction false} MidIsFactors(start: real, steps: seq<int>)
    ensures MidAfter(start, steps) * Scale(|steps|) == start * Factors(steps) as real
  {
    if steps != [] {
      MidIsFactors(start, Front(steps));
      OneMoreFactor(MidAfter(start, Front(steps)), Scale(|steps| - 1), start, Factors(Front(steps)), Last(steps));
    }
  }

  lemma OneMoreFactor(mid: real, scale: real, start: real, factors: int, step: int)
    requires mid * scale == start * factors as real
    ensures Stepped(mid, step) * (scale * 100000.0) == start * (factors * (100_000 + step)) as real
  {
    var part := (100_000 + step) as real;
    RealProduct(factors, 100_000 + step);
    assert 1.0 + step as real / 100000.0 == part / 100000.0;
    Regroup(mid, scale, part);
    Regroup(start, factors as real, part);
  }

  lemma Regroup(x: real, y: real, part: real)
    ensures x * (part / 100000.0) * (y * 100000.0) == x * y * part
    ensures x * (y * part) == x * y * part
  {
  }

  /** Two pools that started on one price are on one price again after as many
      ticks if and only if their steps multiply up to the same: nothing else
      holds the pools of a pair together. */
  lemma MidsAgree(start: real, one: seq<int>, other: seq<int>)
    requires start > 0.0 && |one| == |other|
    ensures MidAfter(start, one) == MidAfter(start, other) <==> Factors(one) == Factors(other)
  {
    var a, m, scale := MidInParts(start, one);
    var b, n, same := MidInParts(start, other);
    SameProducts(a, b, scale, start, m, n);
  }

  lemma MidInParts(start: real, steps: seq<int>) returns (mid: real, factors: int, scale: real)
    ensures mid == MidAfter(start, steps) && factors == Factors(steps) && scale == Scale(|steps|)
    ensures mid * scale == start * factors as real
  {
    MidIsFactors(start, steps);
    mid, factors, scale := MidAfter(start, steps), Factors(steps), Scale(|steps|);
  }

  lemma SameProducts(a: real, b: real, scale: real, start: real, m: int, n: int)
    requires scale > 0.0 && start > 0.0 && a * scale == start * m as real && b * scale == start * n as real
    ensures a == b <==> m == n
  {
    SameFactor(scale, a, b);
    SameFactor(start, m as real, n as real);
  }

  lemma SameFactor(m: real, x: real, y: real)
    requires m > 0.0
    ensures m * x == m * y <==> x == y
  {
    if x != y {
      PositiveProduct(m, if x > y then x - y else y - x);
    }
  }

  /** What the default seed draws: the first two pools' steps of the first tick. */
  lemma FirstSteps(tick: seq<bv64>)
    requires TickDrew(tick) && |tick| > 2 && tick[0] == Shuffled(1, 2)
    ensures StepOf(tick[0]) == -3 && StepOf(tick[1]) == 2
  {
    FirstWords();
    assert PoolDrew(tick[0], tick[1]);
    assert Draws(tick[0]) == 4;
    assert tick[1] == Shuffled(tick[0], 4);
  }

  lemma FirstWords()
    ensures var start := Shuffled(1, 2);
            && UptoOf(Shuffled(start, 2), 400) == 128
            && StepOf(start) == -3 && StepOf(Shuffled(start, 4)) == 2
  {
    WordsFromOne();
    ValuesFromOne();
    TwoDraws(1, 0x2000001, 0x4004000802801);
    TwoDraws(0x4004000802801, 0xd004003202803, 0x200340a005480e81);
    TwoDraws(0x200340a005480e81, 0x81fd0210eb25e00, 0xb00614a0466023ed);
    SixDraws(0x4004000802801);
  }

  lemma TwoDraws(x: bv64, y: bv64, z: bv64)
    requires Shuffle(x) == y && Shuffle(y) == z
    ensures Shuffled(x, 2) == z
  {
    SixDraws(x);
  }

  lemma WordsFromOne()
    ensures Shuffle(1) == 0x2000001 && Shuffle(0x2000001) == 0x4004000802801
    ensures Shuffle(0x4004000802801) == 0xd004003202803 && Shuffle(0xd004003202803) == 0x200340a005480e81
    ensures Shuffle(0x200340a005480e81) == 0x81fd0210eb25e00 && Shuffle(0x81fd0210eb25e00) == 0xb00614a0466023ed
    ensures Shuffle(0xb00614a0466023ed) == 0x3215dc4c90dfccb5
  {
  }

  lemma ValuesFromOne()
    ensures DriftOf(0x4004000802801, 4) == -3
    ensures UptoOf(0x200340a005480e81, 400) == 128
    ensures DriftOf(0xb00614a0466023ed, 4) == 2
  {
    WordsFromOne();
    assert Scramble(0xd004003202803) == 0xb9d10d8feb731f57;
    assert Scramble(0x81fd0210eb25e00) == 0xe6199b04d5aa600;
    assert Scramble(0x3215dc4c90dfccb5) == 0xd052b2d8d46e7181;
  }

  ghost predicate Ticked(pools: seq<Pool>, from: Session, now: Instant, out: Session) {
    exists words: seq<bv64>, book: Book, rows: seq<MarketRow>, played: Played ::
      TickedOn(pools, from, now, words, book, rows, played, out)
  }

  /** The states of a session as far as it has come, one more than its ticks. */
  ghost predicate SessionRun(pools: seq<Pool>, seed: bv64, nows: seq<Instant>, sts: seq<Session>) {
    && 1 <= |sts| <= |nows| + 1 && sts[0] == Started(seed, pools)
    && forall k :: 0 <= k < |sts| - 1 ==> Ticked(pools, sts[k], nows[k], sts[k + 1])
  }

  /** Some session of these ticks ends with this much in the wallet. */
  ghost predicate EndsWith(pools: seq<Pool>, seed: bv64, nows: seq<Instant>, wallet: nat) {
    exists sts :: SessionRun(pools, seed, nows, sts) && |sts| == |nows| + 1
               && wallet == 2_000_000_000 + TotalsOf(Last(sts).history).realised
  }

  /** The command's loop (src/main.rs): a session of one tick after another. */
  method RunRehearsal(seed: bv64, pools: seq<Pool>, nows: seq<Instant>) returns (wallet: nat)
    requires |Pairs(pools)| <= 9
    ensures EndsWith(pools, seed, nows, wallet)
  {
    var session := new Rehearsal(seed, pools);
    ghost var sts := [session.State()];
    for k := 0 to |nows|
      invariant session.Valid() && session.pools == pools && session.walletStarted == 2_000_000_000
      invariant fresh(session) && fresh(session.roll) && fresh(session.ledger) && fresh(session.prices)
      invariant SessionRun(pools, seed, nows, sts) && |sts| == k + 1 && sts[k] == session.State()
    {
      var screen;
      ghost var words, rows, played;
      screen, words, rows, played := session.Step(nows[k]);
      RunStep(pools, seed, nows, sts, words, session.prices.inner, rows, played, session.State());
      sts := sts + [session.State()];
    }
    wallet := session.wallet;
  }

  lemma RunStep(pools: seq<Pool>, seed: bv64, nows: seq<Instant>, sts: seq<Session>,
                words: seq<bv64>, book: Book, rows: seq<MarketRow>, played: Played, out: Session)
    requires SessionRun(pools, seed, nows, sts) && |sts| <= |nows|
    requires TickedOn(pools, Last(sts), nows[|sts| - 1], words, book, rows, played, out)
    ensures SessionRun(pools, seed, nows, sts + [out])
  {
    assert Ticked(pools, Last(sts), nows[|sts| - 1], out);
  }

  /** In every session each mid is its pair's starting price and its own pool's
      steps, drawn tick by tick from the seed's words. */
  lemma {:induction false} SessionMids(pools: seq<Pool>, seed: bv64, nows: seq<Instant>, sts: seq<Session>)
    returns (ticks: seq<seq<bv64>>)
    requires SessionRun(pools, seed, nows, sts)
    ensures |ticks| == |sts| - 1 && Ticks(ticks, |pools|)
    ensures |sts| > 1 ==> ticks[0][0] == Shuffled(seed | 1, 2)
    ensures MidsAre(pools, Last(sts).mid, ticks)
    decreases |sts|
  {
    var n := |sts| - 2;
    if n < 0 {
      ticks := [];
    } else {
      ticks := SessionMids(pools, seed, nows, Front(sts));
      var words := TickWords(pools, sts[n], nows[n], sts[n + 1]);
      MidsStep(pools, sts[n].mid, sts[n + 1].mid, ticks, words);
      TicksStep(ticks, words, |pools|);
      ticks := ticks + [words];
    }
  }

  lemma TickWords(pools: seq<Pool>, from: Session, now: Instant, out: Session) returns (words: seq<bv64>)
    requires Ticked(pools, from, now, out)
    ensures |words| == |pools| + 1 && TickDrew(words) && words[0] == Shuffled(from.word, 2)
    ensures Moved(from.mid, out.mid, words, |pools|)
  {
    var w: seq<bv64>, book: Book, rows: seq<MarketRow>, played: Played :|
      TickedOn(pools, from, now, w, book, rows, played, out);
    words := w;
  }

  lemma TicksStep(ticks: seq<seq<bv64>>, words: seq<bv64>, n: nat)
    requires Ticks(ticks, n) && |words| == n + 1 && TickDrew(words)
    ensures Ticks(ticks + [words], n)
  {
  }

  /** Every pool's mid is its start and the steps of its own. */
  ghost predicate MidsAre(pools: seq<Pool>, mid: seq<real>, ticks: seq<seq<bv64>>) {
    && |mid| == |pools| && (forall t :: t in ticks ==> |t| > |pools|)
    && forall i :: 0 <= i < |pools| ==> mid[i] == MidAfter(SeedPrice(pools[i].pair), StepsOver(ticks, i))
  }

  lemma MidsStep(pools: seq<Pool>, from: seq<real>, to: seq<real>, ticks: seq<seq<bv64>>, words: seq<bv64>)
    requires MidsAre(pools, from, ticks) && |words| == |pools| + 1 && Moved(from, to, words, |pools|)
    ensures MidsAre(pools, to, ticks + [words])
  {
    assert Front(ticks + [words]) == ticks && Last(ticks + [words]) == words;
    forall i | 0 <= i < |pools|
      ensures to[i] == MidAfter(SeedPrice(pools[i].pair), StepsOver(ticks + [words], i))
    {
      assert Front(StepsOver(ticks, i) + [StepOf(words[i])]) == StepsOver(ticks, i);
    }
  }

  /** On the default seed the first two pools, which the demo lists under one
      pair, have mids of their own after the first tick of the session. */
  lemma FirstMidsPart(pools: seq<Pool>, mid: seq<real>, ticks: seq<seq<bv64>>)
    requires |pools| > 1 && pools[0].pair == pools[1].pair && MidsAre(pools, mid, ticks)
    requires |ticks| == 1 && TickDrew(ticks[0]) && ticks[0][0] == Shuffled(1, 2)
    ensures mid[0] != mid[1]
  {
    assert ticks[0] in ticks;
    FirstStepsOver(ticks);
    SeedIsPositive(pools[0].pair);
    StepsPart(SeedPrice(pools[0].pair));
  }

  lemma FirstStepsOver(ticks: seq<seq<bv64>>)
    requires |ticks| == 1 && |ticks[0]| > 2 && TickDrew(ticks[0]) && ticks[0][0] == Shuffled(1, 2)
    ensures StepsOver(ticks, 0) == [-3] && StepsOver(ticks, 1) == [2]
  {
    FirstSteps(ticks[0]);
    assert Front(ticks) == [];
  }

  lemma SeedIsPositive(pair: string)
    ensures SeedPrice(pair) > 0.0
  {
  }

  lemma StepsPart(start: real)
    requires start > 0.0
    ensures MidAfter(start, [-3]) != MidAfter(start, [2])
  {
    OneStep(-3);
    OneStep(2);
    MidsAgree(start, [-3], [2]);
  }

  lemma OneStep(step: int)
    ensures Factors([step]) == 100_000 + step
  {
    assert Front([step]) == [];
  }

  // ----- the demo's pairs -----

  const DEMO_PAIRS: seq<string> := ["SOL/USDC", "SOL/FART", "SOL/WBTC", "SOL/JLP", "JUP/SOL", "MEW/SOL", "SOL/BONK"]

  /** Which of the seven each demo pool's pair is (src/bot/pools.rs). */
  const DEMO_PLACES: seq<nat> := [0, 0, 0, 1, 1, 2, 2, 3, 3, 3, 4, 4, 5, 5, 6, 6, 6]

  ghost predicate DemoNames(pools: seq<Pool>) {
    && |pools| == |DEMO_PLACES|
    && forall i :: 0 <= i < |pools| ==> DEMO_PLACES[i] < |DEMO_PAIRS| && pools[i].pair == DEMO_PAIRS[DEMO_PLACES[i]]
  }

  lemma DemoPairsAreSeven(pools: seq<Pool>)
    requires DemoNames(pools)
    ensures |Pairs(pools)| <= 7
  {
    PairsAreOnce(pools);
    forall x | x in Pairs(pools)
      ensures x in DEMO_PAIRS
    {
      var p :| p in pools && p.pair == x;
      var i :| 0 <= i < |pools| && pools[i] == p;
      assert x == DEMO_PAIRS[DEMO_PLACES[i]];
    }
    NoLongerThan(Pairs(pools), DEMO_PAIRS);
  }

  lemma {:induction false} NoLongerThan<T>(s: seq<T>, all: seq<T>)
    requires NoDuplicates(s) && forall x :: x in s ==> x in all
    ensures |s| <= |all|
  {
    if s != [] {
      assert s == Front(s) + [Last(s)] && Last(s) in s;
      var i :| 0 <= i < |all| && all[i] == Last(s);
      var rest := all[..i] + all[i + 1..];
      forall x | x in Front(s)
        ensures x in rest
      {
        assert x in s;
        var j :| 0 <= j < |all| && all[j] == x;
        assert x == rest[if j < i then j else j - 1];
      }
      NoLongerThan(Front(s), rest);
    }
  }
}
