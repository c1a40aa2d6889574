/** A rehearsal is repeatable: its seed and pools decide a whole session, and the
    moments it is ticked at do not show in it. */
module Replays {
  import opened Prelude
  import opened Pools
  import opened Ledgers
  import opened Market
  import opened MarketRows
  import opened Rolls
  import opened Rehearse

  /** No price can be older than the oldest there is: 0.9 seconds. */
  predicate Late(now: Instant) { now >= 900 * NANOS_PER_MILLI }

  lemma OneDraw(word: bv64, one: bv64, other: bv64)
    requires PoolDrew(word, one) && PoolDrew(word, other)
    ensures one == other
  {
    var after := Shuffled(word, Draws(word));
    assert one == after && other == after;
  }

  lemma {:induction false} WordsAgree(one: seq<bv64>, other: seq<bv64>, n: nat)
    requires TickDrew(one) && TickDrew(other) && one[0] == other[0] && n < |one| && n < |other|
    ensures one[n] == other[n]
  {
    if n > 0 {
      WordsAgree(one, other, n - 1);
      assert PoolDrew(one[n - 1], one[n - 1 + 1]) && PoolDrew(other[n - 1], other[n - 1 + 1]);
      OneDraw(one[n - 1], one[n], other[n]);
    }
  }

  lemma {:induction false} LastListing(pools: seq<Pool>, address: Pubkey, n: nat) returns (i: nat)
    requires n <= |pools| && exists j :: 0 <= j < n && pools[j].address == address
    ensures i < n && pools[i].address == address && LastListed(pools, i, n)
  {
    if pools[n - 1].address == address {
      i := n - 1;
    } else {
      i := LastListing(pools, address, n - 1);
    }
  }

  /** Quoted at two late moments, one pool has one price and one age. */
  lemma QuotedAlike(pools: seq<Pool>, one: Book, other: Book, i: nat, m: real, d: real, word: bv64, slot: nat,
                    now: Instant, later: Instant)
    requires i < |pools| && Late(now) && Late(later)
    requires Quoted(pools, one, i, m, d, word, slot, now) && Quoted(pools, other, i, m, d, word, slot, later)
    ensures one[pools[i].address].state == other[pools[i].address].state
    ensures SatSub(now, one[pools[i].address].at) == SatSub(later, other[pools[i].address].at)
  {
    assert AgeOf(word) < 900;
  }

  lemma BooksAlike(pools: seq<Pool>, one: Book, other: Book, mid: seq<real>, dev: seq<real>, words: seq<bv64>,
                   slot: nat, now: Instant, later: Instant)
    requires Late(now) && Late(later)
    requires AllQuoted(pools, one, mid, dev, words, slot, now, |pools|)
    requires AllQuoted(pools, other, mid, dev, words, slot, later, |pools|)
    ensures Alike(pools, one, now, other, later)
  {
    forall p | p in pools
      ensures p.address in one && p.address in other
      ensures one[p.address].state == other[p.address].state
      ensures SatSub(now, one[p.address].at) == SatSub(later, other[p.address].at)
    {
      var j :| 0 <= j < |pools| && pools[j] == p;
      var i := LastListing(pools, p.address, |pools|);
      QuotedAlike(pools, one, other, i, mid[i], dev[i], words[i], slot, now, later);
    }
  }

  lemma SameMoves(from: seq<real>, one: seq<real>, other: seq<real>, words: seq<bv64>, n: nat)
    requires Moved(from, one, words, n) && Moved(from, other, words, n)
    ensures one == other
  {
  }

  lemma SameSways(from: seq<real>, one: seq<real>, other: seq<real>, words: seq<bv64>, n: nat)
    requires Swayed(from, one, words, n) && Swayed(from, other, words, n)
    ensures one == other
  {
  }

  /** One second from one state, at two moments: the same prices of the same age,
      so the same table. */
  lemma TablesAgree(pools: seq<Pool>, from: Session, now: Instant, later: Instant,
                    w: seq<bv64>, book: Book, rows: seq<MarketRow>, one: Session,
                    w': seq<bv64>, book': Book, rows': seq<MarketRow>, other: Session)
    requires Late(now) && Late(later)
    requires QuotedOn(pools, from, now, w, book, rows, one) && QuotedOn(pools, from, later, w', book', rows', other)
    ensures w == w' && rows == rows' && one.mid == other.mid && one.dev == other.dev
  {
    forall n | 0 <= n < |w|
      ensures w[n] == w'[n]
    {
      WordsAgree(w, w', n);
    }
    SameMoves(from.mid, one.mid, other.mid, w, |pools|);
    SameSways(from.dev, one.dev, other.dev, w, |pools|);
    BooksAlike(pools, book, book', one.mid, one.dev, w, one.slot, now, later);
    TablesAlike(pools, book, ScreenAsk(now), rows, book', ScreenAsk(later), rows');
  }

  lemma TradesAgree(pools: seq<Pool>, from: Session, now: Instant, later: Instant,
                    w: seq<bv64>, book: Book, rows: seq<MarketRow>, played: Played, one: Session,
                    w': seq<bv64>, book': Book, rows': seq<MarketRow>, played': Played, other: Session)
    requires Late(now) && Late(later)
    requires TradedOn(pools, from, now, w, book, rows, played, one)
    requires TradedOn(pools, from, later, w', book', rows', played', other)
    ensures one == other
  {
    TablesAgree(pools, from, now, later, w, book, rows, one, w', book', rows', other);
    PlaysOneWay(rows, w[|pools|], played, played');
  }

  lemma TicksAgree(pools: seq<Pool>, from: Session, now: Instant, later: Instant, one: Session, other: Session)
    requires Late(now) && Late(later) && Ticked(pools, from, now, one) && Ticked(pools, from, later, other)
    ensures one == other
  {
    var w: seq<bv64>, book: Book, rows: seq<MarketRow>, played: Played :|
      TickedOn(pools, from, now, w, book, rows, played, one);
    var w': seq<bv64>, book': Book, rows': seq<MarketRow>, played': Played :|
      TickedOn(pools, from, later, w', book', rows', played', other);
    var x :| TradedOn(pools, from, now, w, book, rows, played, x) && one == Drawn(x);
    var y :| TradedOn(pools, from, later, w', book', rows', played', y) && other == Drawn(y);
    TradesAgree(pools, from, now, later, w, book, rows, played, x, w', book', rows', played', y);
  }

  lemma {:induction false} StatesAgree(pools: seq<Pool>, seed: bv64, nows: seq<Instant>, laters: seq<Instant>,
                                       one: seq<Session>, other: seq<Session>, n: nat)
    requires (forall now :: now in nows ==> Late(now)) && (forall now :: now in laters ==> Late(now))
    requires SessionRun(pools, seed, nows, one) && SessionRun(pools, seed, laters, other)
    requires n < |one| && n < |other|
    ensures one[n] == other[n]
  {
    if n > 0 {
      StatesAgree(pools, seed, nows, laters, one, other, n - 1);
      NextAgrees(pools, seed, nows, laters, one, other, n - 1);
    }
  }

  lemma NextAgrees(pools: seq<Pool>, seed: bv64, nows: seq<Instant>, laters: seq<Instant>,
                   one: seq<Session>, other: seq<Session>, k: nat)
    requires (forall now :: now in nows ==> Late(now)) && (forall now :: now in laters ==> Late(now))
    requires SessionRun(pools, seed, nows, one) && SessionRun(pools, seed, laters, other)
    requires k + 1 < |one| && k + 1 < |other| && one[k] == other[k]
    ensures one[k + 1] == other[k + 1]
  {
    assert Late(nows[k]) && Late(laters[k]);
    assert Ticked(pools, one[k], nows[k], one[k + 1]) && Ticked(pools, other[k], laters[k], other[k + 1]);
    TicksAgree(pools, one[k], nows[k], laters[k], one[k + 1], other[k + 1]);
  }

  /** One seed makes one session: prices, counters, events, ledger
      and tape are the same tick by tick, whatever the clock reads at each. */
  lemma SameSeedSameSession(pools: seq<Pool>, seed: bv64, nows: seq<Instant>, laters: seq<Instant>,
                            one: seq<Session>, other: seq<Session>)
    requires (forall now :: now in nows ==> Late(now)) && (forall now :: now in laters ==> Late(now))
    requires SessionRun(pools, seed, nows, one) && SessionRun(pools, seed, laters, other) && |one| == |other|
    ensures one == other
  {
    forall n | 0 <= n < |one|
      ensures one[n] == other[n]
    {
      StatesAgree(pools, seed, nows, laters, one, other, n);
    }
  }

  /** So what the command ends with is decided by the seed, the pools and how
      many seconds it ran. */
  lemma SameSeedSameWallet(pools: seq<Pool>, seed: bv64, nows: seq<Instant>, laters: seq<Instant>, one: nat, other: nat)
    requires (forall now :: now in nows ==> Late(now)) && (forall now :: now in laters ==> Late(now))
    requires |nows| == |laters| && EndsWith(pools, seed, nows, one) && EndsWith(pools, seed, laters, other)
    ensures one == other
  {
    var a :| SessionRun(pools, seed, nows, a) && |a| == |nows| + 1
          && one == 2_000_000_000 + TotalsOf(Last(a).history).realised;
    var b :| SessionRun(pools, seed, laters, b) && |b| == |laters| + 1
          && other == 2_000_000_000 + TotalsOf(Last(b).history).realised;
    SameSeedSameSession(pools, seed, nows, laters, a, b);
  }
}
