/** The ledger (src/bot/ledger.rs): totals kept up to date one trade at a time,
    against the whole history, and a tape of the newest trades. */
module Ledgers {
  import opened Prelude

  const TRADES_KEPT: nat := 200

  datatype Booking = Expected | SimulatedOk | Realised | Nothing

  datatype Trade = Trade(
    at: Instant, slot: nat, lane: string, pair: string, route: string, size: nat,
    grossBps: nat, net: nat, booking: Booking, outcome: string)

  datatype Totals = Totals(attempts: nat, expected: nat, sent: nat, realised: nat, refused: nat, best: nat)

  // ----- the totals, said of the whole history -----

  function Net(h: seq<Trade>, counts: Trade -> bool): nat {
    if h == [] then 0 else Net(Front(h), counts) + if counts(Last(h)) then Last(h).net else 0
  }

  function Number(h: seq<Trade>, counts: Trade -> bool): nat {
    if h == [] then 0 else Number(Front(h), counts) + if counts(Last(h)) then 1 else 0
  }

  function Is(b: Booking): Trade -> bool { (t: Trade) => t.booking == b }

  function Worth(): Trade -> bool { (t: Trade) => t.booking != Nothing }

  function Widest(h: seq<Trade>): nat {
    if h == [] then 0 else Max(Widest(Front(h)), Last(h).net)
  }

  function TotalsOf(h: seq<Trade>): Totals {
    Totals(|h|, Net(h, Worth()), Number(h, Is(Realised)), Net(h, Is(Realised)), Number(h, Is(Nothing)), Widest(h))
  }

  class Ledger {
    var trades: seq<Trade>
    var totals: Totals
    ghost var history: seq<Trade>

    ghost predicate Valid()
      reads this
    {
      totals == TotalsOf(history) && trades == Reverse(LastK(history, TRADES_KEPT))
    }

    constructor ()
      ensures Valid() && history == []
    {
      trades, history := [], [];
      totals := Totals(0, 0, 0, 0, 0, 0);
      new;
      assert TotalsOf([]) == Totals(0, 0, 0, 0, 0, 0);
    }

    /** The totals of everything ever recorded, and the newest trades first. */
    method Record(trade: Trade)
      requires Valid()
      modifies this
      ensures Valid() && history == old(history) + [trade]
    {
      RecordStep(history, trade);
      TapeStep(history, trade);
      Count(trade);
      trades := [trade] + trades;
      if |trades| > TRADES_KEPT {
        trades := trades[..TRADES_KEPT];
      }
      history := history + [trade];
    }

    method Count(trade: Trade)
      modifies this`totals
      ensures totals == Counted(old(totals), trade)
    {
      totals := totals.(attempts := totals.attempts + 1);
      totals := totals.(best := Max(totals.best, trade.net));
      match trade.booking {
        case Expected => totals := totals.(expected := totals.expected + trade.net);
        case SimulatedOk => totals := totals.(expected := totals.expected + trade.net);
        case Realised =>
          totals := totals.(sent := totals.sent + 1);
          totals := totals.(realised := totals.realised + trade.net);
          totals := totals.(expected := totals.expected + trade.net);
        case Nothing => totals := totals.(refused := totals.refused + 1);
      }
    }
  }

  /** One trade's effect on the totals. */
  function Counted(s: Totals, t: Trade): Totals {
    Totals(
      s.attempts + 1,
      s.expected + (if t.booking != Nothing then t.net else 0),
      s.sent + (if t.booking == Realised then 1 else 0),
      s.realised + (if t.booking == Realised then t.net else 0),
      s.refused + (if t.booking == Nothing then 1 else 0),
      Max(s.best, t.net))
  }

  lemma RecordStep(h: seq<Trade>, t: Trade)
    ensures TotalsOf(h + [t]) == Counted(TotalsOf(h), t)
  {
  }

  lemma TapeStep(h: seq<Trade>, t: Trade)
    ensures var tape := [t] + Reverse(LastK(h, TRADES_KEPT));
            Reverse(LastK(h + [t], TRADES_KEPT)) == if |tape| > TRADES_KEPT then tape[..TRADES_KEPT] else tape
  {
  }

  /** Counting more of the trades never gives a smaller sum. */
  lemma {:induction false} NetGrows(h: seq<Trade>, some: Trade -> bool, more: Trade -> bool)
    requires forall t :: some(t) ==> more(t)
    ensures Net(h, some) <= Net(h, more)
  {
    if h != [] {
      NetGrows(Front(h), some, more);
    }
  }

  /** One row's totals: what it promised is expected unless it came to nothing,
      and only a send counts as sent and realised. */
  lemma OneRowsTotals(t: Trade)
    ensures TotalsOf([t]) ==
              match t.booking
              case Expected => Totals(1, t.net, 0, 0, 0, t.net)
              case SimulatedOk => Totals(1, t.net, 0, 0, 0, t.net)
              case Realised => Totals(1, t.net, 1, t.net, 0, t.net)
              case Nothing => Totals(1, 0, 0, 0, 1, t.net)
  {
    assert TotalsOf([]) == Totals(0, 0, 0, 0, 0, 0) && [] + [t] == [t];
    RecordStep([], t);
  }

  function Joined(s: Totals, t: Totals): Totals {
    Totals(s.attempts + t.attempts, s.expected + t.expected, s.sent + t.sent, s.realised + t.realised,
           s.refused + t.refused, Max(s.best, t.best))
  }

  lemma CountedJoins(s: Totals, t: Totals, x: Trade)
    ensures Counted(Joined(s, t), x) == Joined(s, Counted(t, x))
  {
  }

  /** Two histories in one: every total is the sum, and the best is the better. */
  lemma {:induction false} TotalsAddUp(a: seq<Trade>, b: seq<Trade>)
    ensures TotalsOf(a + b) == Joined(TotalsOf(a), TotalsOf(b))
  {
    if b == [] {
      assert a + b == a;
    } else {
      assert a + b == a + Front(b) + [Last(b)] && b == Front(b) + [Last(b)];
      TotalsAddUp(a, Front(b));
      RecordStep(a + Front(b), Last(b));
      RecordStep(Front(b), Last(b));
      CountedJoins(TotalsOf(a), TotalsOf(Front(b)), Last(b));
    }
  }

  /** In every reachable ledger: nothing is realised that was not expected, and
      every attempt is refused, sent, or found without being sent. */
  lemma {:induction false} TotalsAreHonest(h: seq<Trade>)
    ensures var t := TotalsOf(h);
            && t.realised <= t.expected
            && t.attempts == t.sent + t.refused + Number(h, Is(Expected)) + Number(h, Is(SimulatedOk))
            && (t.sent == 0 ==> t.realised == 0)
            && (forall x :: x in h ==> x.net <= t.best)
            && (h != [] ==> exists x :: x in h && x.net == t.best)
  {
    NetGrows(h, Is(Realised), Worth());
    BookingsPartition(h);
    NothingRealised(h);
    WidestIsMax(h);
  }

  lemma {:induction false} BookingsPartition(h: seq<Trade>)
    ensures |h|
             == Number(h, Is(Realised)) + Number(h, Is(Nothing)) + Number(h, Is(Expected)) + Number(h, Is(SimulatedOk))
  {
    if h != [] {
      BookingsPartition(Front(h));
    }
  }

  lemma {:induction false} NothingRealised(h: seq<Trade>)
    ensures Number(h, Is(Realised)) == 0 ==> Net(h, Is(Realised)) == 0
  {
    if h != [] {
      NothingRealised(Front(h));
    }
  }

  lemma {:induction false} WidestIsMax(h: seq<Trade>)
    ensures forall x :: x in h ==> x.net <= Widest(h)
    ensures h != [] ==> exists x :: x in h && x.net == Widest(h)
  {
    if h != [] {
      assert h == Front(h) + [Last(h)] && Last(h) in h;
      WidestIsMax(Front(h));
      if Last(h).net < Widest(h) {
        var x :| x in Front(h) && x.net == Widest(Front(h));
        assert x in h;
      }
    }
  }
}
