/** The price stream (src/bot/prices.rs) and its sibling on the RPC lane
    (src/rpc_lane.rs) as protocols: connect, acknowledge, notify, drop, clear,
    in any order the network brings them, with looks by the bots in between. */
module Stream {
  import opened Prelude
  import opened Whirlpool
  import opened Arb
  import opened Pools

  /** What the stream goes through. A notification's `origin` is the account its
      bytes really belong to, which the program cannot see. */
  datatype Step =
    | Connected
    | Acked(id: nat, subscription: nat)
    | Notified(subscription: nat, slot: nat, data: seq<byte>, at: Instant, origin: Pubkey)
    | Dropped
    | Cleared

  datatype Phase = Idle | Streaming | Lost

  datatype StreamState = StreamState(phase: Phase, subs: map<nat, nat>, book: Book)

  const NOT_CONNECTED: StreamState := StreamState(Idle, map[], map[])

  /** The book with this pool repriced, if its bytes decode at all. */
  function Absorbed(book: Book, pool: Pool, slot: nat, data: seq<byte>, at: Instant): Book {
    match Decode(data, pool.decimalsA, pool.decimalsB)
    case Some(state) => book[pool.address := Priced(state, slot, at)]
    case None => book
  }

  ghost predicate Enabled(st: StreamState, step: Step) {
    match step
    case Connected => st.phase.Idle?
    case Acked(_, _) => st.phase.Streaming?
    case Notified(_, _, _, _, _) => st.phase.Streaming?
    case Dropped => !st.phase.Lost?
    case Cleared => st.phase.Lost?
  }

  function Apply(pools: seq<Pool>, st: StreamState, step: Step): StreamState {
    match step
    case Connected => st.(phase := Streaming, subs := map[])
    case Acked(id, sub) => if id > 0 then st.(subs := st.subs[sub := id - 1]) else st
    case Notified(sub, slot, data, at, _) =>
      if sub in st.subs && st.subs[sub] < |pools|
      then st.(book := Absorbed(st.book, pools[st.subs[sub]], slot, data, at)) else st
    case Dropped => st.(phase := Lost, subs := map[])
    case Cleared => st.(phase := Idle, book := map[])
  }

  /** The price side's connection, and which pool each subscription was
      acknowledged for. */
  class PriceFeed {
    const pools: seq<Pool>
    const book: PriceBook
    var phase: Phase
    var bySubscription: map<nat, nat>

    ghost function State(): StreamState
      reads this, book
    {
      StreamState(phase, bySubscription, book.inner)
    }

    constructor (pools: seq<Pool>, book: PriceBook)
      ensures this.pools == pools && this.book == book
      ensures phase == Idle && bySubscription == map[]
    {
      this.pools, this.book := pools, book;
      phase, bySubscription := Idle, map[];
    }

    method Connect()
      modifies this
      ensures State() == Apply(pools, old(State()), Connected)
    {
      phase, bySubscription := Streaming, map[];
    }

    method OnAck(id: nat, subscription: nat)
      modifies this
      ensures State() == Apply(pools, old(State()), Acked(id, subscription))
    {
      if id > 0 {
        bySubscription := bySubscription[subscription := id - 1];
      }
    }

    method OnNotification(subscription: nat, slot: nat, data: seq<byte>, at: Instant, ghost origin: Pubkey)
      modifies this, book
      ensures State() == Apply(pools, old(State()), Notified(subscription, slot, data, at, origin))
    {
      if subscription !in bySubscription || bySubscription[subscription] >= |pools| {
        return;
      }
      var taken := Absorb(pools[bySubscription[subscription]], slot, data, at);
    }

    method Absorb(pool: Pool, slot: nat, data: seq<byte>, at: Instant) returns (taken: bool)
      modifies book
      ensures book.inner == Absorbed(old(book.inner), pool, slot, data, at)
      ensures taken <==> Decode(data, pool.decimalsA, pool.decimalsB).Some?
    {
      var state := Decode(data, pool.decimalsA, pool.decimalsB);
      taken := state.Some?;
      if taken {
        book.Set(pool.address, Priced(state.value, slot, at));
      }
    }

    method Drop()
      modifies this
      ensures State() == Apply(pools, old(State()), Dropped)
    {
      phase, bySubscription := Lost, map[];
    }

    /** After a drop no price is kept, and a new connection may start. */
    method ClearBook()
      modifies this, book
      ensures State() == Apply(pools, old(State()), Cleared)
    {
      book.Clear();
      phase := Idle;
    }
  }

  // ----- the RPC lane's side -----

  /** What a lane's acknowledgements say each subscription watches. */
  class Watched {
    var bySubscription: map<nat, Pubkey>

    constructor ()
      ensures bySubscription == map[]
    {
      bySubscription := map[];
    }

    method AbsorbAck(id: nat, subscription: nat, mentions: seq<Pubkey>)
      modifies this
      ensures bySubscription == WatchedAfter(old(bySubscription), mentions, (id, subscription))
    {
      if id > 0 && id - 1 < |mentions| {
        bySubscription := bySubscription[subscription := mentions[id - 1]];
      }
    }

    function AccountsFor(subscription: nat): (keys: seq<Pubkey>)
      reads this
      ensures |keys| <= 1
      ensures forall k :: k in keys <==> subscription in bySubscription && bySubscription[subscription] == k
    {
      if subscription in bySubscription then [bySubscription[subscription]] else []
    }
  }

  function WatchedAfter(watched: map<nat, Pubkey>, mentions: seq<Pubkey>, ack: (nat, nat)): map<nat, Pubkey> {
    if ack.0 > 0 && ack.0 - 1 < |mentions| then watched[ack.1 := mentions[ack.0 - 1]] else watched
  }
}
