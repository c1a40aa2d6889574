/** The watched pools (src/bot/pools.rs) and the shared price book
    (src/bot/prices.rs). */
module Pools {
  import opened Prelude
  import opened Sorting
  import opened Arb

  /** `tag` is the pool's label on the screen. */
  datatype Pool = Pool(pair: string, address: Pubkey, tag: string, decimalsA: int, decimalsB: int)

  /** The latest price of each pool that has one, by address. */
  type Book = map<Pubkey, Priced>

  function Find(pools: seq<Pool>, address: Pubkey): (r: Option<Pool>)
    ensures r.Some? ==> r.value in pools && r.value.address == address
    ensures r.None? <==> forall p :: p in pools ==> p.address != address
  {
    if pools == [] then None
    else if pools[0].address == address then Some(pools[0])
    else
      assert pools == [pools[0]] + pools[1..];
      Find(pools[1..], address)
  }

  /** With an address listed twice, the first pool listed under it is found. */
  lemma {:induction false} FindIsFirst(pools: seq<Pool>, address: Pubkey, i: nat)
    requires i < |pools| && pools[i].address == address
    requires forall j :: 0 <= j < i ==> pools[j].address != address
    ensures Find(pools, address) == Some(pools[i])
  {
    if i > 0 {
      assert pools[0].address != address;
      FindIsFirst(pools[1..], address, i - 1);
    }
  }

  predicate IsSibling(pool: Pool, other: Pool) { other.pair == pool.pair && other.address != pool.address }

  function Siblings(pools: seq<Pool>, pool: Pool): seq<Pool> {
    Filter(pools, (other: Pool) => IsSibling(pool, other))
  }

  function Members(pools: seq<Pool>, pair: string): seq<Pool> {
    Filter(pools, (p: Pool) => p.pair == pair)
  }

  /** Two pools of one pair never share a label. */
  ghost predicate DistinctTags(pools: seq<Pool>) {
    forall p, q :: p in pools && q in pools && IsSibling(p, q) ==> p.tag != q.tag
  }

  ghost predicate DistinctAddresses(pools: seq<Pool>) {
    forall i, j :: 0 <= i < j < |pools| ==> pools[i].address != pools[j].address
  }

  lemma SiblingsAre(pools: seq<Pool>, pool: Pool)
    ensures forall s :: s in Siblings(pools, pool) <==> s in pools && s.pair == pool.pair && s.address != pool.address
  {
    FilterMembers(pools, (other: Pool) => IsSibling(pool, other));
  }

  // ----- the pairs, each once -----

  function Dedup(s: seq<string>): seq<string> {
    if |s| <= 1 then s else if s[0] == s[1] then Dedup(s[1..]) else [s[0]] + Dedup(s[1..])
  }

  function PairNames(pools: seq<Pool>): seq<string> {
    seq(|pools|, i requires 0 <= i < |pools| => pools[i].pair)
  }

  function Pairs(pools: seq<Pool>): seq<string> { Dedup(Sort(PairNames(pools), StrLe)) }

  lemma {:induction false} DedupSorted(s: seq<string>)
    requires Sorted(s, StrLe)
    ensures forall x :: x in Dedup(s) <==> x in s
    ensures Sorted(Dedup(s), StrLe) && NoDuplicates(Dedup(s))
    ensures s != [] ==> Dedup(s) != [] && Dedup(s)[0] == s[0]
  {
    StrOrder();
    if |s| > 1 {
      DedupSorted(s[1..]);
      assert s == [s[0]] + s[1..];
      if s[0] != s[1] {
        var rest := Dedup(s[1..]);
        forall j | 0 <= j < |rest|
          ensures StrLe(s[0], rest[j]) && s[0] != rest[j]
        {
          assert rest[j] in s[1..];
          assert StrLe(s[1], rest[j]) && StrLe(s[0], s[1]);
        }
      }
    }
  }

  /** Every pair is listed exactly once, in order. */
  lemma PairsAreOnce(pools: seq<Pool>)
    ensures NoDuplicates(Pairs(pools)) && Sorted(Pairs(pools), StrLe)
    ensures forall x :: x in Pairs(pools) <==> exists p :: p in pools && p.pair == x
  {
    StrOrder();
    var names := PairNames(pools);
    SortSorts(names, StrLe);
    SortPermutes(names, StrLe);
    DedupSorted(Sort(names, StrLe));
    forall x
      ensures x in names <==> exists p :: p in pools && p.pair == x
    {
      if x in names {
        var i :| 0 <= i < |names| && names[i] == x;
        assert pools[i] in pools;
      }
      if p :| p in pools && p.pair == x {
        var i :| 0 <= i < |pools| && pools[i] == p;
        assert names[i] == x;
      }
    }
  }

  /** The latest price of each pool. One lock guards it; here a call sees it
      unchanged from start to end. */
  class PriceBook {
    var inner: Book

    constructor ()
      ensures inner == map[]
    {
      inner := map[];
    }

    method Set(pool: Pubkey, priced: Priced)
      modifies this
      ensures inner == old(inner)[pool := priced]
    {
      inner := inner[pool := priced];
    }

    function Get(pool: Pubkey): (r: Option<Priced>)
      reads this
      ensures r.Some? <==> pool in inner
      ensures r.Some? ==> r.value == inner[pool]
    {
      if pool in inner then Some(inner[pool]) else None
    }

    method Clear()
      modifies this
      ensures inner == map[]
    {
      inner := map[];
    }
  }
}
