/** Vocabulary shared by every component of the model: optional values and
    results, the 64-bit unsigned range, the monotone clock, counters kept in a
    map, and sums over a map's values. */
module Prelude {

  datatype Option<+T> = None | Some(value: T)

  datatype Result<+T, +E> = Ok(value: T) | Err(error: E)

  /** Readings of the one monotone clock, and spans of it, in nanoseconds. */
  type Instant = nat
  type Duration = nat

  const NANOS_PER_MILLI: nat := 1_000_000

  const U64_MAX: nat := 0xFFFF_FFFF_FFFF_FFFF
  type u64 = n: nat | n <= U64_MAX

  /** A pool address in its base58 spelling, whose alphabet has no vertical bar. */
  type Pubkey = s: string | '|' !in s

  function Min(a: int, b: int): int { if a <= b then a else b }

  function Max(a: int, b: int): int { if a >= b then a else b }

  /** `saturating_sub`, which is also what `saturating_duration_since` does. */
  function SatSub(a: nat, b: nat): nat { if a >= b then a - b else 0 }

  // ----- counters held in a map: absent means zero -----

  function Count<K>(m: map<K, nat>, k: K): nat { if k in m then m[k] else 0 }

  function Bump<K>(m: map<K, nat>, k: K): map<K, nat> { m[k := Count(m, k) + 1] }

  // ----- sequences -----

  function Last<T>(s: seq<T>): T
    requires s != []
  {
    s[|s| - 1]
  }

  function Front<T>(s: seq<T>): seq<T>
    requires s != []
  {
    s[..|s| - 1]
  }

  /** The last `k` elements, or all of them when there are fewer. */
  function LastK<T>(s: seq<T>, k: nat): seq<T> { if |s| <= k then s else s[|s| - k..] }

  function Filter<T>(s: seq<T>, p: T -> bool): seq<T>
  {
    if s == [] then [] else Filter(Front(s), p) + if p(Last(s)) then [Last(s)] else []
  }

  function Reverse<T>(s: seq<T>): (r: seq<T>)
    ensures |r| == |s|
    ensures forall i :: 0 <= i < |s| ==> r[i] == s[|s| - 1 - i]
  {
    seq(|s|, i requires 0 <= i < |s| => s[|s| - 1 - i])
  }

  ghost predicate NoDuplicates<T>(s: seq<T>) { forall i, j :: 0 <= i < j < |s| ==> s[i] != s[j] }

  lemma {:induction false} FilterAppend<T>(s: seq<T>, t: seq<T>, p: T -> bool)
    ensures Filter(s + t, p) == Filter(s, p) + Filter(t, p)
  {
    if t == [] {
      assert s + t == s;
    } else {
      assert Front(s + t) == s + Front(t) && Last(s + t) == Last(t);
      FilterAppend(s, Front(t), p);
    }
  }

  lemma {:induction false} FilterMembers<T>(s: seq<T>, p: T -> bool)
    ensures forall x :: x in Filter(s, p) <==> x in s && p(x)
    ensures |Filter(s, p)| <= |s|
  {
    if s != [] {
      FilterMembers(Front(s), p);
      assert s == Front(s) + [Last(s)];
    }
  }

  lemma {:induction false} FilterAll<T>(s: seq<T>, p: T -> bool)
    requires forall x :: x in s ==> p(x)
    ensures Filter(s, p) == s
  {
    if s != [] {
      assert s == Front(s) + [Last(s)];
      FilterAll(Front(s), p);
    }
  }

  lemma {:induction false} FilterNone<T>(s: seq<T>, p: T -> bool)
    requires forall x :: x in s ==> !p(x)
    ensures Filter(s, p) == []
  {
    if s != [] {
      assert s == Front(s) + [Last(s)];
      FilterNone(Front(s), p);
    }
  }

  lemma {:induction false} FilterAlike<T>(s: seq<T>, p: T -> bool, q: T -> bool)
    requires forall x :: x in s ==> p(x) == q(x)
    ensures Filter(s, p) == Filter(s, q)
  {
    if s != [] {
      assert s == Front(s) + [Last(s)];
      FilterAlike(Front(s), p, q);
    }
  }

  /** Where in the list `p` holds. */
  ghost function Places<T>(s: seq<T>, p: T -> bool): set<nat> { set k: nat | k < |s| && p(s[k]) }

  lemma {:induction false} FilterPlaces<T>(s: seq<T>, p: T -> bool)
    ensures |Filter(s, p)| == |Places(s, p)|
  {
    if s == [] {
      assert Places(s, p) == {};
    } else {
      FilterPlaces(Front(s), p);
      var n := |s| - 1;
      assert Places(s, p) == Places(Front(s), p) + if p(s[n]) then {n} else {};
    }
  }

  lemma {:induction false} FilterBoth<T>(s: seq<T>, p: T -> bool, q: T -> bool, both: T -> bool)
    requires forall x :: both(x) == (p(x) && q(x))
    ensures Filter(Filter(s, p), q) == Filter(s, both)
  {
    if s != [] {
      FilterBoth(Front(s), p, q, both);
      if p(Last(s)) {
        assert Front(Filter(Front(s), p) + [Last(s)]) == Filter(Front(s), p);
      } else {
        assert Filter(s, p) == Filter(Front(s), p);
      }
    }
  }

  /** Where a filter's elements stand in the list: in order, and wherever `p` holds. */
  lemma {:induction false} FilterIndex<T>(s: seq<T>, p: T -> bool) returns (idx: seq<nat>)
    ensures |idx| == |Filter(s, p)|
    ensures forall k :: 0 <= k < |idx| ==> idx[k] < |s| && p(s[idx[k]]) && Filter(s, p)[k] == s[idx[k]]
    ensures forall k, l :: 0 <= k < l < |idx| ==> idx[k] < idx[l]
    ensures forall m :: 0 <= m < |s| && p(s[m]) ==> m in idx
  {
    if s == [] {
      idx := [];
    } else {
      var n := |s| - 1;
      idx := FilterIndex(Front(s), p);
      assert forall m :: 0 <= m < n ==> Front(s)[m] == s[m];
      idx := idx + if p(s[n]) then [n] else [];
    }
  }

  /** Two lists without repeats and with the same members are permutations. */
  lemma {:induction false} SameMembersSameMultiset<T>(a: seq<T>, b: seq<T>)
    requires NoDuplicates(a) && NoDuplicates(b)
    requires forall x :: x in a <==> x in b
    ensures multiset(a) == multiset(b)
  {
    forall x
      ensures multiset(a)[x] == multiset(b)[x]
    {
      OnceAtMost(a, x);
      OnceAtMost(b, x);
    }
  }

  lemma {:induction false} OnceAtMost<T>(a: seq<T>, x: T)
    requires NoDuplicates(a)
    ensures multiset(a)[x] == if x in a then 1 else 0
  {
    if a != [] {
      assert a == Front(a) + [Last(a)];
      OnceAtMost(Front(a), x);
    }
  }

  // ----- sums over a map -----

  ghost function SumMap<K>(m: map<K, nat>): nat
  {
    if m == map[] then 0 else
      var k :| k in m;
      m[k] + SumMap(m - {k})
  }

  lemma {:induction false} SumRemove<K>(m: map<K, nat>, k: K)
    requires k in m
    ensures SumMap(m) == m[k] + SumMap(m - {k})
    decreases |m|
  {
    var j :| j in m && SumMap(m) == m[j] + SumMap(m - {j});
    if j != k {
      SumRemove(m - {j}, k);
      SumRemove(m - {k}, j);
      assert m - {j} - {k} == m - {k} - {j};
    }
  }

  lemma SumUpdate<K>(m: map<K, nat>, k: K, v: nat)
    ensures SumMap(m[k := v]) + Count(m, k) == SumMap(m) + v
  {
    SumRemove(m[k := v], k);
    if k in m {
      SumRemove(m, k);
      assert m[k := v] - {k} == m - {k};
    } else {
      assert m[k := v] - {k} == m;
    }
  }

  /** A map of zeros sums to zero. */
  lemma {:induction false} SumZero<K>(m: map<K, nat>)
    requires forall k :: k in m ==> m[k] == 0
    ensures SumMap(m) == 0
    decreases |m|
  {
    if m != map[] {
      var k :| k in m;
      SumRemove(m, k);
      SumZero(m - {k});
    }
  }
}
