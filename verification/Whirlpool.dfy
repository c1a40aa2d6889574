/** Reading a pool's price off its account bytes (src/bot/whirlpool.rs). The
    price is the exact rational the bytes encode. */
module Whirlpool {
  import opened Prelude

  type byte = n: nat | n < 256

  const FEE_RATE_OFFSET: nat := 45
  const SQRT_PRICE_OFFSET: nat := 65
  const SQRT_PRICE_LEN: nat := 16

  /** A fee rate of 10 000 is one percent. */
  datatype PoolState = PoolState(price: real, feeRate: nat)

  /** Rounded up, so that rounding can only make a trade look worse. */
  function FeeBps(s: PoolState): nat { (s.feeRate + 99) / 100 }

  /** Little-endian bytes as a number. */
  function FromLe(bytes: seq<byte>): nat
  {
    if bytes == [] then 0 else bytes[0] + 256 * FromLe(bytes[1..])
  }

  function ToLe(n: nat, len: nat): (bytes: seq<byte>)
    ensures |bytes| == len
  {
    if len == 0 then [] else [n % 256] + ToLe(n / 256, len - 1)
  }

  function Pow256(k: nat): nat { if k == 0 then 1 else 256 * Pow256(k - 1) }

  /** A written field reads back as the number, and a read field writes back as
      the same bytes. */
  lemma {:induction false} LeRoundTrip(n: nat, len: nat)
    requires n < Pow256(len)
    ensures FromLe(ToLe(n, len)) == n
  {
    if len > 0 {
      LeRoundTrip(n / 256, len - 1);
      assert ToLe(n, len)[1..] == ToLe(n / 256, len - 1);
    }
  }

  lemma {:induction false} LeReadBack(bytes: seq<byte>)
    ensures FromLe(bytes) < Pow256(|bytes|)
    ensures ToLe(FromLe(bytes), |bytes|) == bytes
  {
    if bytes != [] {
      LeReadBack(bytes[1..]);
      LowestByte(bytes[0], FromLe(bytes[1..]));
      assert bytes == [bytes[0]] + bytes[1..];
    }
  }

  lemma LowestByte(low: byte, rest: nat)
    ensures (low + 256 * rest) % 256 == low && (low + 256 * rest) / 256 == rest
  {
  }

  const TWO64: real := 18446744073709551616.0

  /** Ten to a power of either sign. */
  function Pow10(e: int): (r: real)
    ensures r > 0.0
    decreases if e < 0 then -e else e
  {
    if e == 0 then 1.0 else if e > 0 then 10.0 * Pow10(e - 1) else Pow10(e + 1) / 10.0
  }

  function PriceOf(sqrtPrice: nat, decimalsA: int, decimalsB: int): real
  {
    var ratio := sqrtPrice as real / TWO64;
    ratio * ratio * Pow10(decimalsA - decimalsB)
  }

  /** No state at all from an account that is too short, or priced at zero. */
  function Decode(data: seq<byte>, decimalsA: int, decimalsB: int): Option<PoolState>
  {
    if |data| < SQRT_PRICE_OFFSET + SQRT_PRICE_LEN then None else
      var feeRate := FromLe(data[FEE_RATE_OFFSET..FEE_RATE_OFFSET + 2]);
      var sqrtPrice := FromLe(data[SQRT_PRICE_OFFSET..SQRT_PRICE_OFFSET + SQRT_PRICE_LEN]);
      if sqrtPrice == 0 then None else
        Some(PoolState(PriceOf(sqrtPrice, decimalsA, decimalsB), feeRate))
  }

  /** An account whose two fields are written into any surrounding bytes. */
  function Encode(head: seq<byte>, feeRate: nat, middle: seq<byte>, sqrtPrice: nat, tail: seq<byte>): seq<byte>
    requires |head| == FEE_RATE_OFFSET && |middle| == SQRT_PRICE_OFFSET - FEE_RATE_OFFSET - 2
  {
    head + ToLe(feeRate, 2) + middle + ToLe(sqrtPrice, SQRT_PRICE_LEN) + tail
  }

  /** Decoding reads exactly the two fields, whatever surrounds them, and
      refuses exactly the zero price. */
  lemma DecodeReadsWhatWasWritten(head: seq<byte>, feeRate: nat, middle: seq<byte>, sqrtPrice: nat,
                                  tail: seq<byte>, decimalsA: int, decimalsB: int)
    requires |head| == FEE_RATE_OFFSET && |middle| == SQRT_PRICE_OFFSET - FEE_RATE_OFFSET - 2
    requires feeRate < 0x1_0000 && sqrtPrice < Pow256(SQRT_PRICE_LEN)
    ensures Decode(Encode(head, feeRate, middle, sqrtPrice, tail), decimalsA, decimalsB)
         == if sqrtPrice == 0 then None else Some(PoolState(PriceOf(sqrtPrice, decimalsA, decimalsB), feeRate))
  {
    var data := Encode(head, feeRate, middle, sqrtPrice, tail);
    assert data[FEE_RATE_OFFSET..FEE_RATE_OFFSET + 2] == ToLe(feeRate, 2);
    assert data[SQRT_PRICE_OFFSET..SQRT_PRICE_OFFSET + SQRT_PRICE_LEN] == ToLe(sqrtPrice, SQRT_PRICE_LEN);
    assert Pow256(2) == 0x1_0000;
    LeRoundTrip(feeRate, 2);
    LeRoundTrip(sqrtPrice, SQRT_PRICE_LEN);
  }

  /** An account decodes exactly when it reaches to the end of the price and some
      byte of the price is not zero; the fee rate is the two bytes at its offset. */
  lemma DecodesExactly(data: seq<byte>, decimalsA: int, decimalsB: int)
    ensures var r := Decode(data, decimalsA, decimalsB);
            && (r.Some? <==> |data| >= 81 && exists k :: 65 <= k < 81 && data[k] != 0)
            && (r.Some? ==> r.value.feeRate == data[45] as nat + 256 * data[46] as nat)
  {
    if |data| >= 81 {
      var field := data[65..81];
      ZeroField(field);
      assert forall k :: 65 <= k < 81 ==> data[k] == field[k - 65];
      assert data[45..47] == [data[45], data[46]];
      assert FromLe([data[45], data[46]]) == data[45] + 256 * FromLe([data[46]]) && FromLe([data[46]]) == data[46];
    }
  }

  lemma {:induction false} ZeroField(bytes: seq<byte>)
    ensures FromLe(bytes) == 0 <==> forall k :: 0 <= k < |bytes| ==> bytes[k] == 0
  {
    if bytes != [] {
      ZeroField(bytes[1..]);
      assert forall k :: 1 <= k < |bytes| ==> bytes[k] == bytes[1..][k - 1];
    }
  }

  function TenTo(n: nat): nat { if n == 0 then 1 else 10 * TenTo(n - 1) }

  lemma {:induction false} TensOfEitherSign(n: nat)
    ensures Pow10(n) == TenTo(n) as real && Pow10(0 - n) * TenTo(n) as real == 1.0
  {
    if n > 0 {
      TensOfEitherSign(n - 1);
      assert Pow10(0 - n) * 10.0 == Pow10(0 - (n - 1));
    }
  }

  /** The price is the square of the stored 64.64 fixed-point root, scaled up by
      each decimal the first token has more than the second, and down by each it
      has fewer: one whole first token in whole second tokens. */
  lemma PriceIsTheScaledSquare(root: nat, decimalsA: int, decimalsB: int, up: nat, down: nat)
    requires decimalsA - decimalsB == up - down
    ensures PriceOf(root, decimalsA, decimalsB) * TWO64 * TWO64 * TenTo(down) as real
         == root as real * root as real * TenTo(up) as real
  {
    TensBetween(Pow10(up - down), up - down, up, down);
    ScaledOut(root as real / TWO64, TWO64, Pow10(up - down), TenTo(down) as real);
  }

  lemma ScaledOut(q: real, t: real, p: real, n: real)
    ensures q * q * p * t * t * n == (q * t) * (q * t) * (p * n)
  {
    Commuted(q * q, p, t, t * n);
    assert q * q * p * t * t * n == (q * q) * p * t * (t * n);
    assert (q * q) * t * (t * n) == (q * t) * (q * t) * n;
  }

  lemma Commuted(x: real, p: real, t: real, y: real)
    ensures x * p * t * y == x * t * y * p
  {
  }

  lemma {:induction false} TensBetween(p: real, e: int, up: nat, down: nat)
    requires e == up - down && p == Pow10(e)
    ensures p * TenTo(down) as real == TenTo(up) as real
    decreases up
  {
    if down == 0 || up == 0 {
      TensOneWay(e, up, down);
    } else {
      TensBetween(p, e, up - 1, down - 1);
      TenMore(p, up, down);
    }
  }

  lemma TensOneWay(e: int, up: nat, down: nat)
    requires e == up - down && (up == 0 || down == 0)
    ensures Pow10(e) * TenTo(down) as real == TenTo(up) as real
  {
    TensOfEitherSign(up);
    TensOfEitherSign(down);
    if down == 0 {
      assert TenTo(down) == 1 && e == up;
    } else {
      assert TenTo(up) == 1 && e == 0 - down;
    }
  }

  lemma TenMore(p: real, up: nat, down: nat)
    requires up > 0 && down > 0 && p * TenTo(down - 1) as real == TenTo(up - 1) as real
    ensures p * TenTo(down) as real == TenTo(up) as real
  {
    var m, n := TenTo(down - 1) as real, TenTo(up - 1) as real;
    assert TenTo(down) as real == 10.0 * m && TenTo(up) as real == 10.0 * n;
    assert p * (10.0 * m) == 10.0 * (p * m);
  }

  lemma PriceIsPositive(sqrtPrice: nat, decimalsA: int, decimalsB: int)
    requires sqrtPrice > 0
    ensures PriceOf(sqrtPrice, decimalsA, decimalsB) > 0.0
  {
  }

  lemma PositiveProduct(a: real, b: real)
    requires a > 0.0 && b > 0.0
    ensures a * b > 0.0
  {
  }

  lemma NotNegative(x: real, y: real)
    requires x >= 0.0 && y >= 0.0
    ensures x * y >= 0.0
  {
  }
}
