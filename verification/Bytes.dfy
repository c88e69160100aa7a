/** Bytes, bit operations on unbounded integers, little-endian numbers and variable-length integers. */
module Bytes {
  import opened Wrappers
  import opened Arithmetic

  type byte = x: int | 0 <= x < 256

  function Pow(base: nat, n: nat): nat {
    if n == 0 then 1 else base * Pow(base, n - 1)
  }

  lemma {:induction false} PowPositive(base: nat, n: nat)
    requires base > 0
    ensures Pow(base, n) > 0
  {
    if n > 0 { PowPositive(base, n - 1); }
  }

  lemma {:induction false} PowAdds(base: nat, m: nat, n: nat)
    ensures Pow(base, m + n) == Pow(base, m) * Pow(base, n)
  {
    if m > 0 {
      PowAdds(base, m - 1, n);
      MulAssociative(base, Pow(base, m - 1), Pow(base, n));
    }
  }

  lemma {:induction false} PowOfPow(base: nat, m: nat, n: nat)
    ensures Pow(base, m * n) == Pow(Pow(base, m), n)
  {
    if n > 0 {
      PowOfPow(base, m, n - 1);
      assert m * n == m + m * (n - 1);
      PowAdds(base, m, m * (n - 1));
    }
  }

  // ---- Bit operations: `a | b`, and the shift `a << s` as a product ----

  function BitOr(a: nat, b: nat): nat {
    if a == 0 && b == 0 then 0
    else 2 * BitOr(a / 2, b / 2) + if a % 2 == 1 || b % 2 == 1 then 1 else 0
  }

  function Shl(a: nat, s: nat): nat {
    a * Pow(2, s)
  }

  lemma {:induction false} OrZero(a: nat)
    ensures BitOr(a, 0) == a && BitOr(0, a) == a
  {
    if a > 0 { OrZero(a / 2); }
  }

  /** Bits that do not overlap simply add. */
  lemma {:induction false} OrDisjoint(low: nat, high: nat, s: nat)
    requires low < Pow(2, s)
    ensures BitOr(low, Shl(high, s)) == low + Shl(high, s)
  {
    if s == 0 {
      OrZero(high);
    } else {
      var b := Shl(high, s);
      assert b == 2 * Shl(high, s - 1) by {
        assert high * (2 * Pow(2, s - 1)) == 2 * (high * Pow(2, s - 1));
      }
      OrDisjoint(low / 2, high, s - 1);
      if low == 0 && b == 0 {
      } else {
        assert b / 2 == Shl(high, s - 1) && b % 2 == 0;
      }
    }
  }

  // ---- Slices and little-endian numbers ----

  /** Python's `b[i:j]`, clipped to the bytes there are. */
  function Slice(b: seq<byte>, i: nat, j: nat): (r: seq<byte>)
    requires i <= j
    ensures j <= |b| ==> r == b[i..j]
  {
    if j <= |b| then b[i..j] else if i <= |b| then b[i..] else []
  }

  /** `int.from_bytes(b, "little")` */
  function FromLE(b: seq<byte>): nat {
    if b == [] then 0 else b[0] + 256 * FromLE(b[1..])
  }

  function ToLE(x: nat, n: nat): (b: seq<byte>)
    ensures |b| == n
  {
    if n == 0 then [] else [x % 256] + ToLE(x / 256, n - 1)
  }

  lemma {:induction false} FromToLE(x: nat, n: nat)
    requires x < Pow(256, n)
    ensures FromLE(ToLE(x, n)) == x
  {
    if n > 0 {
      assert x / 256 < Pow(256, n - 1);
      FromToLE(x / 256, n - 1);
      assert ToLE(x, n)[1..] == ToLE(x / 256, n - 1);
    }
  }

  /** As many bytes as there are hold their number and give it back. */
  lemma {:induction false} ToFromLE(b: seq<byte>)
    ensures FromLE(b) < Pow(256, |b|) && ToLE(FromLE(b), |b|) == b
  {
    if b != [] {
      ToFromLE(b[1..]);
      assert FromLE(b) / 256 == FromLE(b[1..]) && FromLE(b) % 256 == b[0];
      assert b == [b[0]] + b[1..];
    }
  }

  /** `part` lies in `whole` from position `pos` on. */
  ghost predicate At(whole: seq<byte>, pos: nat, part: seq<byte>) {
    pos + |part| <= |whole| && whole[pos..pos + |part|] == part
  }

  lemma AtSplit(whole: seq<byte>, pos: nat, a: seq<byte>, b: seq<byte>)
    requires At(whole, pos, a + b)
    ensures At(whole, pos, a) && At(whole, pos + |a|, b)
  {
    var both := whole[pos..pos + |a + b|];
    assert both[..|a|] == a && both[|a|..] == b;
    assert whole[pos..pos + |a|] == both[..|a|];
    assert whole[pos + |a|..pos + |a| + |b|] == both[|a|..];
  }

  lemma SliceAt(whole: seq<byte>, pos: nat, part: seq<byte>)
    requires At(whole, pos, part)
    ensures Slice(whole, pos, pos + |part|) == part
  {}

  lemma AtFirst(whole: seq<byte>, pos: nat, part: seq<byte>)
    requires At(whole, pos, part) && part != []
    ensures pos < |whole| && whole[pos] == part[0] && At(whole, pos + 1, part[1..])
  {
    assert part == [part[0]] + part[1..];
    AtSplit(whole, pos, [part[0]], part[1..]);
    assert whole[pos] == whole[pos..pos + |part|][0];
  }

  // ---- Variable-length integers: seven bits to a byte, low bits first ----

  /** Seven bits to a byte, the lowest first, the high bit set on all but the last; with `pad` bytes of zeros more. */
  ghost function PaddedVarint(n: nat, pad: nat): (b: seq<byte>)
    ensures b != []
    decreases n + pad
  {
    if n >= 128 then [128 + n % 128] + PaddedVarint(n / 128, pad)
    else if pad > 0 then [128 + n] + PaddedVarint(0, pad - 1)
    else [n]
  }

  /** As short as can be. */
  ghost function WriteVarint(n: nat): (b: seq<byte>)
    ensures b != []
  {
    PaddedVarint(n, 0)
  }

  /** What the reading loop computes from `pos` on; None where it runs off the end of the buffer. */
  function ReadVarint(buf: seq<byte>, pos: nat, acc: nat, shift: nat): (r: Option<(nat, nat)>)
    ensures r.Some? ==> pos < r.value.1 <= |buf|
    decreases |buf| - pos
  {
    if pos >= |buf| then None
    else
      var c := buf[pos];
      var acc' := BitOr(acc, Shl(c % 128, shift));
      if c < 128 then Some((acc', pos + 1)) else ReadVarint(buf, pos + 1, acc', shift + 7)
  }

  method Varint(buf: seq<byte>, start: nat) returns (r: Option<(nat, nat)>)
    ensures r == ReadVarint(buf, start, 0, 0)
  {
    var pos, value, shift := start, 0, 0;
    while pos < |buf|
      invariant start <= pos
      invariant ReadVarint(buf, pos, value, shift) == ReadVarint(buf, start, 0, 0)
      decreases |buf| - pos
    {
      var c := buf[pos];
      pos, value := pos + 1, BitOr(value, Shl(c % 128, shift));
      if c < 128 {
        return Some((value, pos));
      }
      shift := shift + 7;
    }
    r := None;
  }

  lemma SevenBits(c: nat, h: nat, p: nat)
    ensures c * p + h * (p * 128) == (c + h * 128) * p
    ensures c * p == p * c
  {}

  lemma LowAndHigh(n: nat, acc: nat, shift: nat)
    requires acc < Pow(2, shift)
    ensures acc + Shl(n % 128, shift) < Pow(2, shift + 7)
    ensures Shl(n % 128, shift) + Shl(n / 128, shift + 7) == Shl(n, shift)
  {
    var c, h, p := n % 128, n / 128, Pow(2, shift);
    PowAdds(2, shift, 7);
    assert Pow(2, 7) == 128;
    SevenBits(c, h, p);
    MulMonotone(p, c, 127);
    assert n == c + h * 128;
  }

  lemma {:induction false} VarintTail(buf: seq<byte>, pos: nat, n: nat, pad: nat, acc: nat, shift: nat)
    requires At(buf, pos, PaddedVarint(n, pad)) && acc < Pow(2, shift)
    ensures ReadVarint(buf, pos, acc, shift) == Some((acc + Shl(n, shift), pos + |PaddedVarint(n, pad)|))
    decreases n + pad
  {
    hide Shl, Pow, BitOr, At;
    AtFirst(buf, pos, PaddedVarint(n, pad));
    OrDisjoint(acc, n % 128, shift);
    if n >= 128 || pad > 0 {
      LowAndHigh(n, acc, shift);
      var rest := if n >= 128 then pad else pad - 1;
      assert PaddedVarint(n, pad)[1..] == PaddedVarint(n / 128, rest);
      assert (128 + n % 128) % 128 == n % 128;
      VarintTail(buf, pos + 1, n / 128, rest, acc + Shl(n % 128, shift), shift + 7);
    }
  }

  /** Reading a written integer gives it back, whatever its size and padding, and stops right behind it. */
  lemma PaddedRoundTrip(buf: seq<byte>, pos: nat, n: nat, pad: nat)
    requires At(buf, pos, PaddedVarint(n, pad))
    ensures ReadVarint(buf, pos, 0, 0) == Some((n, pos + |PaddedVarint(n, pad)|))
  {
    VarintTail(buf, pos, n, pad, 0, 0);
    assert Shl(n, 0) == n;
  }

  lemma VarintRoundTrip(buf: seq<byte>, pos: nat, n: nat)
    requires At(buf, pos, WriteVarint(n))
    ensures ReadVarint(buf, pos, 0, 0) == Some((n, pos + |WriteVarint(n)|))
  {
    PaddedRoundTrip(buf, pos, n, 0);
  }

  lemma AtAfter(buf: seq<byte>, pos: nat, c: byte, rest: seq<byte>)
    requires pos < |buf| && buf[pos] == c && At(buf, pos + 1, rest)
    ensures At(buf, pos, [c] + rest)
  {
    assert buf[pos..pos + 1 + |rest|] == [buf[pos]] + buf[pos + 1..pos + 1 + |rest|];
  }

  lemma {:induction false} ReadIsPadded(buf: seq<byte>, pos: nat, acc: nat, shift: nat) returns (n: nat, pad: nat)
    requires ReadVarint(buf, pos, acc, shift).Some? && acc < Pow(2, shift)
    ensures At(buf, pos, PaddedVarint(n, pad))
    ensures ReadVarint(buf, pos, acc, shift) == Some((acc + Shl(n, shift), pos + |PaddedVarint(n, pad)|))
    decreases |buf| - pos
  {
    hide Shl, Pow, BitOr;
    var c: nat := buf[pos];
    OrDisjoint(acc, c % 128, shift);
    if c < 128 {
      n, pad := c, 0;
      assert buf[pos..pos + 1] == [c];
    } else {
      var low, high, rest := c % 128, 0, 0;
      LowAndHigh(low, acc, shift);
      high, rest := ReadIsPadded(buf, pos + 1, acc + Shl(low, shift), shift + 7);
      n, pad := low + 128 * high, if high == 0 then rest + 1 else rest;
      LowAndHigh(n, acc, shift);
      assert n % 128 == low && n / 128 == high && c == 128 + low;
      assert PaddedVarint(n, pad) == [c] + PaddedVarint(high, rest);
      AtAfter(buf, pos, c, PaddedVarint(high, rest));
    }
  }

  /** Whatever is read is a written integer, perhaps with padding. */
  lemma EveryVarintIsPadded(buf: seq<byte>, n: nat, next: nat)
    requires ReadVarint(buf, 0, 0, 0) == Some((n, next))
    ensures exists pad :: buf[..next] == PaddedVarint(n, pad)
  {
    var m, pad := ReadIsPadded(buf, 0, 0, 0);
    assert Shl(m, 0) == m;
    assert buf[..next] == PaddedVarint(n, pad);
  }

  // ---- Zigzag: signed integers as naturals ----

  /** `(n >> 1) ^ -(n & 1)` */
  function UnZigZag(n: nat): int {
    if n % 2 == 0 then n / 2 else -(n / 2) - 1
  }

  function ZigZag(v: int): (n: nat)
    ensures UnZigZag(n) == v
  {
    if v >= 0 then 2 * v else -2 * v - 1
  }
}
