/** Bytes, 32-byte identifiers, and the little-endian integers of the wire formats. */
module ByteStrings {
  import opened Wrappers

  newtype byte = x: int | 0 <= x < 256
  type Bytes = seq<byte>
  type H32 = b: Bytes | |b| == 32 witness ZERO32
  const ZERO32: Bytes := Repeat(0, 32)

  type U32 = x: nat | x < 0x1_0000_0000
  type U64 = x: nat | x < 0x1_0000_0000_0000_0000

  /** `width` little-endian bytes of `n`; what does not fit is cut off. */
  function Le(n: nat, width: nat): (b: Bytes)
    ensures |b| == width
  {
    if width == 0 then [] else [(n % 256) as byte] + Le(n / 256, width - 1)
  }

  function FromLe(b: Bytes): nat {
    if b == [] then 0 else b[0] as nat + 256 * FromLe(b[1..])
  }

  function Pow256(width: nat): nat {
    if width == 0 then 1 else 256 * Pow256(width - 1)
  }

  lemma {:induction false} FromLeBounded(b: Bytes)
    ensures FromLe(b) < Pow256(|b|)
  {
    if b != [] {
      FromLeBounded(b[1..]);
    }
  }

  /** Little-endian: a byte that comes later weighs 256 times more per position. */
  lemma {:induction false} FromLeConcat(low: Bytes, high: Bytes)
    ensures FromLe(low + high) == FromLe(low) + Pow256(|low|) * FromLe(high)
  {
    if low == [] {
      assert low + high == high;
    } else {
      FromLeConcat(low[1..], high);
      assert (low + high)[1..] == low[1..] + high;
      Regroup(FromLe(low[1..]), Pow256(|low| - 1), FromLe(high));
    }
  }

  lemma Regroup(v: nat, p: nat, w: nat)
    ensures 256 * (v + p * w) == 256 * v + (256 * p) * w
  {
  }

  lemma {:induction false} LeRoundTrip(n: nat, width: nat)
    requires n < Pow256(width)
    ensures FromLe(Le(n, width)) == n
  {
    if width > 0 {
      LeRoundTrip(n / 256, width - 1);
      assert Le(n, width)[1..] == Le(n / 256, width - 1);
    }
  }

  lemma {:induction false} FromLeRoundTrip(b: Bytes)
    ensures Le(FromLe(b), |b|) == b
  {
    if b != [] {
      FromLeRoundTrip(b[1..]);
      assert FromLe(b) % 256 == b[0] as nat && FromLe(b) / 256 == FromLe(b[1..]);
      assert b == [b[0]] + b[1..];
    }
  }

  lemma U64Width()
    ensures Pow256(8) == 0x1_0000_0000_0000_0000
    ensures Pow256(4) == 0x1_0000_0000
  {
  }

  /** The Rust contract and the JavaScript codec both read a u64 with these eight bytes. */
  function U64FromLe(b: Bytes): (n: U64)
    requires |b| == 8
  {
    FromLeBounded(b);
    U64Width();
    FromLe(b)
  }

  lemma U64RoundTrip(n: U64)
    ensures U64FromLe(Le(n, 8)) == n
  {
    U64Width();
    LeRoundTrip(n, 8);
  }

  lemma LeInjective(m: nat, n: nat, width: nat)
    requires m < Pow256(width) && n < Pow256(width)
    requires Le(m, width) == Le(n, width)
    ensures m == n
  {
    LeRoundTrip(m, width);
    LeRoundTrip(n, width);
  }
}
