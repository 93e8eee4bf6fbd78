/** Fixed-width numbers and strings as bytes, as several hash inputs join them. */
module Encoding {
  import opened ModularArithmetic

  type Bytes = seq<nat>

  const TWO_TO_64: nat := 0x1_0000_0000_0000_0000

  function LittleEndian(n: nat, width: nat): (bytes: Bytes)
    ensures |bytes| == width
  {
    if width == 0 then [] else [n % 256] + LittleEndian(n / 256, width - 1)
  }

  function Bound(width: nat): nat {
    if width == 0 then 1 else 256 * Bound(width - 1)
  }

  lemma {:induction false} LittleEndianInjective(a: nat, b: nat, width: nat)
    requires a < Bound(width) && b < Bound(width) && LittleEndian(a, width) == LittleEndian(b, width)
    ensures a == b
  {
    if width > 0 {
      var x, y := LittleEndian(a, width), LittleEndian(b, width);
      assert x[0] == y[0] && x[1..] == y[1..];
      LittleEndianInjective(a / 256, b / 256, width - 1);
    }
  }

  predicate AllBytes(bytes: Bytes) {
    forall i :: 0 <= i < |bytes| ==> bytes[i] < 256
  }

  function FromLittleEndian(bytes: Bytes): nat {
    if bytes == [] then 0 else bytes[0] + 256 * FromLittleEndian(bytes[1..])
  }

  /** Every byte string is the encoding of some number of its width. */
  lemma {:induction false} LittleEndianOnto(bytes: Bytes)
    requires AllBytes(bytes)
    ensures FromLittleEndian(bytes) < Bound(|bytes|) && LittleEndian(FromLittleEndian(bytes), |bytes|) == bytes
  {
    if bytes != [] {
      LittleEndianOnto(bytes[1..]);
      assert bytes == [bytes[0]] + bytes[1..];
    }
  }

  lemma {:induction false} LittleEndianIsBytes(n: nat, width: nat)
    ensures AllBytes(LittleEndian(n, width))
  {
    if width > 0 { LittleEndianIsBytes(n / 256, width - 1); }
  }

  /** A signed 64-bit number as the source's `as u64` and `to_le_bytes` see it: two's complement. */
  function AsU64(n: int): int {
    if n < 0 then n + TWO_TO_64 else n
  }

  type I64 = n: int | -0x8000_0000_0000_0000 <= n < 0x8000_0000_0000_0000

  function Ascii(s: string): (bytes: Bytes)
    ensures |bytes| == |s| && forall i :: 0 <= i < |s| ==> bytes[i] == s[i] as nat
  {
    seq(|s|, i requires 0 <= i < |s| => s[i] as nat)
  }

  function Power256(k: nat): (p: nat)
    ensures p > 0
  {
    if k == 0 then 1 else 256 * Power256(k - 1)
  }

  lemma DivTwice(n: nat, p: nat)
    requires p > 0
    ensures (n / 256) / p == n / (256 * p)
  {
    var q, r := n / 256, n % 256;
    var q', r' := q / p, q % p;
    assert n == 256 * q + r && q == p * q' + r';
    assert n == (256 * p) * q' + (256 * r' + r) by {
      assert 256 * (p * q' + r') == (256 * p) * q' + 256 * r';
    }
    assert (256 * p) * q' == q' * (256 * p);
    DivModUnique(n, q', 256 * r' + r, 256 * p);
  }

  /** The lowest byte comes first. */
  lemma {:induction false} LittleEndianDigit(n: nat, width: nat, k: nat)
    requires k < width
    ensures LittleEndian(n, width)[k] == (n / Power256(k)) % 256
  {
    if k == 0 {
      assert n / 1 == n;
    } else {
      LittleEndianDigit(n / 256, width - 1, k - 1);
      DivTwice(n, Power256(k - 1));
    }
  }
}
