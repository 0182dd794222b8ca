/** Fixed-width little-endian integers. */
module ByteOrder {
  import opened Common

  function Power(k: nat): (p: nat)
    ensures p > 0
  {
    if k == 0 then 1 else Power(k - 1) * 0x100
  }

  /** The low `k` bytes of `n`, least significant first. */
  function Le(n: nat, k: nat): (b: Bytes)
    ensures |b| == k
  {
    if k == 0 then [] else [n % 0x100] + Le(n / 0x100, k - 1)
  }

  function LeValue(b: Bytes): nat {
    if b == [] then 0 else (b[0] as int) + LeValue(b[1..]) * 0x100
  }

  /** The unsigned integer in the `k` bytes at `at`. */
  function Get(b: Bytes, at: nat, k: nat): nat
    requires at + k <= |b|
  {
    LeValue(b[at..at + k])
  }

  lemma {:induction false} LeValueOfLe(n: nat, k: nat)
    requires n < Power(k)
    ensures LeValue(Le(n, k)) == n
  {
    if k > 0 {
      assert n / 0x100 < Power(k - 1);
      LeValueOfLe(n / 0x100, k - 1);
      assert Le(n, k)[1..] == Le(n / 0x100, k - 1);
    }
  }

  lemma OneDigit(low: byte, high: nat)
    ensures ((low as int) + high * 0x100) % 0x100 == low as int && ((low as int) + high * 0x100) / 0x100 == high
  {}

  lemma {:induction false} LeOfLeValue(b: Bytes)
    ensures LeValue(b) < Power(|b|) && Le(LeValue(b), |b|) == b
  {
    if b != [] {
      LeOfLeValue(b[1..]);
      OneDigit(b[0], LeValue(b[1..]));
      assert b == [b[0]] + b[1..];
    }
  }

  lemma Widths()
    ensures Power(2) == U16_MAX + 1 && Power(4) == U32_MAX + 1 && Power(8) == U64_MAX + 1
  {
    assert Power(1) == 0x100 && Power(3) == Power(2) * 0x100;
    assert Power(5) == Power(4) * 0x100 && Power(6) == Power(5) * 0x100 && Power(7) == Power(6) * 0x100;
  }
}
