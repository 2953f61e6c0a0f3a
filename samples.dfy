/** Raw converter samples and the arithmetic the smoothing buffer does on them:
    16-bit unsigned values, their mathematical sum, and the wrapping 16-bit sum
    that `Iterator::sum::<u16>` computes. */
module Samples {

  /** One more than the largest `u16`. */
  const U16_MODULUS: int := 0x1_0000

  /** Full scale of the 12-bit analog-to-digital converter. */
  const ADC_MAX: int := 4095

  type u16 = x: int | 0 <= x < U16_MODULUS

  /** Every sample fits in the converter's 12 bits. */
  predicate IsTwelveBit(s: seq<u16>) {
    forall i :: 0 <= i < |s| ==> s[i] <= ADC_MAX
  }

  /** The mathematical (unbounded) sum, accumulated left to right. */
  function Sum(s: seq<u16>): nat {
    if s == [] then 0 else Sum(s[..|s| - 1]) + s[|s| - 1]
  }

  /** The `u16` fold `0 + s[0] + s[1] + ...` with every addition wrapping
      modulo 2^16, which is what a release build computes. */
  function WrappingSum(s: seq<u16>): (r: u16)
    ensures r == Sum(s) % U16_MODULUS
  {
    if s == [] then 0
    else
      var acc := WrappingSum(s[..|s| - 1]);
      ModAddLeft(Sum(s[..|s| - 1]), s[|s| - 1]);
      (acc + s[|s| - 1]) % U16_MODULUS
  }

  lemma ModAddLeft(a: int, b: int)
    requires a >= 0 && b >= 0
    ensures (a % U16_MODULUS + b) % U16_MODULUS == (a + b) % U16_MODULUS
  {
    var q := a / U16_MODULUS;
    assert a == q * U16_MODULUS + a % U16_MODULUS;
    assert a + b == q * U16_MODULUS + (a % U16_MODULUS + b);
  }

  /** No partial sum of the fold leaves the `u16` range: no addition wraps
      in a release build and none panics in a debug build. */
  predicate NoOverflow(s: seq<u16>) {
    forall k :: 0 <= k <= |s| ==> Sum(s[..k]) < U16_MODULUS
  }

  /** The sum lies between |s| times any lower bound and |s| times any upper bound of the samples. */
  lemma {:induction false} SumBounds(s: seq<u16>, lo: int, hi: int)
    requires forall i :: 0 <= i < |s| ==> lo <= s[i] <= hi
    ensures |s| * lo <= Sum(s) <= |s| * hi
  {
    if s != [] {
      SumBounds(s[..|s| - 1], lo, hi);
      assert Sum(s) == Sum(s[..|s| - 1]) + s[|s| - 1];
    }
  }

  lemma {:induction false} SumConcat(a: seq<u16>, b: seq<u16>)
    ensures Sum(a + b) == Sum(a) + Sum(b)
  {
    if b == [] {
      assert a + b == a;
    } else {
      SumConcat(a, b[..|b| - 1]);
      assert (a + b)[..|a + b| - 1] == a + b[..|b| - 1];
    }
  }

  /** Summing a rotation of a sequence gives the same total: the storage
      order of a full ring and its write order have the same sum. */
  lemma SumRotation(s: seq<u16>, c: nat)
    requires c <= |s|
    ensures Sum(s[c..] + s[..c]) == Sum(s)
  {
    SumConcat(s[c..], s[..c]);
    SumConcat(s[..c], s[c..]);
    assert s[..c] + s[c..] == s;
  }

  /** At most 16 twelve-bit samples never overflow the `u16` accumulator,
      because 16 * 4095 = 65520 <= 65535. */
  lemma TwelveBitNoOverflow(s: seq<u16>)
    requires IsTwelveBit(s) && |s| <= 16
    ensures NoOverflow(s)
    ensures WrappingSum(s) == Sum(s)
  {
    forall k | 0 <= k <= |s|
      ensures Sum(s[..k]) < U16_MODULUS
    {
      SumBounds(s[..k], 0, ADC_MAX);
    }
    assert s[..|s|] == s;
  }

  /** The smallest sample. */
  function SeqMin(s: seq<u16>): (m: u16)
    requires |s| > 0
    ensures m in s
    ensures forall i :: 0 <= i < |s| ==> m <= s[i]
  {
    if |s| == 1 then s[0]
    else
      var m := SeqMin(s[..|s| - 1]);
      assert forall i :: 0 <= i < |s| - 1 ==> s[..|s| - 1][i] == s[i];
      if s[|s| - 1] < m then s[|s| - 1] else m
  }

  /** The largest sample. */
  function SeqMax(s: seq<u16>): (m: u16)
    requires |s| > 0
    ensures m in s
    ensures forall i :: 0 <= i < |s| ==> s[i] <= m
  {
    if |s| == 1 then s[0]
    else
      var m := SeqMax(s[..|s| - 1]);
      assert forall i :: 0 <= i < |s| - 1 ==> s[..|s| - 1][i] == s[i];
      if s[|s| - 1] > m then s[|s| - 1] else m
  }

  /** The truncated integer mean lies between the smallest and the largest sample. */
  lemma MeanBetween(s: seq<u16>)
    requires |s| > 0
    ensures SeqMin(s) <= Sum(s) / |s| <= SeqMax(s)
  {
    var n, lo, hi := |s|, SeqMin(s), SeqMax(s);
    SumBounds(s, lo, hi);
    FloorDivBounds(Sum(s), n, lo, hi);
  }

  lemma FloorDivBounds(total: int, n: int, lo: int, hi: int)
    requires n > 0 && n * lo <= total <= n * hi
    ensures lo <= total / n <= hi
  {
    var q, r := total / n, total % n;
    assert total == n * q + r && 0 <= r < n;
    if q < lo {
      assert n * q + n <= n * lo by { MulMono(n, q + 1, lo); }
    }
    if q > hi {
      assert n * (hi + 1) <= n * q by { MulMono(n, hi + 1, q); }
    }
  }

  lemma MulMono(n: int, a: int, b: int)
    requires n > 0 && a <= b
    ensures n * a <= n * b
  {
    assert n * b - n * a == n * (b - a);
  }

  /** What `get_all` computes for a window of samples: the wrapping `u16`
      sum divided, with truncation, by the number of samples. */
  function WindowAverage(s: seq<u16>): (avg: int)
    requires |s| > 0
    ensures 0 <= avg < U16_MODULUS
    ensures IsTwelveBit(s) && |s| <= 16 ==> avg == Sum(s) / |s|
    ensures IsTwelveBit(s) && |s| <= 16 ==> SeqMin(s) <= avg <= SeqMax(s)
  {
    var total := WrappingSum(s);
    if IsTwelveBit(s) && |s| <= 16 then
      TwelveBitNoOverflow(s);
      MeanBetween(s);
      total / |s|
    else
      total / |s|
  }
}
