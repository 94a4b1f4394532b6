/** The 64 by 64 bit multiplication of libfh/wyhash.h, and the range reduction built on it. */
module Mum {
  import opened Words

  // ---------- multiplication ----------

  /** Adding two words: the carry out is whether the result is smaller than an operand. */
  lemma Carry(x: Word, y: Word)
    ensures x + y == Wrap(x + y) + if Wrap(x + y) < x then TWO64 else 0
  {
    if x + y < TWO64 {
      NoWrap(x + y);
    } else {
      ModUnique(x + y, TWO64, 1, x + y - TWO64);
    }
  }

  lemma HalvesFit(a: nat, b: nat)
    requires a < TWO32 && b < TWO32
    ensures a * b < TWO64
  {
    if a > 0 {
      MulGap(TWO32, b, a);
      MulGap(TWO32, a, TWO32);
    }
  }

  /** Shifting a word up by half its width loses its upper half. */
  lemma ShiftUp(m: Word)
    ensures Wrap(m * TWO32) == m % TWO32 * TWO32
  {
    ModUnique(m * TWO32, TWO64, m / TWO32, m % TWO32 * TWO32);
  }

  lemma Schoolbook(a: Word, b: Word, ha: nat, la: nat, hb: nat, lb: nat)
    requires a == ha * TWO32 + la && b == hb * TWO32 + lb
    ensures a * b == ha * hb * TWO64 + (ha * lb + hb * la) * TWO32 + la * lb
  {
    calc {
      a * b;
      ha * TWO32 * b + la * b;
      ha * TWO32 * (hb * TWO32) + ha * TWO32 * lb + (la * (hb * TWO32) + la * lb);
      ha * hb * TWO64 + (ha * lb + hb * la) * TWO32 + la * lb;
    }
  }

  /** _wymum by 32-bit halves: the two words of the 128-bit product. */
  method MumByHalves(a: Word, b: Word) returns (lo: Word, hi: Word)
    ensures hi * TWO64 + lo == a * b
  {
    var ha, hb, la, lb := a / TWO32, b / TWO32, a % TWO32, b % TWO32;
    HalvesFit(ha, hb);
    HalvesFit(ha, lb);
    HalvesFit(hb, la);
    HalvesFit(la, lb);
    var rh, rm0, rm1, rl := ha * hb, ha * lb, hb * la, la * lb;
    var t := Wrap(rl + Wrap(rm0 * TWO32));
    var c := if t < rl then 1 else 0;
    lo := Wrap(t + Wrap(rm1 * TWO32));
    c := c + if lo < t then 1 else 0;
    Schoolbook(a, b, ha, la, hb, lb);
    HalvesAddUp(rh, rm0, rm1, rl, t, lo, c);
    HighFits(a, b, rh + rm0 / TWO32 + rm1 / TWO32 + c, lo);
    hi := Wrap(rh + rm0 / TWO32 + rm1 / TWO32 + c);
  }

  lemma HalvesAddUp(rh: Word, rm0: Word, rm1: Word, rl: Word, t: Word, lo: Word, c: nat)
    requires t == Wrap(rl + Wrap(rm0 * TWO32)) && lo == Wrap(t + Wrap(rm1 * TWO32))
    requires c == (if t < rl then 1 else 0) + (if lo < t then 1 else 0)
    ensures (rh + rm0 / TWO32 + rm1 / TWO32 + c) * TWO64 + lo == rh * TWO64 + (rm0 + rm1) * TWO32 + rl
  {
    ShiftUp(rm0);
    ShiftUp(rm1);
    Carry(rl, Wrap(rm0 * TWO32));
    Carry(t, Wrap(rm1 * TWO32));
  }

  /** The high word of a product of two words does not overflow. */
  lemma HighFits(a: Word, b: Word, high: nat, lo: Word)
    requires high * TWO64 + lo == a * b
    ensures high < TWO64 && Wrap(high) == high
  {
    if b > 0 {
      MulGap(TWO64, a, b);
      MulGap(TWO64, b, TWO64);
    }
    NoWrap(high);
  }

  /** The two halves are those the 128-bit type gives. */
  function Low(a: Word, b: Word): Word
  {
    a * b % TWO64
  }

  function High(a: Word, b: Word): Word
  {
    HighIsWord(a, b);
    a * b / TWO64
  }

  lemma HighIsWord(a: Word, b: Word)
    ensures 0 <= a * b / TWO64 < TWO64
  {
    HighFits(a, b, a * b / TWO64, a * b % TWO64);
  }

  lemma HalvesAreUnique(a: Word, b: Word, lo: Word, hi: Word)
    requires hi * TWO64 + lo == a * b
    ensures lo == Low(a, b) && hi == High(a, b)
  {
    ModUnique(a * b, TWO64, hi, lo);
  }

  function Mix(a: Word, b: Word): Word
  {
    XorWord(Low(a, b), High(a, b))
  }

  lemma MixOfZero(b: Word)
    ensures Mix(0, b) == 0
  {
    assert 0 * b == 0;
    XorZero(0);
  }

  /** Mixing with 1 changes nothing. */
  lemma MixOfOne(b: Word)
    ensures Mix(1, b) == b
  {
    assert 1 * b == b;
    ModUnique(b, TWO64, 0, b);
    XorZero(b);
  }

  lemma MixCommutes(a: Word, b: Word)
    ensures Mix(a, b) == Mix(b, a)
  {
    assert a * b == b * a;
  }

  /** _wymix */
  method Wymix(a: Word, b: Word) returns (r: Word)
    ensures r == Mix(a, b)
  {
    var lo, hi := MumByHalves(a, b);
    HalvesAreUnique(a, b, lo, hi);
    r := XorWord(lo, hi);
  }

  // ---------- numbers below k ----------

  /** wy2u0k: a number below k, namely the one in whose interval r lies. */
  method Wy2u0k(r: Word, k: Word) returns (v: Word)
    ensures v == High(r, k)
    ensures k > 0 ==> v < k && First(v, k) <= r < First(v + 1, k)
  {
    var lo, hi := MumByHalves(r, k);
    HalvesAreUnique(r, k, lo, hi);
    v := hi;
    if k > 0 {
      PreimageIsInterval(r, k, v);
    }
  }

  /** The first r that is sent to v or beyond: v * 2^64 / k, rounded up. */
  ghost function First(v: nat, k: Word): nat
    requires k > 0
  {
    (v * TWO64 + k - 1) / k
  }

  lemma FirstIsLeast(v: nat, k: Word, r: nat)
    requires k > 0
    ensures v * TWO64 <= r * k <==> First(v, k) <= r
  {
    var f := First(v, k);
    var rem := (v * TWO64 + k - 1) % k;
    assert v * TWO64 + k - 1 == f * k + rem;
    if r < f {
      MulGap(f, r, k);
    } else if r > f {
      MulGap(r, f, k);
    }
  }

  lemma QuotientIs(x: nat, v: nat)
    ensures x / TWO64 == v <==> v * TWO64 <= x < (v + 1) * TWO64
  {
  }

  /** What is sent to v is an interval, and the intervals of 0 up to k - 1 follow one another from 0 to 2^64. */
  lemma PreimageIsInterval(r: Word, k: Word, v: nat)
    requires k > 0
    ensures High(r, k) < k
    ensures High(r, k) == v <==> First(v, k) <= r < First(v + 1, k)
    ensures First(0, k) == 0 && First(k, k) == TWO64
  {
    QuotientIs(r * k, v);
    FirstIsLeast(v, k, r);
    FirstIsLeast(v + 1, k, r);
    MulGap(TWO64, r, k);
    BelowK(r, k);
    ModUnique(k - 1, k, 0, k - 1);
    ModUnique(k * TWO64 + k - 1, k, TWO64, k - 1);
  }

  lemma BelowK(r: Word, k: Word)
    requires k > 0
    ensures High(r, k) < k
  {
    MulGap(TWO64, r, k);
  }

  /** Each interval has 2^64 / k elements, rounded down or up. */
  lemma IntervalSize(v: nat, k: Word)
    requires k > 0
    ensures var size := First(v + 1, k) - First(v, k);
            TWO64 / k <= size <= TWO64 / k + (if TWO64 % k == 0 then 0 else 1)
  {
    var q, m := TWO64 / k, TWO64 % k;
    assert TWO64 == q * k + m;
    var f, rem := First(v, k), (v * TWO64 + k - 1) % k;
    assert v * TWO64 + k - 1 == f * k + rem;
    Regroup(f, q, k, rem, m, (v + 1) * TWO64 + k - 1);
    if rem + m < k {
      ModUnique((v + 1) * TWO64 + k - 1, k, f + q, rem + m);
    } else {
      ModUnique((v + 1) * TWO64 + k - 1, k, f + q + 1, rem + m - k);
    }
  }

  lemma Regroup(f: nat, q: nat, k: nat, rem: nat, m: nat, x: nat)
    requires x == f * k + rem + (q * k + m)
    ensures x == (f + q) * k + (rem + m) && x == (f + q + 1) * k + (rem + m - k)
  {
  }

  /** How many of the first n numbers have the larger interval. */
  ghost function Larger(n: nat, k: Word): nat
    requires k > 0
  {
    if n == 0 then 0
    else Larger(n - 1, k) + if First(n, k) - First(n - 1, k) > TWO64 / k then 1 else 0
  }

  lemma {:induction false} LargerSoFar(n: nat, k: Word, q: nat)
    requires k > 0 && q == TWO64 / k
    ensures First(n, k) == n * q + Larger(n, k)
  {
    if n > 0 {
      LargerSoFar(n - 1, k, q);
      LargerStep(n, k, q);
      assert n * q == (n - 1) * q + q;
    } else {
      ModUnique(k - 1, k, 0, k - 1);
    }
  }

  lemma LargerStep(n: nat, k: Word, q: nat)
    requires k > 0 && n > 0 && q == TWO64 / k
    ensures First(n, k) - Larger(n, k) == First(n - 1, k) - Larger(n - 1, k) + q
  {
    IntervalSize(n - 1, k);
  }

  /** Exactly 2^64 mod k of the k results are the more likely ones. */
  lemma LargerCount(k: Word)
    requires k > 0
    ensures Larger(k, k) == TWO64 % k
  {
    var q, m := TWO64 / k, TWO64 % k;
    LargerSoFar(k, k, q);
    PreimageIsInterval(0, k, 0);
    assert TWO64 == k * q + m;
  }
}
