/**
 The bit-parallel population count of libfh/wyhash.h. A number is seen as a sequence of fields, lowest
 first; each step of the count adds neighbouring fields, which leaves their sum alone.
 */
module Popcount {
  import opened Words

  /** The number of set bits. */
  function Ones(x: nat): nat
  {
    if x == 0 then 0 else x % 2 + Ones(x / 2)
  }

  // ---------- fields ----------

  /** The number with these fields, each of which has room for q values. */
  ghost function Val(q: nat, s: seq<nat>): nat
  {
    if s == [] then 0 else s[0] + q * Val(q, s[1..])
  }

  ghost function Total(s: seq<nat>): nat
  {
    if s == [] then 0 else s[0] + Total(s[1..])
  }

  ghost predicate AtMost(s: seq<nat>, limit: nat)
  {
    forall i :: 0 <= i < |s| ==> s[i] <= limit
  }

  ghost function Evens(s: seq<nat>): seq<nat>
  {
    if |s| < 2 then [] else [s[0]] + Evens(s[2..])
  }

  ghost function Odds(s: seq<nat>): seq<nat>
  {
    if |s| < 2 then [] else [s[1]] + Odds(s[2..])
  }

  ghost function Pairs(s: seq<nat>): seq<nat>
  {
    if |s| < 2 then [] else [s[0] + s[1]] + Pairs(s[2..])
  }

  ghost function Shifted(s: seq<nat>): seq<nat>
    requires s != []
  {
    s[1..] + [0]
  }

  ghost function Bits(x: nat, n: nat): seq<nat>
  {
    if n == 0 then [] else [x % 2] + Bits(x / 2, n - 1)
  }

  lemma {:induction false} BitsOf(x: nat, n: nat)
    requires x < Pow2(n)
    ensures var s := Bits(x, n); |s| == n && AtMost(s, 1) && Val(2, s) == x && Total(s) == Ones(x)
  {
    if n > 0 {
      BitsOf(x / 2, n - 1);
      assert Bits(x, n)[1..] == Bits(x / 2, n - 1);
    }
  }

  lemma {:induction false} PairsTotal(s: seq<nat>)
    requires |s| % 2 == 0
    ensures |Pairs(s)| == |s| / 2 && Total(Pairs(s)) == Total(s)
  {
    if s != [] {
      PairsTotal(s[2..]);
      assert Total(s) == s[0] + (s[1] + Total(s[1..][1..])) && s[1..][1..] == s[2..];
      assert Pairs(s)[1..] == Pairs(s[2..]);
    }
  }

  lemma {:induction false} PairsAtMost(s: seq<nat>, limit: nat)
    requires AtMost(s, limit)
    ensures AtMost(Pairs(s), 2 * limit)
  {
    if |s| >= 2 {
      PairsAtMost(s[2..], limit);
      assert s[0] <= limit && s[1] <= limit;
    }
  }

  lemma {:induction false} PairsVal(q: nat, s: seq<nat>)
    ensures Val(q, Pairs(s)) == Val(q, Evens(s)) + Val(q, Odds(s))
  {
    if |s| >= 2 {
      var e, o := Evens(s[2..]), Odds(s[2..]);
      PairsVal(q, s[2..]);
      ValCons(q, s[0] + s[1], Pairs(s[2..]));
      ValCons(q, s[0], e);
      ValCons(q, s[1], o);
      Distribute(q, Val(q, e), Val(q, o));
    }
  }

  lemma ValCons(q: nat, a: nat, s: seq<nat>)
    ensures Val(q, [a] + s) == a + q * Val(q, s)
  {
    assert ([a] + s)[1..] == s;
  }

  lemma Distribute(q: nat, a: nat, b: nat)
    ensures q * (a + b) == q * a + q * b
  {
  }

  lemma {:induction false} Interleaved(q: nat, s: seq<nat>)
    requires |s| % 2 == 0
    ensures Val(q, s) == Val(q * q, Evens(s)) + q * Val(q * q, Odds(s))
  {
    if s != [] {
      Interleaved(q, s[2..]);
      assert Evens(s)[1..] == Evens(s[2..]) && Odds(s)[1..] == Odds(s[2..]) && s[1..][1..] == s[2..];
      TwoFields(q, s[0], s[1], Val(q * q, Evens(s[2..])), Val(q * q, Odds(s[2..])));
    }
  }

  lemma TwoFields(q: nat, a: nat, b: nat, e: nat, o: nat)
    ensures a + q * (b + q * (e + q * o)) == (a + q * q * e) + q * (b + q * q * o)
  {
    calc {
      a + q * (b + q * (e + q * o));
      a + q * b + q * (q * (e + q * o));
      a + q * b + (q * (q * e) + q * (q * (q * o)));
      { Squared(q, e); Squared(q, o); }
      a + q * b + (q * q * e + q * (q * q * o));
    }
  }

  lemma {:induction false} ShiftedEvens(s: seq<nat>)
    requires |s| % 2 == 0 && s != []
    ensures Evens(Shifted(s)) == Odds(s)
  {
    if |s| > 2 {
      ShiftedEvens(s[2..]);
      assert Shifted(s)[2..] == Shifted(s[2..]);
    }
  }

  lemma {:induction false} ZeroOnTop(q: nat, s: seq<nat>)
    ensures Val(q, s + [0]) == Val(q, s)
  {
    if s != [] {
      ZeroOnTop(q, s[1..]);
      assert (s + [0])[1..] == s[1..] + [0];
    }
  }

  lemma ShiftedVal(q: nat, s: seq<nat>)
    requires s != [] && s[0] < q
    ensures Val(q, Shifted(s)) == Val(q, s) / q
  {
    ZeroOnTop(q, s[1..]);
    ModUnique(Val(q, s), q, Val(q, s[1..]), s[0]);
  }

  // ---------- masks ----------

  /** The mask that selects every other one of 2 * n fields, beginning with the lowest. */
  function Mask(q: nat, n: nat): nat
    requires q > 0
  {
    if n == 0 then 0 else q - 1 + q * q * Mask(q, n - 1)
  }

  /** Above and below bit k the operands do not meet. */
  lemma {:induction false} AndConcat(a: nat, b: nat, c: nat, d: nat, k: nat, x: nat, y: nat)
    requires a < Pow2(k) && b < Pow2(k) && x == a + Pow2(k) * c && y == b + Pow2(k) * d
    ensures And(x, y) == And(a, b) + Pow2(k) * And(c, d)
    decreases k
  {
    if k > 0 {
      Halved(a, c, k, x);
      Halved(b, d, k, y);
      AndConcat(a / 2, b / 2, c, d, k - 1, x / 2, y / 2);
      AndDouble(a, b);
      AndDouble(x, y);
      Twice(Pow2(k - 1), And(c, d));
    } else {
      assert a == 0 && b == 0 && x == c && y == d;
    }
  }

  lemma Halved(a: nat, c: nat, k: nat, x: nat)
    requires k > 0 && a < Pow2(k) && x == a + Pow2(k) * c
    ensures a / 2 < Pow2(k - 1) && x / 2 == a / 2 + Pow2(k - 1) * c && x % 2 == a % 2
  {
    var half := Pow2(k - 1) * c;
    Twice(Pow2(k - 1), c);
    assert x == a + 2 * half;
  }

  lemma Twice(p: nat, c: nat)
    ensures 2 * p * c == 2 * (p * c)
  {
  }

  lemma AndDouble(a: nat, b: nat)
    ensures And(a, b) == (if a % 2 == 1 && b % 2 == 1 then 1 else 0) + 2 * And(a / 2, b / 2)
  {
  }

  lemma {:induction false} AndEvens(q: nat, k: nat, s: seq<nat>)
    requires |s| % 2 == 0 && q == Pow2(k) && AtMost(s, q - 1)
    ensures And(Val(q, s), Mask(q, |s| / 2)) == Val(q * q, Evens(s))
  {
    if s != [] {
      AndEvens(q, k, s[2..]);
      assert s[1..][1..] == s[2..] && Evens(s)[1..] == Evens(s[2..]);
      AndPair(q, k, s[0], s[1], Val(q, s[2..]), Mask(q, |s| / 2 - 1));
    }
  }

  /** The mask keeps the lower field of a pair and drops the upper one. */
  lemma AndPair(q: nat, k: nat, a: nat, b: nat, v: nat, m: nat)
    requires q == Pow2(k) && a < q && b < q
    ensures And(a + q * (b + q * v), q - 1 + q * q * m) == a + q * q * And(v, m)
  {
    AndConcat(a, q - 1, b + q * v, q * m, k, a + q * (b + q * v), q - 1 + q * (q * m));
    AndConcat(b, 0, v, m, k, b + q * v, q * m);
    AndMask(a, k);
    ModUnique(a, q, 0, a);
    AndZero(b);
    Squared(q, m);
    Squared(q, And(v, m));
  }

  lemma Squared(q: nat, m: nat)
    ensures q * (q * m) == q * q * m
  {
  }

  /** x & mask and (x / q) & mask are the even and the odd fields. */
  lemma MaskBoth(q: nat, k: nat, s: seq<nat>)
    requires |s| % 2 == 0 && s != [] && q == Pow2(k) && AtMost(s, q - 1)
    ensures And(Val(q, s), Mask(q, |s| / 2)) == Val(q * q, Evens(s))
    ensures And(Val(q, s) / q, Mask(q, |s| / 2)) == Val(q * q, Odds(s))
  {
    AndEvens(q, k, s);
    AndEvens(q, k, Shifted(s));
    ShiftedEvens(s);
    ShiftedVal(q, s);
  }

  // ---------- the count ----------

  lemma {:induction false} ValBound(k: nat, q: nat, s: seq<nat>)
    requires q == Pow2(k) && AtMost(s, q - 1)
    ensures Val(q, s) < Pow2(k * |s|)
  {
    if s != [] {
      ValBound(k, q, s[1..]);
      var n := k * (|s| - 1);
      assert k * |s| == k + n;
      Pow2Add(k, n);
      BelowProduct(q, Pow2(n), s[0], Val(q, s[1..]));
    }
  }

  lemma BelowProduct(q: nat, p: nat, a: nat, v: nat)
    requires a < q && v < p
    ensures a + q * v < q * p
  {
    MulGap(p, v, q);
  }

  lemma Masks()
    ensures Mask(2, 32) == 0x5555555555555555 && Mask(4, 16) == 0x3333333333333333 && Mask(16, 8) == 0x0f0f0f0f0f0f0f0f
  {
    assert Mask(2, 8) == 0x5555;
    assert Mask(2, 12) == 0x55_5555;
    assert Mask(2, 16) == 0x5555_5555;
    assert Mask(2, 20) == 0x55_5555_5555;
    assert Mask(2, 24) == 0x5555_5555_5555;
    assert Mask(2, 28) == 0x55_5555_5555_5555;
    assert Mask(4, 8) == 0x3333_3333;
    assert Mask(4, 12) == 0x3333_3333_3333;
  }

  /** First step: subtracting the odd bits leaves the pair sums. */
  lemma FirstStep(s: seq<nat>)
    requires |s| == 64 && AtMost(s, 1)
    ensures And(Val(2, s) / 2, 0x5555555555555555) <= Val(2, s)
    ensures Val(2, s) - And(Val(2, s) / 2, 0x5555555555555555) == Val(4, Pairs(s))
  {
    Masks();
    assert Pow2(1) == 2;
    MaskBoth(2, 1, s);
    Interleaved(2, s);
    PairsVal(4, s);
  }

  lemma SecondStep(s: seq<nat>)
    requires |s| == 32 && AtMost(s, 2)
    ensures var x := Val(4, s);
            And(x, 0x3333333333333333) + And(x / 4, 0x3333333333333333) == Val(16, Pairs(s))
  {
    Masks();
    assert Pow2(2) == 4;
    MaskBoth(4, 2, s);
    PairsVal(16, s);
  }

  /** Each field plus the one above it. */
  ghost function WithNext(s: seq<nat>): seq<nat>
  {
    if s == [] then [] else [s[0] + if |s| > 1 then s[1] else 0] + WithNext(s[1..])
  }

  lemma {:induction false} WithNextAt(s: seq<nat>, limit: nat)
    requires AtMost(s, limit)
    ensures |WithNext(s)| == |s| && AtMost(WithNext(s), 2 * limit)
  {
    if s != [] {
      WithNextAt(s[1..], limit);
      assert s[0] <= limit;
    }
  }

  lemma {:induction false} WithNextLength(s: seq<nat>)
    ensures |WithNext(s)| == |s|
  {
    if s != [] {
      WithNextLength(s[1..]);
    }
  }

  lemma {:induction false} WithNextVal(q: nat, s: seq<nat>)
    requires s != []
    ensures Val(q, WithNext(s)) == Val(q, s) + Val(q, s[1..])
  {
    assert WithNext(s)[1..] == WithNext(s[1..]);
    if |s| > 1 {
      WithNextVal(q, s[1..]);
    }
  }

  lemma {:induction false} WithNextEvens(s: seq<nat>)
    requires |s| % 2 == 0
    ensures Evens(WithNext(s)) == Pairs(s)
  {
    if s != [] {
      WithNextEvens(s[2..]);
      WithNextLength(s);
      assert WithNext(s)[1..] == WithNext(s[1..]) && s[1..][1..] == s[2..];
      assert WithNext(s)[2..] == WithNext(s[1..])[1..];
    }
  }

  lemma ThirdSum(s: seq<nat>)
    requires |s| == 16 && AtMost(s, 4)
    ensures Val(16, s) + Val(16, s) / 16 == Val(16, WithNext(s)) < TWO64
  {
    assert Pow2(4) == 16;
    Pow64();
    WithNextAt(s, 4);
    WithNextVal(16, s);
    ModUnique(Val(16, s), 16, Val(16, s[1..]), s[0]);
    ValBound(4, 16, WithNext(s));
  }

  lemma MaskNibbles(t: seq<nat>)
    requires |t| == 16 && AtMost(t, 8)
    ensures And(Val(16, t), 0x0f0f0f0f0f0f0f0f) == Val(256, Evens(t))
  {
    assert Pow2(4) == 16;
    Masks();
    AndEvens(16, 4, t);
  }

  lemma ThirdStep(s: seq<nat>)
    requires |s| == 16 && AtMost(s, 4)
    ensures var x := Val(16, s);
            x + x / 16 < TWO64 && And(x + x / 16, 0x0f0f0f0f0f0f0f0f) == Val(256, Pairs(s))
  {
    ThirdSum(s);
    WithNextAt(s, 4);
    MaskNibbles(WithNext(s));
    WithNextEvens(s);
  }

  /** Last step: the top byte of the product with a one in each byte is the sum of the bytes. */
  lemma LastStep(s: seq<nat>)
    requires |s| == 8 && Total(s) < 256
    ensures Val(256, s) * 0x0101010101010101 % TWO64 / 0x100_0000_0000_0000 == Total(s)
  {
    Unrolled(s);
    TopByte(s[0], s[1], s[2], s[3], s[4], s[5], s[6], s[7]);
  }

  lemma TopByte(a: nat, b: nat, c: nat, d: nat, e: nat, f: nat, g: nat, h: nat)
    requires a + b + c + d + e + f + g + h < 256
    ensures (a + 0x100 * b + 0x1_0000 * c + 0x100_0000 * d + 0x1_0000_0000 * e + 0x100_0000_0000 * f
             + 0x1_0000_0000_0000 * g + 0x100_0000_0000_0000 * h) * 0x0101010101010101 % TWO64 / 0x100_0000_0000_0000
            == a + b + c + d + e + f + g + h
  {
    var x := a + 0x100 * b + 0x1_0000 * c + 0x100_0000 * d + 0x1_0000_0000 * e + 0x100_0000_0000 * f
             + 0x1_0000_0000_0000 * g + 0x100_0000_0000_0000 * h;
    var low := a + 0x100 * (a + b) + 0x1_0000 * (a + b + c) + 0x100_0000 * (a + b + c + d)
               + 0x1_0000_0000 * (a + b + c + d + e) + 0x100_0000_0000 * (a + b + c + d + e + f)
               + 0x1_0000_0000_0000 * (a + b + c + d + e + f + g);
    var high := b + c + d + e + f + g + h + 0x100 * (c + d + e + f + g + h) + 0x1_0000 * (d + e + f + g + h)
                + 0x100_0000 * (e + f + g + h) + 0x1_0000_0000 * (f + g + h) + 0x100_0000_0000 * (g + h)
                + 0x1_0000_0000_0000 * h;
    var sum := a + b + c + d + e + f + g + h;
    assert x * 0x0101010101010101 == high * TWO64 + (low + 0x100_0000_0000_0000 * sum);
    assert low < 0x100_0000_0000_0000;
    ModUnique(x * 0x0101010101010101, TWO64, high, low + 0x100_0000_0000_0000 * sum);
    ModUnique(low + 0x100_0000_0000_0000 * sum, 0x100_0000_0000_0000, sum, low);
  }

  lemma Unrolled(s: seq<nat>)
    requires |s| == 8
    ensures Val(256, s) == s[0] + 0x100 * s[1] + 0x1_0000 * s[2] + 0x100_0000 * s[3] + 0x1_0000_0000 * s[4]
                           + 0x100_0000_0000 * s[5] + 0x1_0000_0000_0000 * s[6] + 0x100_0000_0000_0000 * s[7]
    ensures Total(s) == s[0] + s[1] + s[2] + s[3] + s[4] + s[5] + s[6] + s[7]
  {
    FirstFour(s);
    FirstFour(s[4..]);
  }

  lemma FirstFour(s: seq<nat>)
    requires |s| >= 4
    ensures Val(256, s) == s[0] + 0x100 * s[1] + 0x1_0000 * s[2] + 0x100_0000 * s[3] + 0x1_0000_0000 * Val(256, s[4..])
    ensures Total(s) == s[0] + s[1] + s[2] + s[3] + Total(s[4..])
  {
    assert s[1..][1..] == s[2..] && s[2..][1..] == s[3..] && s[3..][1..] == s[4..];
    assert Val(256, s[2..]) == s[2] + 256 * Val(256, s[3..]);
    assert Total(s[2..]) == s[2] + Total(s[3..]);
  }

  lemma AfterFirst(x: Word) returns (s: seq<nat>)
    ensures |s| == 32 && AtMost(s, 2) && Total(s) == Ones(x) <= 64
    ensures And(x / 2, 0x5555555555555555) <= x && x - And(x / 2, 0x5555555555555555) == Val(4, s)
  {
    var bits := Bits(x, 64);
    Pow64();
    BitsOf(x, 64);
    TotalOfBits(bits);
    FirstStep(bits);
    s := Pairs(bits);
    PairsTotal(bits);
    PairsAtMost(bits, 1);
  }

  lemma AfterSecond(x: Word, s: seq<nat>) returns (t: seq<nat>)
    requires |s| == 32 && AtMost(s, 2) && x == Val(4, s)
    ensures |t| == 16 && AtMost(t, 4) && Total(t) == Total(s)
    ensures And(x, 0x3333333333333333) + And(x / 4, 0x3333333333333333) == Val(16, t) < TWO64
  {
    t := Pairs(s);
    SecondStep(s);
    PairsTotal(s);
    PairsAtMost(s, 2);
    ThirdSum(t);
  }

  lemma AfterThird(x: Word, s: seq<nat>) returns (t: seq<nat>)
    requires |s| == 16 && AtMost(s, 4) && x == Val(16, s)
    ensures |t| == 8 && Total(t) == Total(s)
    ensures x + x / 16 < TWO64
    ensures And(x + x / 16, 0x0f0f0f0f0f0f0f0f) == Val(256, t) < TWO64
  {
    t := Pairs(s);
    ThirdStep(s);
    PairsTotal(s);
    AndBelow(x + x / 16, 0x0f0f0f0f0f0f0f0f);
  }

  lemma AfterLast(x: Word, s: seq<nat>)
    requires |s| == 8 && Total(s) <= 64 && x == Val(256, s)
    ensures Wrap(x * 0x0101010101010101) / 0x100_0000_0000_0000 == Total(s)
  {
    LastStep(s);
  }

  /** The manual count in make_secret, for every 64-bit value. */
  method ManualPopcount(word: Word) returns (x: Word)
    ensures x == Ones(word)
  {
    x := word;
    ghost var twos := AfterFirst(x);
    x := x - And(x / 2, 0x5555555555555555);
    ghost var fours := AfterSecond(x, twos);
    ghost var sum := And(x, 0x3333333333333333) + And(x / 4, 0x3333333333333333);
    NoWrap(sum);
    x := Wrap(And(x, 0x3333333333333333) + And(x / 4, 0x3333333333333333));
    assert x == sum;
    ghost var eights := AfterThird(x, fours);
    NoWrap(x + x / 16);
    x := And(Wrap(x + x / 16), 0x0f0f0f0f0f0f0f0f);
    AfterLast(x, eights);
    x := Wrap(x * 0x0101010101010101) / 0x100_0000_0000_0000;
  }

  lemma {:induction false} TotalOfBits(s: seq<nat>)
    requires AtMost(s, 1)
    ensures Total(s) <= |s|
  {
    if s != [] {
      TotalOfBits(s[1..]);
    }
  }

  lemma {:induction false} AndBelow(a: nat, b: nat)
    ensures And(a, b) <= b
    decreases a
  {
    if a > 0 {
      AndBelow(a / 2, b / 2);
    }
  }
}
