/** Fixed-width unsigned words as numbers, and the bitwise operations on them the libraries use. */
module Words {
  const TWO64 := 0x1_0000_0000_0000_0000
  const TWO32 := 0x1_0000_0000

  /** uint64_t */
  type Word = x: nat | x < 0x1_0000_0000_0000_0000

  function Pow2(n: nat): (p: nat)
    ensures p > 0
  {
    if n == 0 then 1 else 2 * Pow2(n - 1)
  }

  /** Bitwise and. */
  function And(a: nat, b: nat): nat
    decreases a
  {
    if a == 0 then 0
    else (if a % 2 == 1 && b % 2 == 1 then 1 else 0) + 2 * And(a / 2, b / 2)
  }

  /** Masking with 2^n - 1 takes the remainder modulo 2^n. */
  lemma {:induction false} AndMask(a: nat, n: nat)
    ensures And(a, Pow2(n) - 1) == a % Pow2(n)
    decreases n, a
  {
    if n == 0 {
      AndZero(a);
    } else {
      var half := Pow2(n - 1);
      if a == 0 {
        ModUnique(0, 2 * half, 0, 0);
      } else {
        AndMask(a / 2, n - 1);
        ModDouble(a, half);
        AndStep(a, half);
      }
    }
  }

  lemma AndStep(a: nat, half: nat)
    requires a > 0 && half > 0
    ensures And(a, 2 * half - 1) == a % 2 + 2 * And(a / 2, half - 1)
  {
    assert (2 * half - 1) / 2 == half - 1 && (2 * half - 1) % 2 == 1;
  }

  lemma {:induction false} AndZero(a: nat)
    ensures And(a, 0) == 0
    decreases a
  {
    if a > 0 {
      AndZero(a / 2);
    }
  }

  lemma ModDouble(a: nat, half: nat)
    requires half > 0
    ensures a % (2 * half) == a % 2 + 2 * ((a / 2) % half)
  {
    var q, r := (a / 2) / half, (a / 2) % half;
    assert a == 2 * (q * half + r) + a % 2;
    assert a == q * (2 * half) + (2 * r + a % 2);
    ModUnique(a, 2 * half, q, 2 * r + a % 2);
  }

  lemma MulGap(p: int, q: int, m: int)
    requires p > q && m > 0
    ensures p * m >= q * m + m
  {
    var d := p - q - 1;
    assert p * m == q * m + m + d * m;
  }

  /** Quotient and remainder are the only way to write a as q * m + r with 0 <= r < m. */
  lemma ModUnique(a: int, m: int, q: int, r: int)
    requires m > 0 && a == q * m + r && 0 <= r < m
    ensures a / m == q && a % m == r
  {
    var q', r' := a / m, a % m;
    assert a == q' * m + r';
    if q' > q {
      MulGap(q', q, m);
    } else if q' < q {
      MulGap(q, q', m);
    }
  }

  lemma {:induction false} Pow2Add(a: nat, b: nat)
    ensures Pow2(a + b) == Pow2(a) * Pow2(b)
  {
    if a > 0 {
      Pow2Add(a - 1, b);
    }
  }

  lemma {:induction false} Pow2Below(a: nat, b: nat)
    requires a < b
    ensures 2 * Pow2(a) <= Pow2(b)
  {
    if a + 1 < b {
      Pow2Below(a, b - 1);
    }
  }

  lemma Pow32()
    ensures Pow2(32) == TWO32
  {
    assert Pow2(8) == 0x100;
    Pow2Add(8, 8);
    Pow2Add(16, 16);
  }

  lemma Pow64()
    ensures Pow2(64) == TWO64
  {
    Pow32();
    Pow2Add(32, 32);
  }

  /** Arithmetic on uint64_t wraps around. */
  function Wrap(x: nat): Word
  {
    x % TWO64
  }

  lemma NoWrap(x: nat)
    requires x < TWO64
    ensures Wrap(x) == x
  {
    ModUnique(x, TWO64, 0, x);
  }

  /** Bitwise exclusive or. */
  function Xor(a: nat, b: nat): nat
    decreases a + b
  {
    if a == 0 && b == 0 then 0
    else (if a % 2 == b % 2 then 0 else 1) + 2 * Xor(a / 2, b / 2)
  }

  /** Bitwise or. */
  function Or(a: nat, b: nat): nat
    decreases a + b
  {
    if a == 0 && b == 0 then 0
    else (if a % 2 == 1 || b % 2 == 1 then 1 else 0) + 2 * Or(a / 2, b / 2)
  }

  lemma {:induction false} XorBelow(a: nat, b: nat, n: nat)
    requires a < Pow2(n) && b < Pow2(n)
    ensures Xor(a, b) < Pow2(n)
    decreases n
  {
    if n > 0 {
      XorBelow(a / 2, b / 2, n - 1);
    }
  }

  lemma {:induction false} XorZero(a: nat)
    ensures Xor(a, 0) == a
    decreases a
  {
    if a > 0 {
      XorZero(a / 2);
    }
  }

  lemma {:induction false} XorSelf(a: nat)
    ensures Xor(a, a) == 0
    decreases a
  {
    if a > 0 {
      XorSelf(a / 2);
    }
  }

  lemma {:induction false} XorCommutes(a: nat, b: nat)
    ensures Xor(a, b) == Xor(b, a)
    decreases a + b
  {
    if a > 0 || b > 0 {
      XorCommutes(a / 2, b / 2);
    }
  }

  lemma XorHalves(a: nat, b: nat)
    ensures Xor(a, b) / 2 == Xor(a / 2, b / 2)
    ensures Xor(a, b) % 2 == if a % 2 == b % 2 then 0 else 1
  {
  }

  lemma {:induction false} XorAssociates(a: nat, b: nat, c: nat)
    ensures Xor(Xor(a, b), c) == Xor(a, Xor(b, c))
    decreases a + b + c
  {
    XorHalves(a, b);
    XorHalves(b, c);
    XorHalves(Xor(a, b), c);
    XorHalves(a, Xor(b, c));
    if a > 0 || b > 0 || c > 0 {
      XorAssociates(a / 2, b / 2, c / 2);
    } else {
      XorZero(0);
    }
  }

  /** What is joined in twice is out again. */
  lemma XorCancels(a: nat, b: nat)
    ensures Xor(Xor(a, b), b) == a && Xor(b, Xor(b, a)) == a
  {
    XorAssociates(a, b, b);
    XorAssociates(b, b, a);
    XorSelf(b);
    XorZero(a);
    XorCommutes(0, a);
  }

  /** On words exclusive or stays within 64 bits. */
  function XorWord(a: Word, b: Word): Word
  {
    XorFits(a, b);
    Xor(a, b)
  }

  lemma XorFits(a: Word, b: Word)
    ensures Xor(a, b) < TWO64
  {
    Pow64();
    XorBelow(a, b, 64);
  }

  /** Numbers without a common bit are added by or. */
  lemma {:induction false} OrDisjoint(a: nat, low: nat, n: nat)
    requires low < Pow2(n)
    ensures Or(Pow2(n) * a, low) == Pow2(n) * a + low
    decreases n
  {
    if n == 0 {
      OrZero(a);
    } else {
      OrDisjoint(a, low / 2, n - 1);
      DoublePower(n, a);
      OrHalved(Pow2(n) * a, Pow2(n - 1) * a, low);
    }
  }

  lemma DoublePower(n: nat, a: nat)
    requires n > 0
    ensures Pow2(n) * a == 2 * (Pow2(n - 1) * a)
  {
    var half := Pow2(n - 1);
    assert Pow2(n) == 2 * half;
    assert 2 * half * a == 2 * (half * a);
  }

  lemma OrHalved(high: nat, half: nat, low: nat)
    requires high == 2 * half && Or(half, low / 2) == half + low / 2
    ensures Or(high, low) == high + low
  {
    OrDouble(half, low);
  }

  lemma OrDouble(half: nat, low: nat)
    ensures Or(2 * half, low) == low % 2 + 2 * Or(half, low / 2)
  {
  }

  lemma {:induction false} OrZero(a: nat)
    ensures Or(a, 0) == a
    decreases a
  {
    if a > 0 {
      OrZero(a / 2);
    }
  }
}
