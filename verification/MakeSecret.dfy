/**
 make_secret of libfh/wyhash.h. Its search for a fourth word may in principle go on for ever, so it is
 given a number of attempts here; nothing it finds depends on that number.
 */
module MakeSecret {
  import opened CTypes
  import opened Words
  import opened Mum
  import opened Popcount

  // ---------- wyrand ----------

  function NextSeed(seed: Word): Word
  {
    Wrap(seed + 0xa0761d6478bd642f)
  }

  function Draw(seed: Word): Word
  {
    Mix(NextSeed(seed), XorWord(NextSeed(seed), 0xe7037ed1a0b428db))
  }

  /** wyrand, which moves the seed on. */
  method Wyrand(seed: Word) returns (next: Word, r: Word)
    ensures next == NextSeed(seed) && r == Draw(seed)
  {
    next := Wrap(seed + 0xa0761d6478bd642f);
    r := Wymix(next, XorWord(next, 0xe7037ed1a0b428db));
  }

  // ---------- what is searched for ----------

  /** Bytes with four bits set. */
  const ROW0: seq<nat> := [15, 23, 27, 29, 30, 39, 43, 45, 46, 51]
  const ROW1: seq<nat> := [53, 54, 57, 58, 60, 71, 75, 77, 78, 83]
  const ROW2: seq<nat> := [85, 86, 89, 90, 92, 99, 101, 102, 105, 106]
  const ROW3: seq<nat> := [108, 113, 114, 116, 120, 135, 139, 141, 142, 147]
  const ROW4: seq<nat> := [149, 150, 153, 154, 156, 163, 165, 166, 169, 170]
  const ROW5: seq<nat> := [172, 177, 178, 180, 184, 195, 197, 198, 201, 202]
  const ROW6: seq<nat> := [204, 209, 210, 212, 216, 225, 226, 228, 232, 240]
  const TABLE: seq<nat> := ROW0 + ROW1 + ROW2 + ROW3 + ROW4 + ROW5 + ROW6

  ghost predicate FourBits(b: nat)
  {
    b < 256 && Ones(b) == 4
  }

  function Pick(r: Word): nat
  {
    TABLE[r % |TABLE|]
  }

  function SeedAfter(seed: Word, n: nat): Word
  {
    if n == 0 then seed else NextSeed(SeedAfter(seed, n - 1))
  }

  /** Byte b at position n. */
  function Place(b: nat, n: nat): nat
  {
    Pow2(8 * n) * b
  }

  /** The first n bytes drawn, lowest first. */
  function Drawn(seed: Word, n: nat): nat
  {
    if n == 0 then 0 else Drawn(seed, n - 1) + Place(Pick(Draw(SeedAfter(seed, n - 1))), n - 1)
  }

  /** Odd, and different from each earlier word in exactly half of the bits. */
  ghost predicate Fits(w: nat, earlier: seq<nat>)
  {
    w % 2 == 1 && forall j :: 0 <= j < |earlier| ==> Ones(Xor(earlier[j], w)) == 32
  }

  ghost predicate IsSecret(s: seq<nat>)
  {
    && (forall i :: 0 <= i < |s| ==> s[i] % 2 == 1 && Ones(s[i]) == 32)
    && (forall i, j :: 0 <= i < j < |s| ==> Ones(Xor(s[i], s[j])) == 32)
  }

  /** Drawing words from seed on until four are found or the attempts are used up. */
  ghost function Search(seed: Word, found: seq<nat>, attempts: nat): Option<seq<nat>>
    decreases attempts
  {
    if |found| == 4 then Some(found)
    else if attempts == 0 then None
    else
      var w := Drawn(seed, 8);
      Search(SeedAfter(seed, 8), if Fits(w, found) then found + [w] else found, attempts - 1)
  }

  // ---------- the table ----------

  lemma {:induction false} OnesConcat(a: nat, b: nat, k: nat, s: nat)
    requires a < Pow2(k) && s == a + Pow2(k) * b
    ensures Ones(s) == Ones(a) + Ones(b)
    decreases k
  {
    if k > 0 {
      Halved(a, b, k, s);
      OnesConcat(a / 2, b, k - 1, s / 2);
      OnesDouble(s);
      OnesDouble(a);
    } else {
      assert a == 0 && s == b;
    }
  }

  lemma OnesDouble(a: nat)
    ensures Ones(a) == a % 2 + Ones(a / 2)
  {
  }

  /** A bit above all the others is one more. */
  lemma OneAbove(rest: nat, k: nat, s: nat)
    requires rest < Pow2(k) && s == rest + Pow2(k)
    ensures Ones(s) == Ones(rest) + 1
  {
    OnesConcat(rest, 1, k, s);
  }

  /** n bits below position k, and bit k. */
  lemma AddBit(rest: nat, n: nat, k: nat, v: nat)
    requires Ones(rest) == n && rest < Pow2(k) && v == rest + Pow2(k)
    ensures Ones(v) == n + 1 && v < 2 * Pow2(k)
  {
    OneAbove(rest, k, v);
  }

  lemma Two(v: nat, a: nat, b: nat)
    requires b < a && v == Pow2(b) + Pow2(a)
    ensures Ones(v) == 2 && v < 2 * Pow2(a)
  {
    Pow2Below(b, a);
    AddBit(0, 0, b, Pow2(b));
    AddBit(Pow2(b), 1, a, v);
  }

  lemma Three(v: nat, a: nat, b: nat, c: nat)
    requires c < b < a && v == Pow2(c) + Pow2(b) + Pow2(a)
    ensures Ones(v) == 3 && v < 2 * Pow2(a)
  {
    Pow2Below(b, a);
    Two(v - Pow2(a), b, c);
    AddBit(v - Pow2(a), 2, a, v);
  }

  lemma Four(v: nat, a: nat, b: nat, c: nat, d: nat)
    requires d < c < b < a < 8 && v == Pow2(d) + Pow2(c) + Pow2(b) + Pow2(a)
    ensures FourBits(v)
  {
    var low := Pow2(d) + Pow2(c) + Pow2(b);
    Three(low, b, c, d);
    TopBit(low, a, b, v);
  }

  /** A fourth bit above three. */
  lemma TopBit(low: nat, a: nat, b: nat, v: nat)
    requires b < a < 8 && low < 2 * Pow2(b) && Ones(low) == 3 && v == low + Pow2(a)
    ensures FourBits(v)
  {
    Pow2Below(b, a);
    AddBit(low, 3, a, v);
    InByte(v, a);
  }

  lemma InByte(v: nat, a: nat)
    requires a < 8 && v < 2 * Pow2(a)
    ensures v < 256
  {
    Pow2Below(a, 8);
    assert Pow2(8) == 256;
  }

  lemma Weights()
    ensures Pow2(0) == 1 && Pow2(1) == 2 && Pow2(2) == 4 && Pow2(3) == 8
    ensures Pow2(4) == 16 && Pow2(5) == 32 && Pow2(6) == 64 && Pow2(7) == 128
  {
  }

  lemma Row0()
    ensures forall i :: 0 <= i < |ROW0| ==> FourBits(ROW0[i])
  {
    Weights();
    Four(15, 3, 2, 1, 0); Four(23, 4, 2, 1, 0); Four(27, 4, 3, 1, 0); Four(29, 4, 3, 2, 0); Four(30, 4, 3, 2, 1);
    Four(39, 5, 2, 1, 0); Four(43, 5, 3, 1, 0); Four(45, 5, 3, 2, 0); Four(46, 5, 3, 2, 1); Four(51, 5, 4, 1, 0);
  }

  lemma Row1()
    ensures forall i :: 0 <= i < |ROW1| ==> FourBits(ROW1[i])
  {
    Weights();
    Four(53, 5, 4, 2, 0); Four(54, 5, 4, 2, 1); Four(57, 5, 4, 3, 0); Four(58, 5, 4, 3, 1); Four(60, 5, 4, 3, 2);
    Four(71, 6, 2, 1, 0); Four(75, 6, 3, 1, 0); Four(77, 6, 3, 2, 0); Four(78, 6, 3, 2, 1); Four(83, 6, 4, 1, 0);
  }

  lemma Row2()
    ensures forall i :: 0 <= i < |ROW2| ==> FourBits(ROW2[i])
  {
    Weights();
    Four(85, 6, 4, 2, 0); Four(86, 6, 4, 2, 1); Four(89, 6, 4, 3, 0); Four(90, 6, 4, 3, 1); Four(92, 6, 4, 3, 2);
    Four(99, 6, 5, 1, 0); Four(101, 6, 5, 2, 0); Four(102, 6, 5, 2, 1); Four(105, 6, 5, 3, 0); Four(106, 6, 5, 3, 1);
  }

  lemma Row3()
    ensures forall i :: 0 <= i < |ROW3| ==> FourBits(ROW3[i])
  {
    Weights();
    Four(108, 6, 5, 3, 2); Four(113, 6, 5, 4, 0); Four(114, 6, 5, 4, 1); Four(116, 6, 5, 4, 2); Four(120, 6, 5, 4, 3);
    Four(135, 7, 2, 1, 0); Four(139, 7, 3, 1, 0); Four(141, 7, 3, 2, 0); Four(142, 7, 3, 2, 1); Four(147, 7, 4, 1, 0);
  }

  lemma Row4()
    ensures forall i :: 0 <= i < |ROW4| ==> FourBits(ROW4[i])
  {
    Weights();
    Four(149, 7, 4, 2, 0); Four(150, 7, 4, 2, 1); Four(153, 7, 4, 3, 0); Four(154, 7, 4, 3, 1); Four(156, 7, 4, 3, 2);
    Four(163, 7, 5, 1, 0); Four(165, 7, 5, 2, 0); Four(166, 7, 5, 2, 1); Four(169, 7, 5, 3, 0); Four(170, 7, 5, 3, 1);
  }

  lemma Row5()
    ensures forall i :: 0 <= i < |ROW5| ==> FourBits(ROW5[i])
  {
    Weights();
    Four(172, 7, 5, 3, 2); Four(177, 7, 5, 4, 0); Four(178, 7, 5, 4, 1); Four(180, 7, 5, 4, 2); Four(184, 7, 5, 4, 3);
    Four(195, 7, 6, 1, 0); Four(197, 7, 6, 2, 0); Four(198, 7, 6, 2, 1); Four(201, 7, 6, 3, 0); Four(202, 7, 6, 3, 1);
  }

  lemma Row6()
    ensures forall i :: 0 <= i < |ROW6| ==> FourBits(ROW6[i])
  {
    Weights();
    Four(204, 7, 6, 3, 2); Four(209, 7, 6, 4, 0); Four(210, 7, 6, 4, 1); Four(212, 7, 6, 4, 2); Four(216, 7, 6, 4, 3);
    Four(225, 7, 6, 5, 0); Four(226, 7, 6, 5, 1); Four(228, 7, 6, 5, 2); Four(232, 7, 6, 5, 3); Four(240, 7, 6, 5, 4);
  }

  lemma PickHasFourBits(r: Word)
    ensures FourBits(Pick(r))
  {
    Row0();
    Row1();
    Row2();
    Row3();
    Row4();
    Row5();
    Row6();
    Rows(r % |TABLE|);
  }

  lemma Rows(i: nat)
    requires i < |TABLE|
    ensures TABLE[i] == if i < 10 then ROW0[i] else if i < 20 then ROW1[i - 10] else if i < 30 then ROW2[i - 20]
                        else if i < 40 then ROW3[i - 30] else if i < 50 then ROW4[i - 40]
                        else if i < 60 then ROW5[i - 50] else ROW6[i - 60]
  {
  }

  // ---------- what is found ----------

  /** n bytes with four bits set in each. */
  ghost predicate FourEach(w: nat, n: nat)
  {
    w < Pow2(8 * n) && Ones(w) == 4 * n
  }

  /** Four bits of each byte drawn. */
  lemma {:induction false} DrawnHasFourEach(seed: Word, n: nat)
    ensures FourEach(Drawn(seed, n), n)
  {
    if n > 0 {
      var k: nat := n - 1;
      DrawnHasFourEach(seed, k);
      var b := NextByte(seed, k);
      ByteOnTop(Drawn(seed, k), b, k, Drawn(seed, k + 1));
    }
  }

  lemma NextByte(seed: Word, n: nat) returns (b: nat)
    ensures FourBits(b) && Drawn(seed, n + 1) == Drawn(seed, n) + Place(b, n)
  {
    b := Pick(Draw(SeedAfter(seed, n)));
    PickHasFourBits(Draw(SeedAfter(seed, n)));
  }

  lemma ByteOnTop(low: nat, b: nat, n: nat, w: nat)
    requires FourEach(low, n) && FourBits(b) && w == low + Place(b, n)
    ensures FourEach(w, n + 1)
  {
    OnesConcat(low, b, 8 * n, w);
    ByteFits(low, b, n, w);
  }

  lemma ByteFits(low: nat, b: nat, n: nat, w: nat)
    requires low < Pow2(8 * n) && b < 256 && w == low + Place(b, n)
    ensures w < Pow2(8 * (n + 1))
  {
    assert Pow2(8) == 256;
    Pow2Add(8 * n, 8);
    MulGap(256, b, Pow2(8 * n));
  }

  lemma DrawnIsWord(seed: Word)
    ensures Drawn(seed, 8) < TWO64 && Ones(Drawn(seed, 8)) == 32
  {
    DrawnHasFourEach(seed, 8);
    Pow64();
  }

  /** What make_secret finds is a secret. */
  lemma {:induction false} SearchFindsSecret(seed: Word, found: seq<nat>, attempts: nat)
    requires IsSecret(found) && |found| <= 4
    ensures Search(seed, found, attempts).Some? ==>
              IsSecret(Search(seed, found, attempts).value) && |Search(seed, found, attempts).value| == 4
    decreases attempts
  {
    if |found| < 4 && attempts > 0 {
      var w := Drawn(seed, 8);
      DrawnIsWord(seed);
      SearchFindsSecret(SeedAfter(seed, 8), if Fits(w, found) then found + [w] else found, attempts - 1);
    }
  }

  /** With more attempts the same is found. */
  lemma {:induction false} SearchIsStable(seed: Word, found: seq<nat>, attempts: nat, more: nat)
    requires Search(seed, found, attempts).Some? && more >= attempts
    ensures Search(seed, found, more) == Search(seed, found, attempts)
    decreases attempts
  {
    if |found| != 4 {
      var w := Drawn(seed, 8);
      SearchIsStable(SeedAfter(seed, 8), if Fits(w, found) then found + [w] else found, attempts - 1, more - 1);
    }
  }

  // ---------- the loops ----------

  /** The loop that assembles a word from eight bytes drawn. */
  method DrawWord(seed0: Word) returns (w: Word, seed: Word)
    ensures w == Drawn(seed0, 8) && seed == SeedAfter(seed0, 8)
  {
    seed := seed0;
    var v, j := 0, 0;
    while j < 8
      invariant j <= 8 && v == Drawn(seed0, j) && seed == SeedAfter(seed0, j)
    {
      var r;
      seed, r := Wyrand(seed);
      ShiftedIn(seed0, j);
      v := Or(Place(Pick(r), j), v);
      j := j + 1;
    }
    DrawnIsWord(seed0);
    w := v;
  }

  lemma ShiftedIn(seed: Word, j: nat)
    ensures Or(Place(Pick(Draw(SeedAfter(seed, j))), j), Drawn(seed, j)) == Drawn(seed, j + 1)
  {
    DrawnHasFourEach(seed, j);
    OrDisjoint(Pick(Draw(SeedAfter(seed, j))), Drawn(seed, j), 8 * j);
  }

  /** The loop that compares a word with the earlier ones. */
  method FitsEarlier(w: Word, secret: array<Word>, i: nat) returns (ok: bool)
    requires i <= secret.Length
    ensures ok <==> Fits(w, secret[..i])
  {
    if w % 2 == 0 {
      return false;
    }
    var j := 0;
    while j < i
      invariant j <= i
      invariant forall k :: 0 <= k < j ==> Ones(Xor(secret[k], w)) == 32
    {
      var x := ManualPopcount(XorWord(secret[j], w));
      if x != 32 {
        assert secret[..i][j] == secret[j];
        return false;
      }
      j := j + 1;
    }
    return true;
  }

  lemma SearchStep(seed: Word, found: seq<nat>, left: nat, w: nat)
    requires |found| < 4 && w == Drawn(seed, 8)
    ensures Search(seed, found, left + 1)
            == Search(SeedAfter(seed, 8), if Fits(w, found) then found + [w] else found, left)
  {
  }

  /** One turn of the inner loop: a word is drawn into its place and compared with the earlier ones. */
  method TryWord(seed: Word, secret: array<Word>, i: nat) returns (ok: bool, next: Word)
    requires i < 4 == secret.Length
    modifies secret
    ensures secret[..i] == old(secret[..i]) && secret[i] == Drawn(seed, 8) && next == SeedAfter(seed, 8)
    ensures ok <==> Fits(secret[i], secret[..i])
  {
    var w;
    w, next := DrawWord(seed);
    secret[i] := w;
    ok := FitsEarlier(w, secret, i);
  }

  /** The inner loop: words are drawn until one fits, unless the attempts run out. */
  method FindWord(seed0: Word, secret: array<Word>, i: nat, attempts: nat) returns (ok: bool, seed: Word, left: nat)
    requires i < 4 == secret.Length
    modifies secret
    ensures secret[..i] == old(secret[..i])
    ensures ok ==> Search(seed, secret[..i + 1], left) == Search(seed0, secret[..i], attempts)
    ensures !ok ==> Search(seed0, secret[..i], attempts) == None
  {
    ghost var found, goal := secret[..i], Search(seed0, secret[..i], attempts);
    seed, left, ok := seed0, attempts, false;
    while !ok
      invariant secret[..i] == found
      invariant !ok ==> Search(seed, found, left) == goal
      invariant ok ==> Search(seed, found + [secret[i]], left) == goal
      decreases left, !ok
    {
      if left == 0 {
        return;
      }
      left := left - 1;
      ghost var before := seed;
      ok, seed := TryWord(seed, secret, i);
      SearchStep(before, found, left, secret[i]);
    }
    assert secret[..i + 1] == found + [secret[i]];
  }

  /** make_secret: done unless the attempts did not suffice. */
  method MakeSecret(seed0: Word, secret: array<Word>, attempts: nat) returns (done: bool)
    requires secret.Length == 4
    modifies secret
    ensures done <==> Search(seed0, [], attempts).Some?
    ensures done ==> Search(seed0, [], attempts) == Some(secret[..]) && IsSecret(secret[..])
  {
    var seed, left, i := seed0, attempts, 0;
    SearchFindsSecret(seed0, [], attempts);
    while i < 4
      invariant i <= 4
      invariant Search(seed, secret[..i], left) == Search(seed0, [], attempts)
    {
      var ok;
      ok, seed, left := FindWord(seed, secret, i, left);
      if !ok {
        return false;
      }
      i := i + 1;
    }
    assert secret[..4] == secret[..];
    done := true;
  }
}
