/** The generator that make_secret draws from: its period, and which of its seeds draw the same number. */
module WyrandPeriod {
  import opened CTypes
  import opened Words
  import opened Mum
  import opened MakeSecret

  /** What wyrand adds to its seed, and its inverse modulo 2^64. */
  const STEP := 0xa0761d6478bd642f
  const INVERSE := 0x939c72e4af1e62cf
  const TURNS := 0x5c85e2de8a9b090e

  lemma StepIsInvertible()
    ensures STEP * INVERSE == TURNS * TWO64 + 1
  {
  }

  /** Numbers that differ by a multiple of m have the same remainder. */
  lemma ModShift(a: int, m: int, k: int)
    requires m > 0
    ensures (a + k * m) % m == a % m
  {
    var q, r := a / m, a % m;
    assert a + k * m == (q + k) * m + r;
    ModUnique(a + k * m, m, q + k, r);
  }

  lemma {:induction false} SeedAfterIs(seed: Word, n: nat)
    ensures SeedAfter(seed, n) == (seed + n * STEP) % TWO64
  {
    if n > 0 {
      SeedAfterIs(seed, n - 1);
      var all := seed + (n - 1) * STEP;
      assert seed + n * STEP == all % TWO64 + STEP + all / TWO64 * TWO64;
      ModShift(all % TWO64 + STEP, TWO64, all / TWO64);
    } else {
      ModUnique(seed, TWO64, 0, seed);
    }
  }

  lemma {:induction false} SeedAfterSum(seed: Word, a: nat, b: nat)
    ensures SeedAfter(seed, a + b) == SeedAfter(SeedAfter(seed, a), b)
  {
    if b > 0 {
      SeedAfterSum(seed, a, b - 1);
    }
  }

  /** n steps come back to where they started only if n is a multiple of 2^64. */
  lemma StepsApart(n: nat, q: int)
    requires n * STEP == q * TWO64
    ensures n % TWO64 == 0
  {
    var k := q * INVERSE - n * TURNS;
    calc {
      n;
      n * (STEP * INVERSE) - n * (TURNS * TWO64);
      { assert n * (STEP * INVERSE) == n * STEP * INVERSE; }
      q * TWO64 * INVERSE - n * TURNS * TWO64;
      k * TWO64;
    }
    ModUnique(n, TWO64, k, 0);
  }

  /** The generator has full period: it returns to a seed after 2^64 draws and not before. */
  lemma FullPeriod(seed: Word, n: nat)
    ensures SeedAfter(seed, n) == seed <==> n % TWO64 == 0
  {
    var all := seed + n * STEP;
    SeedAfterIs(seed, n);
    if all % TWO64 == seed {
      assert n * STEP == all / TWO64 * TWO64;
      StepsApart(n, all / TWO64);
    }
    if n % TWO64 == 0 {
      var k := n / TWO64;
      assert n * STEP == k * STEP * TWO64;
      ModShift(seed, TWO64, k * STEP);
      ModUnique(seed, TWO64, 0, seed);
    }
  }

  /** Of 2^64 draws in a row no two start from the same seed. */
  lemma SeedsRepeatExactly(seed: Word, a: nat, b: nat)
    ensures SeedAfter(seed, a) == SeedAfter(seed, b) <==> a % TWO64 == b % TWO64
  {
    if a <= b {
      SeedsRepeatLater(seed, a, b);
    } else {
      SeedsRepeatLater(seed, b, a);
    }
  }

  lemma SeedsRepeatLater(seed: Word, a: nat, b: nat)
    requires a <= b
    ensures SeedAfter(seed, a) == SeedAfter(seed, b) <==> a % TWO64 == b % TWO64
  {
    SeedAfterSum(seed, a, b - a);
    FullPeriod(SeedAfter(seed, a), b - a);
    if (b - a) % TWO64 == 0 {
      ModShift(a, TWO64, (b - a) / TWO64);
    }
    if a % TWO64 == b % TWO64 {
      ModUnique(b - a, TWO64, b / TWO64 - a / TWO64, 0);
    }
  }

  /** Whatever the seed, every word comes up as the seed of a draw. */
  lemma EverySeedComesUp(seed: Word, w: Word)
    ensures exists n :: 0 <= n < TWO64 && SeedAfter(seed, n) == w
  {
    var d := w - seed + TWO64;
    var n := d * INVERSE % TWO64;
    var q := d * INVERSE / TWO64;
    SeedAfterIs(seed, n);
    calc {
      seed + n * STEP;
      seed + (d * INVERSE - q * TWO64) * STEP;
      seed + d * (STEP * INVERSE) - q * STEP * TWO64;
      seed + d + (d * TURNS - q * STEP) * TWO64;
      w + (1 + d * TURNS - q * STEP) * TWO64;
    }
    ModShift(w, TWO64, 1 + d * TURNS - q * STEP);
    ModUnique(w, TWO64, 0, w);
  }

  // ---------- what is drawn ----------

  const TWIST: Word := 0xe7037ed1a0b428db

  /** Two seeds whose successors differ by the twist draw the same number; so every number drawn is drawn twice. */
  lemma TwinSeedsDrawAlike(a: Word, b: Word)
    requires NextSeed(b) == XorWord(NextSeed(a), TWIST)
    ensures Draw(a) == Draw(b)
  {
    XorCancels(NextSeed(a), TWIST);
    MixCommutes(NextSeed(a), NextSeed(b));
  }

  lemma XorOne(a: nat)
    requires a % 2 == 1
    ensures Xor(1, a) == a - 1
  {
    XorHalves(1, a);
    XorZero(a / 2);
    XorCommutes(0, a / 2);
  }

  lemma DrawOf(seed: Word, next: Word, r: Word)
    requires NextSeed(seed) == next && Mix(next, XorWord(next, TWIST)) == r
    ensures Draw(seed) == r
  {
  }

  /** Two draws that differ: one is 0, and one is the twist with its last bit cleared. */
  lemma DrawsDiffer(a: Word, b: Word, twist: Word)
    requires NextSeed(a) == twist == TWIST && NextSeed(b) == 1
    ensures Draw(a) == 0 && Draw(b) == twist - 1
  {
    XorSelf(twist);
    MixOfZero(twist);
    MixCommutes(twist, 0);
    DrawOf(a, twist, 0);
    XorOne(twist);
    MixOfOne(twist - 1);
    DrawOf(b, 1, twist - 1);
  }

  // ---------- which words the search takes ----------

  /** Item i of words, at or after first, is the first that fits the earlier ones. */
  ghost predicate FirstFit(fits: (nat, seq<nat>) -> bool, words: nat -> nat, first: nat, i: nat, earlier: seq<nat>)
  {
    first <= i && fits(words(i), earlier) && forall j :: first <= j < i ==> !fits(words(j), earlier)
  }

  /** What ws has from position k on are, one after the other, the first items that fit those before. */
  ghost predicate Greedy(fits: (nat, seq<nat>) -> bool, words: nat -> nat, first: nat, ws: seq<nat>, k: nat)
    decreases |ws| - k
  {
    k < |ws| ==>
      exists i: nat ::
        FirstFit(fits, words, first, i, ws[..k]) && ws[k] == words(i) && Greedy(fits, words, i + 1, ws, k + 1)
  }

  ghost predicate RestAt(words: nat -> nat, later: nat -> nat, i: nat)
  {
    later(i) == words(i + 1)
  }

  /** Later are the items without the first. */
  ghost predicate Rest(words: nat -> nat, later: nat -> nat)
  {
    forall i: nat :: RestAt(words, later, i)
  }

  lemma {:induction false} GreedyLater(fits: (nat, seq<nat>) -> bool, words: nat -> nat, later: nat -> nat, first: nat,
                                       ws: seq<nat>, k: nat)
    requires Rest(words, later) && Greedy(fits, later, first, ws, k)
    ensures Greedy(fits, words, first + 1, ws, k)
    decreases |ws| - k
  {
    if k < |ws| {
      var i: nat :|
        FirstFit(fits, later, first, i, ws[..k]) && ws[k] == later(i) && Greedy(fits, later, i + 1, ws, k + 1);
      GreedyLater(fits, words, later, i + 1, ws, k + 1);
      FirstFitLater(fits, words, later, first, i, ws[..k]);
    }
  }

  lemma FirstFitLater(fits: (nat, seq<nat>) -> bool, words: nat -> nat, later: nat -> nat, first: nat, i: nat,
                      earlier: seq<nat>)
    requires Rest(words, later) && FirstFit(fits, later, first, i, earlier)
    ensures FirstFit(fits, words, first + 1, i + 1, earlier) && words(i + 1) == later(i)
  {
    assert RestAt(words, later, i);
    forall j | first + 1 <= j < i + 1 ensures !fits(words(j), earlier) { assert RestAt(words, later, j - 1); }
  }

  ghost function Taken(fits: (nat, seq<nat>) -> bool, found: seq<nat>, w: nat): seq<nat>
  {
    if fits(w, found) then found + [w] else found
  }

  /** One item before those of a greedy choice: it is taken if it fits. */
  lemma GreedyNext(fits: (nat, seq<nat>) -> bool, words: nat -> nat, later: nat -> nat, found: seq<nat>, ws: seq<nat>)
    requires Rest(words, later) && Taken(fits, found, words(0)) <= ws
    requires Greedy(fits, later, 0, ws, |Taken(fits, found, words(0))|)
    ensures Greedy(fits, words, 0, ws, |found|)
  {
    var k, more := |found|, Taken(fits, found, words(0));
    assert ws[..k] == more[..k] == found;
    GreedyLater(fits, words, later, 0, ws, |more|);
    if fits(words(0), found) {
      assert ws[k] == more[k];
      assert FirstFit(fits, words, 0, 0, ws[..k]);
    } else {
      GreedySooner(fits, words, ws, k);
    }
  }

  lemma GreedySooner(fits: (nat, seq<nat>) -> bool, words: nat -> nat, ws: seq<nat>, k: nat)
    requires k < |ws| ==> !fits(words(0), ws[..k])
    requires Greedy(fits, words, 1, ws, k)
    ensures Greedy(fits, words, 0, ws, k)
  {
    if k < |ws| {
      var i: nat :|
        FirstFit(fits, words, 1, i, ws[..k]) && ws[k] == words(i) && Greedy(fits, words, i + 1, ws, k + 1);
      assert FirstFit(fits, words, 0, i, ws[..k]);
    }
  }

  /** What is drawn in each attempt, if one takes this many bytes. */
  ghost function Candidates(seed: Word, bytes: nat): nat -> nat
  {
    i => Drawn(SeedAfter(seed, bytes * i), bytes)
  }

  lemma LaterSeed(seed: Word, bytes: nat, i: nat)
    ensures SeedAfter(SeedAfter(seed, bytes), bytes * i) == SeedAfter(seed, bytes * (i + 1))
  {
    assert bytes * (i + 1) == bytes + bytes * i;
    SeedAfterSum(seed, bytes, bytes * i);
  }

  lemma CandidateLater(seed: Word, bytes: nat, i: nat)
    ensures RestAt(Candidates(seed, bytes), Candidates(SeedAfter(seed, bytes), bytes), i)
  {
    LaterSeed(seed, bytes, i);
  }

  lemma CandidatesRest(seed: Word, bytes: nat)
    ensures Rest(Candidates(seed, bytes), Candidates(SeedAfter(seed, bytes), bytes))
  {
    var words, later := Candidates(seed, bytes), Candidates(SeedAfter(seed, bytes), bytes);
    forall i: nat ensures RestAt(words, later, i) {
      CandidateLater(seed, bytes, i);
    }
  }

  lemma SearchNext(seed: Word, found: seq<nat>, attempts: nat)
    requires |found| < 4 && Search(seed, found, attempts).Some?
    ensures attempts > 0
    ensures Search(seed, found, attempts)
         == Search(SeedAfter(seed, 8), Taken(Fits, found, Candidates(seed, 8)(0)), attempts - 1)
  {
  }

  /** What is found is the words already there and then, one after the other, the first words drawn that fit. */
  lemma {:induction false} SearchTakesFirstFit(seed: Word, found: seq<nat>, attempts: nat)
    requires Search(seed, found, attempts).Some? && |found| <= 4
    ensures var ws := Search(seed, found, attempts).value;
            |ws| == 4 && found <= ws && Greedy(Fits, Candidates(seed, 8), 0, ws, |found|)
    decreases attempts
  {
    if |found| < 4 {
      var words := Candidates(seed, 8);
      SearchNext(seed, found, attempts);
      SearchTakesFirstFit(SeedAfter(seed, 8), Taken(Fits, found, words(0)), attempts - 1);
      CandidatesRest(seed, 8);
      GreedyNext(Fits, words, Candidates(SeedAfter(seed, 8), 8), found, Search(seed, found, attempts).value);
    }
  }

  lemma NearbyDiffer(a: nat, b: nat)
    requires a < b < a + TWO64
    ensures a % TWO64 != b % TWO64
  {
  }

  /** The draws of two attempts, less than 2^61 apart, start from different seeds. */
  lemma AttemptsDrawAfresh(seed: Word, i: nat, j: nat, m: nat, n: nat)
    requires i < j && 8 * (j - i) <= TWO64 - 8 && m < 8 && n < 8
    ensures SeedAfter(seed, 8 * i + m) != SeedAfter(seed, 8 * j + n)
  {
    SeedsRepeatExactly(seed, 8 * i + m, 8 * j + n);
    NearbyDiffer(8 * i + m, 8 * j + n);
  }
}
