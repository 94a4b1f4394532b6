/**
 Every byte of a key counts in its hash, whatever the key's length. Where the words of the secret that
 are joined with the left operands are 1, a block of zeros leaves the state as it is, so what becomes of
 a single byte can be followed through all blocks to the end.
 */
module WyhashCounts {
  import opened Words
  import opened Mum
  import opened Wyhash

  function Passing(s: Word): Secret
  {
    [s, 1, 1, 1]
  }

  // ---------- exclusive or on words ----------

  lemma XorLaws(a: Word, b: Word)
    ensures XorWord(a, 0) == a && XorWord(0, a) == a && XorWord(a, a) == 0
    ensures XorWord(a, b) == XorWord(b, a)
    ensures XorWord(XorWord(a, b), b) == a && XorWord(b, XorWord(b, a)) == a
  {
    XorZero(a);
    XorCommutes(0, a);
    XorSelf(a);
    XorCommutes(a, b);
    XorCancels(a, b);
  }

  lemma XorRegroup(a: Word, b: Word, c: Word)
    ensures XorWord(XorWord(a, b), c) == XorWord(a, XorWord(b, c))
  {
    XorAssociates(a, b, c);
  }

  lemma XorDiffers(a: Word, b: Word)
    requires a != 0
    ensures XorWord(a, b) != b
  {
    XorLaws(a, b);
    XorLaws(b, b);
  }

  lemma XorNonzero(a: Word, b: Word)
    requires a != b
    ensures XorWord(a, b) != 0
  {
    XorLaws(a, b);
    XorLaws(b, b);
  }

  // ---------- the start and the end of the hash ----------

  /** Whatever the seed, the state starts as the first word of the secret. */
  lemma StartIs(seed: Word, s: Word)
    ensures XorWord(seed, Mix(XorWord(seed, Passing(s)[0]), Passing(s)[1])) == s
  {
    var x := XorWord(seed, s);
    MixCommutes(x, 1);
    MixOfOne(x);
    XorLaws(s, seed);
  }

  lemma Tail(low: Word, high: Word, n: Word, s: Word)
    requires high == 0
    ensures Mix(XorWord(XorWord(low, Passing(s)[0]), n), XorWord(high, Passing(s)[1])) == XorWord(XorWord(low, s), n)
  {
    var r := XorWord(XorWord(low, s), n);
    XorLaws(1, 0);
    MixCommutes(r, 1);
    MixOfOne(r);
  }

  lemma ProductOne(a: Word, b: Word)
    requires a == 1
    ensures Low(a, b) == Low(b, a) == b && High(a, b) == High(b, a) == 0
  {
    assert a * b == b * a == b;
    ModUnique(b, TWO64, 0, b);
  }

  lemma ProductZero(a: Word, b: Word)
    requires b == 0
    ensures Low(a, b) == 0 && High(a, b) == 0
  {
    assert a * b == 0;
  }

  /** The second word of the end equals the state. */
  lemma FinishZero(a: Word, b: Word, n: Word, s: Word)
    ensures Finish(a, b, n, b, Passing(s)) == XorWord(s, n)
  {
    XorLaws(b, b);
    var a' := XorWord(a, 1);
    ProductZero(a', XorWord(b, b));
    Tail(0, 0, n, s);
    XorLaws(s, s);
  }

  /** The first word of the end is 0. */
  lemma FinishOne(b: Word, n: Word, state: Word, s: Word)
    ensures Finish(0, b, n, state, Passing(s)) == XorWord(XorWord(XorWord(b, state), s), n)
  {
    XorLaws(1, 1);
    var b' := XorWord(b, state);
    ProductOne(XorWord(0, 1), b');
    Tail(b', 0, n, s);
  }

  /** The second word of the end differs from the state in its last bit. */
  lemma FinishLast(a: Word, b: Word, n: Word, state: Word, s: Word)
    requires XorWord(b, state) == 1
    ensures Finish(a, b, n, state, Passing(s)) == XorWord(XorWord(XorWord(a, 1), s), n)
  {
    var a' := XorWord(a, 1);
    ProductOne(1, a');
    Tail(a', 0, n, s);
  }

  // ---------- keys of zeros, but for one byte ----------

  /** The first k bytes are 0. */
  ghost predicate Blank(key: seq<Byte>, k: nat)
  {
    k <= |key| && forall j :: 0 <= j < k ==> key[j] == 0
  }

  /** The first k bytes are 0, but byte p is 1. */
  ghost predicate Single(key: seq<Byte>, k: nat, p: nat)
  {
    k <= |key| && forall j :: 0 <= j < k ==> key[j] == if j == p then 1 else 0
  }

  function Zeros(n: nat): (key: seq<Byte>)
    ensures |key| == n && Blank(key, n)
  {
    seq(n, _ => 0)
  }

  function OneByte(n: nat, p: nat): (key: seq<Byte>)
    requires p < n
    ensures |key| == n && Single(key, n, p)
  {
    Zeros(n)[p := 1]
  }

  lemma {:induction false} LittleBlank(s: seq<Byte>)
    requires Blank(s, |s|)
    ensures Little(s) == 0
  {
    if s != [] {
      LittleBlank(s[1..]);
    }
  }

  lemma {:induction false} LittleSingle(s: seq<Byte>, p: nat)
    requires p < |s| && Single(s, |s|, p)
    ensures Little(s) == Pow2(8 * p)
  {
    if p == 0 {
      LittleBlank(s[1..]);
    } else {
      LittleSingle(s[1..], p - 1);
      assert Pow2(8) == 256;
      Pow2Add(8, 8 * (p - 1));
    }
  }

  /** What byte p adds to the word that is read at x. */
  ghost function Part(x: nat, p: nat): (w: nat)
    ensures w != 0 <==> x <= p < x + 8
  {
    if x <= p < x + 8 then Pow2(8 * (p - x)) else 0
  }

  lemma WordOfBlank(key: seq<Byte>, k: nat, x: nat)
    requires Blank(key, k) && x + 8 <= k
    ensures Little8(key[x..x + 8]) == 0
  {
    LittleBlank(key[x..x + 8]);
  }

  lemma WordOfSingle(key: seq<Byte>, k: nat, p: nat, x: nat)
    requires Single(key, k, p) && x + 8 <= k
    ensures Little8(key[x..x + 8]) == Part(x, p)
  {
    if x <= p < x + 8 {
      LittleSingle(key[x..x + 8], p - x);
    } else {
      LittleBlank(key[x..x + 8]);
    }
  }

  // ---------- keys of at most 16 bytes ----------

  lemma ZerosShort(n: nat)
    requires n <= 16
    ensures ShortWords(Zeros(n)) == (0, 0)
  {
    var key := Zeros(n);
    if n >= 4 {
      var q := Inner(n);
      LittleBlank(key[0..4]);
      LittleBlank(key[q..q + 4]);
      LittleBlank(key[n - 4..n]);
      LittleBlank(key[n - 4 - q..n - q]);
    }
  }

  /** The hash of a key of zeros is its length. */
  lemma ZerosEnd(n: Word, s: Word)
    ensures Finish(0, 0, n, s, Passing(s)) == n
  {
    FinishOne(0, n, s, s);
    XorLaws(s, s);
    XorLaws(n, n);
  }

  lemma ShortCounts(n: Word, p: nat, seed: Word) returns (s: Word)
    requires p < n <= 16
    ensures HashOf(Zeros(n), seed, Passing(s)) != HashOf(OneByte(n, p), seed, Passing(s))
  {
    var key := OneByte(n, p);
    var (a, b) := ShortWords(key);
    assert key[p] != Zeros(n)[p];
    if a == 0 && b == 0 {
      ZerosShort(n);
      ShortWordsInjective(key, Zeros(n));
    }
    s := if b != 0 then b else 1;
    StartIs(seed, s);
    ZerosShort(n);
    ZerosEnd(n, s);
    EndDiffers(a, b, n);
  }

  /** With the state equal to the word that was chosen for it. */
  lemma EndDiffers(a: Word, b: Word, n: Word)
    requires a != 0 || b != 0
    ensures var s := if b != 0 then b else 1; Finish(a, b, n, s, Passing(s)) != n
  {
    if b != 0 {
      FinishZero(a, b, n, b);
      XorDiffers(b, n);
    } else {
      XorLaws(1, 1);
      FinishLast(a, 0, n, 1, 1);
      XorLaws(a, 1);
      XorDiffers(a, n);
    }
  }

  // ---------- blocks ----------

  /** Where the loop over blocks of 48 bytes ends, and the one over blocks of 16. */
  ghost function End48(n: nat): (q: nat)
    ensures q <= n && n - q <= 48 && (n > 0 ==> q < n)
  {
    if n <= 48 then 0 else 48 + End48(n - 48)
  }

  ghost function End16(n: nat): (q: nat)
    ensures q <= n && n - q <= 16 && (n > 0 ==> q < n)
  {
    if n <= 16 then 0 else 16 + End16(n - 16)
  }

  lemma {:induction false} After48Is(key: seq<Byte>)
    ensures After48(key) == key[End48(|key|)..]
  {
    if |key| > 48 {
      After48Is(key[48..]);
    }
  }

  /** A word that is joined with the passing word of the secret and mixed with a lane. */
  function PassWord(w: Word, v: Word, lane: Word): Word
  {
    Mix(XorWord(w, 1), XorWord(v, lane))
  }

  lemma PassRight(v: Word, lane: Word)
    ensures PassWord(0, v, lane) == XorWord(v, lane)
  {
    XorLaws(1, 0);
    MixOfOne(XorWord(v, lane));
  }

  lemma PassLeft(w: Word)
    ensures PassWord(w, 0, 1) == XorWord(w, 1)
  {
    XorLaws(1, 0);
    MixCommutes(XorWord(w, 1), 1);
    MixOfOne(XorWord(w, 1));
  }

  lemma PassBlocked(w: Word, lane: Word)
    ensures PassWord(w, lane, lane) == 0
  {
    XorLaws(lane, lane);
    MixCommutes(XorWord(w, 1), 0);
    MixOfZero(XorWord(w, 1));
  }

  lemma Absorb16Is(key: seq<Byte>, lane: Word, s: Word)
    requires |key| >= 16
    ensures Absorb16(key[..16], lane, Passing(s)) == PassWord(Little8(key[0..8]), Little8(key[8..16]), lane)
  {
    assert key[..16][..8] == key[0..8] && key[..16][8..] == key[8..16];
  }

  lemma Absorb48Is(key: seq<Byte>, x: Seeds, s: Word)
    requires |key| >= 48
    ensures Absorb48(key[..48], x, Passing(s)) == Seeds(
              PassWord(Little8(key[0..8]), Little8(key[8..16]), x.main),
              PassWord(Little8(key[16..24]), Little8(key[24..32]), x.one),
              PassWord(Little8(key[32..40]), Little8(key[40..48]), x.two))
  {
    assert key[..48] == key[0..48];
    Slices(key, 0);
  }

  // ---------- blank blocks ----------

  lemma Blank16(key: seq<Byte>, lane: Word, s: Word)
    requires Blank(key, 16)
    ensures Absorb16(key[..16], lane, Passing(s)) == lane
  {
    Absorb16Is(key, lane, s);
    WordOfBlank(key, 16, 0);
    WordOfBlank(key, 16, 8);
    PassRight(0, lane);
    XorLaws(lane, 0);
  }

  lemma Blank48(key: seq<Byte>, x: Seeds, s: Word)
    requires Blank(key, 48)
    ensures Absorb48(key[..48], x, Passing(s)) == x
  {
    Absorb48Is(key, x, s);
    WordOfBlank(key, 48, 0);
    WordOfBlank(key, 48, 8);
    WordOfBlank(key, 48, 16);
    WordOfBlank(key, 48, 24);
    WordOfBlank(key, 48, 32);
    WordOfBlank(key, 48, 40);
    PassRight(0, x.main);
    PassRight(0, x.one);
    PassRight(0, x.two);
    XorLaws(x.main, 0);
    XorLaws(x.one, 0);
    XorLaws(x.two, 0);
  }

  lemma {:induction false} Blocks16Blank(key: seq<Byte>, lane: Word, s: Word)
    requires Blank(key, End16(|key|))
    ensures Blocks16(key, lane, Passing(s)) == lane
  {
    if |key| > 16 {
      Blank16(key, lane, s);
      Blocks16Blank(key[16..], lane, s);
    }
  }

  lemma {:induction false} Blocks48Blank(key: seq<Byte>, x: Seeds, s: Word)
    requires Blank(key, End48(|key|))
    ensures Blocks48(key, x, Passing(s)) == x
  {
    if |key| > 48 {
      Blank48(key, x, s);
      Blocks48Blank(key[48..], x, s);
    }
  }

  /** Where the loops end in a key of n bytes. */
  ghost function End(n: nat): (q: nat)
    ensures q <= n && n - q <= 16 && (n > 0 ==> q < n)
  {
    End48(n) + End16(n - End48(n))
  }

  lemma JoinedSame(s: Word, w: Word)
    ensures Joined(Seeds(w, s, s)) == w && Joined(Seeds(s, w, s)) == w && Joined(Seeds(s, s, w)) == w
  {
    XorLaws(s, w);
    XorLaws(w, s);
    XorLaws(s, s);
  }

  /** The state after both loops, with no exception for keys of at most 48 bytes. */
  lemma LongSeedIs(key: seq<Byte>, s: Word, joined: Word, r: Word)
    requires Joined(Blocks48(key, Seeds(s, s, s), Passing(s))) == joined
    requires Blocks16(key[End48(|key|)..], joined, Passing(s)) == r
    ensures LongSeed(key, s, Passing(s)) == r
  {
    After48Is(key);
    JoinedSame(s, s);
    assert key[0..] == key;
  }

  lemma JoinedBlank(key: seq<Byte>, s: Word)
    requires Blank(key, End48(|key|))
    ensures Joined(Blocks48(key, Seeds(s, s, s), Passing(s))) == s
  {
    Blocks48Blank(key, Seeds(s, s, s), s);
    JoinedSame(s, s);
  }

  lemma BlankSplit(key: seq<Byte>, k: nat, q: nat)
    requires Blank(key, k) && q <= k
    ensures Blank(key, q) && Blank(key[q..], k - q)
  {
  }

  /** Blocks of zeros leave the state as it was. */
  lemma LongSeedBlank(key: seq<Byte>, s: Word)
    requires Blank(key, End(|key|))
    ensures LongSeed(key, s, Passing(s)) == s
  {
    var q := End48(|key|);
    BlankSplit(key, End(|key|), q);
    JoinedBlank(key, s);
    Blocks16Blank(key[q..], s, s);
    LongSeedIs(key, s, s, s);
  }

  // ---------- a block with one byte ----------

  /** The bytes of a block whose word is joined with the state rather than with the secret. */
  ghost predicate Right(p: nat)
  {
    p % 16 >= 8
  }

  /** Byte p adds w to its word, and a state s takes it up: in a right word any, in a left word 1. */
  ghost predicate TakenUp(p: nat, s: Word, w: Word)
  {
    (Right(p) || s == 1) && w == Pow2(8 * (p % 8))
  }

  lemma SixteenLess(p: nat)
    requires p >= 16
    ensures (p - 16) % 16 == p % 16 && (p - 16) % 8 == p % 8
  {
    ModUnique(p - 16, 16, p / 16 - 1, p % 16);
    ModUnique(p - 16, 8, p / 8 - 2, p % 8);
  }

  lemma TakenUpLess(p: nat, s: Word, w: Word, k: nat)
    requires TakenUp(p, s, w) && k <= p && (k == 16 || k == 32 || k == 48)
    ensures TakenUp(p - k, s, w)
  {
    SixteenLess(p);
    if k > 16 {
      SixteenLess(p - 16);
    }
    if k > 32 {
      SixteenLess(p - 32);
    }
  }

  /** A pair of words with byte p. */
  lemma PassPair(p: nat, s: Word, w: Word)
    requires p < 16 && TakenUp(p, s, w)
    ensures Part(0, p) < TWO64 && Part(8, p) < TWO64 && PassWord(Part(0, p), Part(8, p), s) == XorWord(w, s)
  {
    ModUnique(p, 16, 0, p);
    if p >= 8 {
      ModUnique(p, 8, 1, p - 8);
      PassRight(w, s);
    } else {
      ModUnique(p, 8, 0, p);
      PassLeft(w);
    }
  }

  /** The pair of words at x is as that at 0 with the byte so much nearer, and as blank if the byte is elsewhere. */
  lemma PassAt(x: nat, p: nat, s: Word, w: Word)
    requires (x == 0 || x == 16 || x == 32) && TakenUp(p, s, w)
    ensures Part(x, p) < TWO64 && Part(x + 8, p) < TWO64
    ensures PassWord(Part(x, p), Part(x + 8, p), s) == if x <= p < x + 16 then XorWord(w, s) else s
  {
    if x <= p < x + 16 {
      if x > 0 {
        TakenUpLess(p, s, w, x);
      }
      PassPair(p - x, s, w);
      assert Part(x, p) == Part(0, p - x) && Part(x + 8, p) == Part(8, p - x);
    } else {
      PassRight(0, s);
      XorLaws(s, 0);
    }
  }

  lemma Single16(key: seq<Byte>, p: nat, s: Word, w: Word)
    requires p < 16 && Single(key, 16, p) && TakenUp(p, s, w)
    ensures Absorb16(key[..16], s, Passing(s)) == XorWord(w, s)
  {
    Absorb16Is(key, s, s);
    WordOfSingle(key, 16, p, 0);
    WordOfSingle(key, 16, p, 8);
    PassAt(0, p, s, w);
  }

  /** One of three lanes that were all s has become r. */
  ghost predicate OneLane(x: Seeds, s: Word, r: Word)
  {
    x == Seeds(r, s, s) || x == Seeds(s, r, s) || x == Seeds(s, s, r)
  }

  lemma Single48(key: seq<Byte>, p: nat, s: Word, w: Word)
    requires p < 48 && Single(key, 48, p) && TakenUp(p, s, w)
    ensures OneLane(Absorb48(key[..48], Seeds(s, s, s), Passing(s)), s, XorWord(w, s))
  {
    Absorb48Is(key, Seeds(s, s, s), s);
    LaneOf(key, p, 0, s, w);
    LaneOf(key, p, 16, s, w);
    LaneOf(key, p, 32, s, w);
  }

  /** The lane of the two words at x takes the byte up, if they have it. */
  lemma LaneOf(key: seq<Byte>, p: nat, x: nat, s: Word, w: Word)
    requires p < 48 && Single(key, 48, p) && TakenUp(p, s, w) && (x == 0 || x == 16 || x == 32)
    ensures PassWord(Little8(key[x..x + 8]), Little8(key[x + 8..x + 16]), s)
         == if x <= p < x + 16 then XorWord(w, s) else s
  {
    WordOfSingle(key, 48, p, x);
    WordOfSingle(key, 48, p, x + 8);
    PassAt(x, p, s, w);
  }

  lemma {:induction false} Blocks16Single(key: seq<Byte>, p: nat, s: Word, w: Word)
    requires p < End16(|key|) && Single(key, End16(|key|), p) && TakenUp(p, s, w)
    ensures Blocks16(key, s, Passing(s)) == XorWord(w, s)
  {
    if p < 16 {
      Single16(key, p, s, w);
      Blocks16Blank(key[16..], XorWord(w, s), s);
    } else {
      Blank16(key, s, s);
      TakenUpLess(p, s, w, 16);
      Blocks16Single(key[16..], p - 16, s, w);
    }
  }

  lemma {:induction false} Blocks48Single(key: seq<Byte>, p: nat, s: Word, w: Word)
    requires p < End48(|key|) && Single(key, End48(|key|), p) && TakenUp(p, s, w)
    ensures OneLane(Blocks48(key, Seeds(s, s, s), Passing(s)), s, XorWord(w, s))
  {
    if p < 48 {
      Single48(key, p, s, w);
      Blocks48Blank(key[48..], Absorb48(key[..48], Seeds(s, s, s), Passing(s)), s);
    } else {
      Blank48(key, Seeds(s, s, s), s);
      TakenUpLess(p, s, w, 48);
      Blocks48Single(key[48..], p - 48, s, w);
    }
  }

  lemma {:induction false} End48Aligned(n: nat, p: nat, s: Word, w: Word)
    requires End48(n) <= p && TakenUp(p, s, w)
    ensures TakenUp(p - End48(n), s, w)
    decreases n
  {
    if n > 48 {
      TakenUpLess(p, s, w, 48);
      End48Aligned(n - 48, p - 48, s, w);
    }
  }

  /** What Single says of the part of the key before q and of that from q on. */
  lemma SingleBefore(key: seq<Byte>, k: nat, p: nat, q: nat)
    requires Single(key, k, p) && q <= k
    ensures if p < q then Single(key, q, p) else Blank(key, q)
  {
  }

  lemma SingleAfter(key: seq<Byte>, k: nat, p: nat, q: nat)
    requires Single(key, k, p) && q <= k
    ensures if p < q then Blank(key[q..], k - q) else Single(key[q..], k - q, p - q)
  {
  }

  lemma JoinedSingle(key: seq<Byte>, p: nat, s: Word, w: Word)
    requires p < End48(|key|) && Single(key, End48(|key|), p) && TakenUp(p, s, w)
    ensures Joined(Blocks48(key, Seeds(s, s, s), Passing(s))) == XorWord(w, s)
  {
    Blocks48Single(key, p, s, w);
    JoinedSame(s, XorWord(w, s));
  }

  lemma TailSingle(key: seq<Byte>, q: nat, p: nat, s: Word, w: Word)
    requires q == End48(|key|) <= p && p - q < End16(|key| - q) && Single(key[q..], End16(|key| - q), p - q)
    requires TakenUp(p, s, w)
    ensures Blocks16(key[q..], s, Passing(s)) == XorWord(w, s)
  {
    End48Aligned(|key|, p, s, w);
    Blocks16Single(key[q..], p - q, s, w);
  }

  /** A byte in a right word, or one in any word when the state is 1, ends up in the state. */
  lemma LongSeedSingle(key: seq<Byte>, p: nat, s: Word, w: Word)
    requires p < End(|key|) && Single(key, End(|key|), p) && TakenUp(p, s, w)
    ensures LongSeed(key, s, Passing(s)) == XorWord(w, s)
  {
    var q := End48(|key|);
    SingleBefore(key, End(|key|), p, q);
    SingleAfter(key, End(|key|), p, q);
    var r := XorWord(w, s);
    if p < q {
      JoinedSingle(key, p, s, w);
      Blocks16Blank(key[q..], r, s);
      LongSeedIs(key, s, r, r);
    } else {
      JoinedBlank(key, s);
      TailSingle(key, q, p, s, w);
      LongSeedIs(key, s, s, r);
    }
  }

  // ---------- a last block that wipes the state out ----------

  /** A block whose right word equals the state. */
  lemma Wiped16(key: seq<Byte>, s: Word)
    requires |key| >= 16 && Little8(key[8..16]) == s
    ensures Absorb16(key[..16], s, Passing(s)) == 0
  {
    Absorb16Is(key, s, s);
    PassBlocked(Little8(key[0..8]), s);
  }

  lemma Wiped48(key: seq<Byte>, s: Word)
    requires Blank(key, 32) && |key| >= 48 && Little8(key[40..48]) == s
    ensures Absorb48(key[..48], Seeds(s, s, s), Passing(s)) == Seeds(s, s, 0)
  {
    Absorb48Is(key, Seeds(s, s, s), s);
    WordOfBlank(key, 32, 0);
    WordOfBlank(key, 32, 8);
    WordOfBlank(key, 32, 16);
    WordOfBlank(key, 32, 24);
    PassRight(0, s);
    XorLaws(s, 0);
    PassBlocked(Little8(key[32..40]), s);
  }

  /** The bytes before the last 16 of q are zero, and the last 8 of q are the word s. */
  ghost predicate EndsIn(key: seq<Byte>, q: nat, s: Word)
  {
    16 <= q <= |key| && Blank(key, q - 16) && Little8(key[q - 8..q]) == s
  }

  lemma EndsInLater(key: seq<Byte>, q: nat, s: Word, k: nat)
    requires EndsIn(key, q, s) && k + 16 <= q
    ensures EndsIn(key[k..], q - k, s)
  {
    assert key[k..][q - k - 8..q - k] == key[q - 8..q];
  }

  lemma {:induction false} Blocks16Wiped(key: seq<Byte>, s: Word)
    requires EndsIn(key, End16(|key|), s)
    ensures Blocks16(key, s, Passing(s)) == 0
  {
    if |key| <= 32 {
      assert End16(|key|) == 16;
      Wiped16(key, s);
      assert Blocks16(key[16..], 0, Passing(s)) == 0;
    } else {
      assert End16(|key| - 16) >= 16;
      Blank16(key, s, s);
      EndsInLater(key, End16(|key|), s, 16);
      Blocks16Wiped(key[16..], s);
    }
  }

  lemma {:induction false} Blocks48Wiped(key: seq<Byte>, s: Word)
    requires EndsIn(key, End48(|key|), s)
    ensures Blocks48(key, Seeds(s, s, s), Passing(s)) == Seeds(s, s, 0)
  {
    if |key| <= 96 {
      assert End48(|key|) == 48;
      Wiped48(key, s);
      assert Blocks48(key[48..], Seeds(s, s, 0), Passing(s)) == Seeds(s, s, 0);
    } else {
      assert End48(|key| - 48) >= 48;
      Blank48(key, Seeds(s, s, s), s);
      EndsInLater(key, End48(|key|), s, 48);
      Blocks48Wiped(key[48..], s);
    }
  }

  lemma LongSeedWiped(key: seq<Byte>, s: Word)
    requires EndsIn(key, End(|key|), s)
    ensures LongSeed(key, s, Passing(s)) == 0
  {
    if |key| - End48(|key|) <= 16 {
      Blocks48Wiped(key, s);
      JoinedSame(s, 0);
      LongSeedIs(key, s, 0, 0);
    } else {
      JoinedBlank(key, s);
      WipedLast(key, s);
      LongSeedIs(key, s, s, 0);
    }
  }

  lemma WipedLast(key: seq<Byte>, s: Word)
    requires |key| > End48(|key|) + 16 && EndsIn(key, End(|key|), s)
    ensures Blocks16(key[End48(|key|)..], s, Passing(s)) == 0
  {
    EndsInLater(key, End(|key|), s, End48(|key|));
    Blocks16Wiped(key[End48(|key|)..], s);
  }

  // ---------- keys of more than 16 bytes ----------

  lemma {:induction false} End48Multiple(n: nat)
    ensures End48(n) % 16 == 0
  {
    if n > 48 {
      End48Multiple(n - 48);
      ModUnique(End48(n), 16, End48(n - 48) / 16 + 3, 0);
    }
  }

  lemma {:induction false} End16Multiple(n: nat)
    ensures End16(n) % 16 == 0
  {
    if n > 16 {
      End16Multiple(n - 16);
      ModUnique(End16(n), 16, End16(n - 16) / 16 + 1, 0);
    }
  }

  lemma EndMultiple(n: nat)
    ensures End(n) % 16 == 0
  {
    End48Multiple(n);
    End16Multiple(n - End48(n));
    ModUnique(End(n), 16, End48(n) / 16 + End16(n - End48(n)) / 16, 0);
  }

  /** A byte that is in a block and in the last word is at different places in the two. */
  lemma PlacesDiffer(n: nat, p: nat)
    requires n > 16 && n - 8 <= p < End(n)
    ensures p % 8 != p - (n - 8)
  {
    EndMultiple(n);
    assert End(n) == End(n) / 16 * 16 && p == p / 8 * 8 + p % 8;
  }

  lemma LongHash(key: seq<Byte>, seed: Word, s: Word)
    requires 16 < |key| < TWO64
    ensures var n := |key|;
            HashOf(key, seed, Passing(s))
            == Finish(Little8(key[n - 16..n - 8]), Little8(key[n - 8..n]), n, LongSeed(key, s, Passing(s)), Passing(s))
  {
    StartIs(seed, s);
    assert key[|key| - 8..] == key[|key| - 8..|key|];
  }

  lemma ZerosHash(n: Word, seed: Word, s: Word)
    requires n > 16
    ensures HashOf(Zeros(n), seed, Passing(s)) == n
  {
    LongHash(Zeros(n), seed, s);
    WordOfBlank(Zeros(n), n, n - 16);
    WordOfBlank(Zeros(n), n, n - 8);
    LongSeedBlank(Zeros(n), s);
    ZerosEnd(n, s);
  }

  /** What byte p adds to the word of the block it is in, if it is in one. */
  ghost function BlockPart(n: nat, p: nat): (w: nat)
    ensures w != 0 <==> p < End(n)
  {
    if p < End(n) then Pow2(8 * (p % 8)) else 0
  }

  lemma PartFits(x: nat, p: nat)
    ensures Part(x, p) < TWO64
  {
    Pow64();
    if x <= p < x + 8 {
      Pow2Below(8 * (p - x), 64);
    }
  }

  lemma ByteFits(p: nat)
    ensures Pow2(8 * (p % 8)) < TWO64
  {
    Pow64();
    Pow2Below(8 * (p % 8), 64);
  }

  lemma BlockPartFits(n: nat, p: nat)
    ensures BlockPart(n, p) < TWO64
  {
    ByteFits(p);
  }

  lemma PowersDiffer(a: nat, b: nat)
    requires a != b
    ensures Pow2(8 * a) != Pow2(8 * b)
  {
    if a < b { Pow2Below(8 * a, 8 * b); } else { Pow2Below(8 * b, 8 * a); }
  }

  /** The byte's share in its block's word and in the last word are never the same, unless it is in neither. */
  lemma SharesDiffer(n: nat, p: nat)
    requires 16 < n && p < n && (p < End(n) || n - 8 <= p)
    ensures BlockPart(n, p) != Part(n - 8, p)
  {
    if p < End(n) && n - 8 <= p {
      PlacesDiffer(n, p);
      PowersDiffer(p % 8, p - (n - 8));
    }
  }

  /** The hash of a key of zeros but for one, where the state takes that byte up. */
  lemma OneByteHash(n: Word, p: nat, seed: Word, s: Word, a: Word, b: Word, w: Word)
    requires p < n && n > 16 && a == Part(n - 16, p) && b == Part(n - 8, p) && w == BlockPart(n, p)
    requires p >= End(n) || Right(p) || s == 1
    ensures HashOf(OneByte(n, p), seed, Passing(s)) == Finish(a, b, n, XorWord(w, s), Passing(s))
  {
    var key := OneByte(n, p);
    LongHash(key, seed, s);
    WordOfSingle(key, n, p, n - 16);
    WordOfSingle(key, n, p, n - 8);
    if p < End(n) {
      LongSeedSingle(key, p, s, w);
    } else {
      LongSeedBlank(key, s);
      XorLaws(s, 0);
    }
  }

  /** A byte that is in a right word of a block, or in none. */
  lemma RightCounts(n: Word, p: nat, seed: Word) returns (s: Word)
    requires p < n && n > 16 && (p >= End(n) || Right(p))
    ensures HashOf(Zeros(n), seed, Passing(s)) != HashOf(OneByte(n, p), seed, Passing(s))
  {
    PartFits(n - 16, p);
    PartFits(n - 8, p);
    BlockPartFits(n, p);
    var a, b, w: Word := Part(n - 16, p), Part(n - 8, p), BlockPart(n, p);
    s := if p < End(n) || n - 8 <= p then XorWord(w, b) else 1;
    ZerosHash(n, seed, s);
    OneByteHash(n, p, seed, s, a, b, w);
    if p < End(n) || n - 8 <= p {
      SharesDiffer(n, p);
      XorNonzero(w, b);
      XorLaws(b, w);
      FinishZero(a, b, n, s);
      XorDiffers(s, n);
    } else {
      XorLaws(1, 0);
      EndDiffers(a, b, n);
    }
  }

  /** A byte that is in a left word of a block, and not in the first of the two words at the end. */
  lemma LeftCounts(n: Word, p: nat, seed: Word) returns (s: Word)
    requires p < n && n > 16 && p < End(n) && !(n - 16 <= p < n - 8)
    ensures HashOf(Zeros(n), seed, Passing(s)) != HashOf(OneByte(n, p), seed, Passing(s))
  {
    PartFits(n - 8, p);
    BlockPartFits(n, p);
    var b, w: Word := Part(n - 8, p), BlockPart(n, p);
    s := 1;
    ZerosHash(n, seed, s);
    OneByteHash(n, p, seed, s, 0, b, w);
    FinishOne(b, n, XorWord(w, 1), 1);
    XorRegroup(b, w, 1);
    XorLaws(XorWord(b, w), 1);
    SharesDiffer(n, p);
    XorNonzero(b, w);
    XorDiffers(XorWord(b, w), n);
  }

  // ---------- a byte in the left word of the last block and in the first of the last two words ----------

  /** The key of zeros but for a 1 in front of its last 7 bytes, and byte p. */
  function TwoBytes(n: nat, p: nat, d: Byte): (key: seq<Byte>)
    requires p < n - 8
    ensures |key| == n
  {
    Zeros(n)[n - 8 := 1][p := d]
  }

  lemma TwoBytesEnds(n: nat, p: nat, d: Byte, s: Word)
    requires n > 16 && n - 16 <= p < n - 8 && p < End(n) && !Right(p) && s == Pow2(8 * ((n - 8) % 8))
    ensures EndsIn(TwoBytes(n, p, d), End(n), s)
  {
    EndMultiple(n);
    var q, key := End(n), TwoBytes(n, p, d);
    LastLeft(n, p, q);
    var word := key[q - 8..q];
    assert Single(word, 8, n - 8 - (q - 8));
    LittleSingle(word, n - 8 - (q - 8));
  }

  /** Such a byte is in the left word of the last block, and the last word begins in the right word of it. */
  lemma LastLeft(n: nat, p: nat, q: nat)
    requires q % 16 == 0 && n - 16 <= p < n - 8 && p < q < n <= q + 16 && p % 16 < 8
    ensures q >= 16 && q - 16 <= p < q - 8 <= n - 8 < q && (n - 8) % 8 == n - 8 - (q - 8)
  {
    assert q == q / 16 * 16 && p == p / 16 * 16 + p % 16;
    ModUnique(n - 8, 8, q / 16 * 2 - 1, n - q);
  }

  /** Neither the state nor the last word depends on byte p. */
  lemma TwoBytesHash(n: Word, p: nat, d: Byte, seed: Word, s: Word)
    requires n > 16 && n - 16 <= p < n - 8 && p < End(n) && !Right(p) && s == Pow2(8 * ((n - 8) % 8))
    ensures var a := Little8(TwoBytes(n, p, d)[n - 16..n - 8]);
            HashOf(TwoBytes(n, p, d), seed, Passing(s)) == XorWord(XorWord(XorWord(a, 1), s), n)
  {
    var key := TwoBytes(n, p, d);
    LongHash(key, seed, s);
    TwoBytesEnds(n, p, d, s);
    LongSeedWiped(key, s);
    assert Single(key[n - 8..n], 8, 0);
    LittleSingle(key[n - 8..n], 0);
    XorLaws(1, 0);
    FinishLast(Little8(key[n - 16..n - 8]), 1, n, 0, s);
  }

  lemma WordsDiffer(n: nat, p: nat)
    requires n > 16 && n - 16 <= p < n - 8
    ensures Little8(TwoBytes(n, p, 0)[n - 16..n - 8]) != Little8(TwoBytes(n, p, 1)[n - 16..n - 8])
  {
    var x, y := TwoBytes(n, p, 0)[n - 16..n - 8], TwoBytes(n, p, 1)[n - 16..n - 8];
    assert x[p - (n - 16)] != y[p - (n - 16)];
    if Little(x) == Little(y) {
      LittleInjective(x, y);
    }
  }

  lemma LastLeftCounts(n: Word, p: nat, seed: Word) returns (s: Word)
    requires n > 16 && n - 16 <= p < n - 8 && p < End(n) && !Right(p)
    ensures HashOf(TwoBytes(n, p, 0), seed, Passing(s)) != HashOf(TwoBytes(n, p, 1), seed, Passing(s))
  {
    ByteFits(n - 8);
    s := Pow2(8 * ((n - 8) % 8));
    TwoBytesHash(n, p, 0, seed, s);
    TwoBytesHash(n, p, 1, seed, s);
    WordsDiffer(n, p);
    TailInjective(Little8(TwoBytes(n, p, 0)[n - 16..n - 8]), Little8(TwoBytes(n, p, 1)[n - 16..n - 8]), s, n);
  }

  lemma TailInjective(a: Word, b: Word, s: Word, n: Word)
    requires a != b
    ensures XorWord(XorWord(XorWord(a, 1), s), n) != XorWord(XorWord(XorWord(b, 1), s), n)
  {
    XorLaws(XorWord(XorWord(a, 1), s), n);
    XorLaws(XorWord(XorWord(b, 1), s), n);
    XorLaws(XorWord(a, 1), s);
    XorLaws(XorWord(b, 1), s);
    XorLaws(a, 1);
    XorLaws(b, 1);
  }

  // ---------- the theorem ----------

  /** Two keys of n bytes that differ at most at p. */
  ghost predicate DifferAt(key: seq<Byte>, other: seq<Byte>, n: nat, p: nat)
  {
    |key| == |other| == n && forall j :: 0 <= j < n && j != p ==> key[j] == other[j]
  }

  /**
   No byte of a key of any length is without influence: for some secret there are two keys that differ
   in that byte only and whose hashes differ, whatever the seed.
   */
  lemma EveryByteCounts(n: Word, p: nat, seed: Word) returns (secret: Secret, key: seq<Byte>, other: seq<Byte>)
    requires p < n
    ensures DifferAt(key, other, n, p) && HashOf(key, seed, secret) != HashOf(other, seed, secret)
  {
    var s;
    key, other := Zeros(n), OneByte(n, p);
    if n <= 16 {
      s := ShortCounts(n, p, seed);
    } else if p >= End(n) || Right(p) {
      s := RightCounts(n, p, seed);
    } else if !(n - 16 <= p < n - 8) {
      s := LeftCounts(n, p, seed);
    } else {
      s := LastLeftCounts(n, p, seed);
      key, other := TwoBytes(n, p, 0), TwoBytes(n, p, 1);
    }
    secret := Passing(s);
  }

  // ---------- the words of the secret ----------

  /** The secret of which word i stops what it is joined with. */
  function Stopping(s: Word, i: nat): Secret
    requires i < 4
  {
    Passing(s)[i := 0]
  }

  lemma LanesOfBlank(key: seq<Byte>, x: Seeds, secret: Secret)
    requires Blank(key, 48)
    ensures Absorb48(key[..48], x, secret) == Seeds(Mix(secret[1], x.main), Mix(secret[2], x.one), Mix(secret[3], x.two))
  {
    assert key[..48] == key[0..48];
    Slices(key, 0);
    LittleBlank(key[0..8]);
    LittleBlank(key[8..16]);
    LittleBlank(key[16..24]);
    LittleBlank(key[24..32]);
    LittleBlank(key[32..40]);
    LittleBlank(key[40..48]);
    XorLaws(secret[1], 0);
    XorLaws(secret[2], 0);
    XorLaws(secret[3], 0);
    XorLaws(x.main, 0);
    XorLaws(x.one, 0);
    XorLaws(x.two, 0);
  }

  lemma {:induction false} Blocks48Stopped(key: seq<Byte>, x: Seeds, s: Word, i: nat)
    requires |key| > 48 && Blank(key, |key|) && (i == 2 || i == 3)
    ensures Blocks48(key, x, Stopping(s, i)) == if i == 2 then x.(one := 0) else x.(two := 0)
  {
    var y := Absorb48(key[..48], x, Stopping(s, i));
    LanesOfBlank(key, x, Stopping(s, i));
    MixOfOne(x.main);
    MixOfOne(x.one);
    MixOfOne(x.two);
    MixOfZero(x.one);
    MixOfZero(x.two);
    assert y == if i == 2 then x.(one := 0) else x.(two := 0);
    if |key| > 96 {
      Blocks48Stopped(key[48..], y, s, i);
    } else {
      assert Blocks48(key[48..], y, Stopping(s, i)) == y;
    }
  }

  /** Of the secret the loop over blocks of 16 uses word 1 only. */
  lemma {:induction false} Blocks16Same(key: seq<Byte>, lane: Word, secret: Secret, other: Secret)
    requires secret[1] == other[1]
    ensures Blocks16(key, lane, secret) == Blocks16(key, lane, other)
  {
    if |key| > 16 {
      Blocks16Same(key[16..], Absorb16(key[..16], lane, secret), secret, other);
    }
  }

  lemma LongSeedStopped(key: seq<Byte>, s: Word, i: nat)
    requires |key| > 48 && Blank(key, |key|) && (i == 2 || i == 3)
    ensures LongSeed(key, s, Stopping(s, i)) == 0
  {
    After48Is(key);
    Blocks48Stopped(key, Seeds(s, s, s), s, i);
    JoinedSame(s, 0);
    Blocks16Same(After48(key), 0, Stopping(s, i), Passing(s));
    Blocks16Blank(After48(key), 0, s);
  }

  /** The words at the end of a key of zeros. */
  lemma ZerosWords(n: Word, seed: Word, secret: Secret) returns (state: Word)
    ensures HashOf(Zeros(n), seed, secret) == Finish(0, 0, n, state, secret)
    ensures n > 48 ==>
              state == LongSeed(Zeros(n), XorWord(seed, Mix(XorWord(seed, secret[0]), secret[1])), secret)
  {
    var start := XorWord(seed, Mix(XorWord(seed, secret[0]), secret[1]));
    var key := Zeros(n);
    if n <= 16 {
      state := start;
      ZerosShort(n);
    } else {
      state := LongSeed(key, start, secret);
      assert key[n - 8..] == key[n - 8..n];
      WordOfBlank(key, n, n - 16);
      WordOfBlank(key, n, n - 8);
    }
  }

  /** Word 1 of the secret counts for every key but the empty one, words 2 and 3 for all keys that reach the lanes. */
  lemma SecretWordsCount(n: Word, i: nat, seed: Word)
    requires 0 < n && (i == 1 || (n > 48 && (i == 2 || i == 3)))
    ensures HashOf(Zeros(n), seed, Passing(1)) != HashOf(Zeros(n), seed, Stopping(1, i))
  {
    ZerosPass(n, seed);
    var state := ZerosWords(n, seed, Stopping(1, i));
    if i == 1 {
      FinishStopped(n, state);
    } else {
      StartIs(seed, 1);
      LongSeedStopped(Zeros(n), 1, i);
      FinishOne(0, n, 0, 1);
      XorLaws(0, 0);
      XorLaws(1, 0);
      XorDiffers(1, n);
    }
  }

  lemma ZerosPass(n: Word, seed: Word)
    ensures HashOf(Zeros(n), seed, Passing(1)) == n
  {
    if n <= 16 {
      StartIs(seed, 1);
      ZerosShort(n);
      ZerosEnd(n, 1);
    } else {
      ZerosHash(n, seed, 1);
    }
  }

  lemma FinishStopped(n: Word, state: Word)
    ensures Finish(0, 0, n, state, Stopping(1, 1)) == 0
  {
    XorLaws(0, 0);
    ProductOne(1, 0);
    var b := XorWord(0, state);
    assert Low(0, b) == 0 && High(0, b) == 0 by { assert 0 * b == 0; }
    var r := XorWord(XorWord(0, 1), n);
    MixCommutes(r, 0);
    MixOfZero(r);
  }
}
