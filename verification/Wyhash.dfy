/** The hash function of libfh/wyhash.h, on a little-endian machine. */
module Wyhash {
  import opened Words
  import opened Mum

  type Byte = b: nat | b < 256

  // ---------- what is computed ----------

  /** The number whose bytes these are, lowest first. */
  function Little(s: seq<Byte>): nat
  {
    if s == [] then 0 else s[0] + 256 * Little(s[1..])
  }

  lemma {:induction false} LittleFits(s: seq<Byte>, n: nat)
    requires |s| == n
    ensures Little(s) < Pow2(8 * n)
  {
    if s != [] {
      LittleFits(s[1..], n - 1);
      assert Pow2(8) == 256;
      Pow2Add(8, 8 * (n - 1));
    }
  }

  function Little4(s: seq<Byte>): (v: Word)
    requires |s| == 4
    ensures v == Little(s) < TWO32
  {
    Little4Fits(s);
    Little(s)
  }

  function Little8(s: seq<Byte>): (v: Word)
    requires |s| == 8
    ensures v == Little(s)
  {
    Little8Fits(s);
    Little(s)
  }

  lemma Little4Fits(s: seq<Byte>)
    requires |s| == 4
    ensures Little(s) < TWO32
  {
    LittleFits(s, 4);
    Pow32();
  }

  lemma Little8Fits(s: seq<Byte>)
    requires |s| == 8
    ensures Little(s) < TWO64
  {
    LittleFits(s, 8);
    Pow64();
  }

  /** How far into a key of n bytes the second read of four bytes goes. */
  function Inner(n: nat): (q: nat)
    requires 4 <= n <= 16
    ensures q == if n < 8 then 0 else if n < 16 then 4 else 8
  {
    n / 8 * 4
  }

  /** Two half words side by side. */
  function Pair(high: nat, low: nat): Word
    requires high < TWO32 && low < TWO32
  {
    high * TWO32 + low
  }

  /** The two words made of a key of at most 16 bytes. */
  function ShortWords(key: seq<Byte>): (Word, Word)
    requires |key| <= 16
  {
    var n := |key|;
    if n >= 4 then
      var q := Inner(n);
      (Pair(Little4(key[0..4]), Little4(key[q..q + 4])), Pair(Little4(key[n - 4..n]), Little4(key[n - 4 - q..n - q])))
    else if n > 0 then (key[0] as nat * 0x1_0000 + key[n / 2] as nat * 0x100 + key[n - 1] as nat, 0)
    else (0, 0)
  }

  /** Three words that are mixed side by side. */
  datatype Seeds = Seeds(main: Word, one: Word, two: Word)

  type Secret = s: seq<Word> | |s| == 4 witness [0, 0, 0, 0]

  function Absorb48(block: seq<Byte>, x: Seeds, secret: Secret): Seeds
    requires |block| == 48
  {
    Seeds(Mix(XorWord(Little8(block[..8]), secret[1]), XorWord(Little8(block[8..16]), x.main)),
          Mix(XorWord(Little8(block[16..24]), secret[2]), XorWord(Little8(block[24..32]), x.one)),
          Mix(XorWord(Little8(block[32..40]), secret[3]), XorWord(Little8(block[40..]), x.two)))
  }

  function Absorb16(block: seq<Byte>, seed: Word, secret: Secret): Word
    requires |block| == 16
  {
    Mix(XorWord(Little8(block[..8]), secret[1]), XorWord(Little8(block[8..]), seed))
  }

  /** All of the key but its last 1 to 48 bytes, in blocks of 48. */
  function Blocks48(key: seq<Byte>, x: Seeds, secret: Secret): Seeds
  {
    if |key| <= 48 then x else Blocks48(key[48..], Absorb48(key[..48], x, secret), secret)
  }

  function After48(key: seq<Byte>): seq<Byte>
  {
    if |key| <= 48 then key else After48(key[48..])
  }

  /** What is left of it but its last 1 to 16 bytes, in blocks of 16. */
  function Blocks16(key: seq<Byte>, seed: Word, secret: Secret): Word
  {
    if |key| <= 16 then seed else Blocks16(key[16..], Absorb16(key[..16], seed, secret), secret)
  }

  function Joined(x: Seeds): Word
  {
    XorWord(x.main, XorWord(x.one, x.two))
  }

  /** The state after all blocks; a key of at most 48 bytes does not use the side words. */
  function LongSeed(key: seq<Byte>, seed: Word, secret: Secret): Word
  {
    if |key| > 48 then Blocks16(After48(key), Joined(Blocks48(key, Seeds(seed, seed, seed), secret)), secret)
    else Blocks16(key, seed, secret)
  }

  function Finish(a: Word, b: Word, length: Word, seed: Word, secret: Secret): Word
  {
    var a', b' := XorWord(a, secret[1]), XorWord(b, seed);
    Mix(XorWord(XorWord(Low(a', b'), secret[0]), length), XorWord(High(a', b'), secret[1]))
  }

  /** wyhash. A long key ends with its last 16 bytes whatever the blocks have left of it. */
  function HashOf(key: seq<Byte>, seed: Word, secret: Secret): Word
    requires |key| < TWO64
  {
    var start := XorWord(seed, Mix(XorWord(seed, secret[0]), secret[1]));
    var n := |key|;
    if n <= 16 then
      var (a, b) := ShortWords(key);
      Finish(a, b, n, start, secret)
    else
      Finish(Little8(key[n - 16..n - 8]), Little8(key[n - 8..]), n, LongSeed(key, start, secret), secret)
  }

  // ---------- short keys ----------

  lemma {:induction false} LittleInjective(s: seq<Byte>, t: seq<Byte>)
    requires |s| == |t| && Little(s) == Little(t)
    ensures s == t
  {
    if s != [] {
      assert s[0] == t[0];
      LittleInjective(s[1..], t[1..]);
      assert s == [s[0]] + s[1..] && t == [t[0]] + t[1..];
    }
  }

  /** Four bytes of two keys are the same. */
  ghost predicate SamePart(s: seq<Byte>, t: seq<Byte>, p: nat)
    requires |s| == |t| && p + 4 <= |s|
  {
    forall i :: p <= i < p + 4 ==> s[i] == t[i]
  }

  lemma PartEqual(s: seq<Byte>, t: seq<Byte>, p: nat)
    requires |s| == |t| && p + 4 <= |s| && Little(s[p..p + 4]) == Little(t[p..p + 4])
    ensures SamePart(s, t, p)
  {
    LittleInjective(s[p..p + 4], t[p..p + 4]);
    forall i | p <= i < p + 4 ensures s[i] == t[i] {
      assert s[p..p + 4][i - p] == t[p..p + 4][i - p];
    }
  }

  lemma PairInjective(a: nat, b: nat, c: nat, d: nat)
    requires a < TWO32 && b < TWO32 && c < TWO32 && d < TWO32 && Pair(a, b) == Pair(c, d)
    ensures a == c && b == d
  {
  }

  /** Equal pairs of four bytes each are equal byte by byte. */
  lemma PartsEqual(s: seq<Byte>, t: seq<Byte>, p: nat, q: nat)
    requires |s| == |t| && p + 4 <= |s| && q + 4 <= |s|
    requires Pair(Little4(s[p..p + 4]), Little4(s[q..q + 4])) == Pair(Little4(t[p..p + 4]), Little4(t[q..q + 4]))
    ensures SamePart(s, t, p) && SamePart(s, t, q)
  {
    PairInjective(Little4(s[p..p + 4]), Little4(s[q..q + 4]), Little4(t[p..p + 4]), Little4(t[q..q + 4]));
    PartEqual(s, t, p);
    PartEqual(s, t, q);
  }

  lemma LongerShortWords(s: seq<Byte>, t: seq<Byte>)
    requires 4 <= |s| == |t| <= 16 && ShortWords(s) == ShortWords(t)
    ensures s == t
  {
    var n := |s|;
    var q := Inner(n);
    PartsEqual(s, t, 0, q);
    PartsEqual(s, t, n - 4, n - 4 - q);
    PartsCover(s, t, q);
  }

  lemma PartsCover(s: seq<Byte>, t: seq<Byte>, q: nat)
    requires 4 <= |s| == |t| <= 16 && q == Inner(|s|)
    requires SamePart(s, t, 0) && SamePart(s, t, q) && SamePart(s, t, |s| - 4) && SamePart(s, t, |s| - 4 - q)
    ensures s == t
  {
    var n := |s|;
    forall i | 0 <= i < n ensures s[i] == t[i] {
      assert i < 4 || q <= i < q + 4 || n - 4 <= i || n - 4 - q <= i < n - q;
    }
  }

  /** Among keys of the same length up to 16 the two words tell every key from every other. */
  lemma ShortWordsInjective(s: seq<Byte>, t: seq<Byte>)
    requires |s| == |t| <= 16 && ShortWords(s) == ShortWords(t)
    ensures s == t
  {
    if |s| >= 4 {
      LongerShortWords(s, t);
    } else if |s| > 0 {
      ThreeBytes(s, t);
    }
  }

  lemma ThreeBytes(s: seq<Byte>, t: seq<Byte>)
    requires 0 < |s| == |t| < 4 && ShortWords(s) == ShortWords(t)
    ensures s == t
  {
    var n := |s|;
    assert n / 2 == if n == 1 then 0 else 1;
    SameDigits(s[0], s[n / 2], s[n - 1], t[0], t[n / 2], t[n - 1]);
  }

  lemma SameDigits(a: nat, b: nat, c: nat, x: nat, y: nat, z: nat)
    requires b < 256 && c < 256 && y < 256 && z < 256
    requires a * 0x1_0000 + b * 0x100 + c == x * 0x1_0000 + y * 0x100 + z
    ensures a == x && b == y && c == z
  {
  }

  // ---------- how it is computed ----------

  ghost predicate Within(k: int, p: nat, n: nat)
  {
    p <= k < p + n
  }

  ghost function Span(p: nat, n: nat): iset<int>
  {
    iset k | Within(k, p, n)
  }

  /** A key in memory, with a record of the bytes that were read. */
  class Key {
    const bytes: seq<Byte>
    ghost var seen: iset<int>

    constructor (bytes: seq<Byte>)
      ensures this.bytes == bytes && seen == iset{}
    {
      this.bytes := bytes;
      seen := iset{};
    }

    /** One byte: the only access to the key. */
    method Load(p: nat) returns (v: nat)
      requires p < |bytes|
      modifies this
      ensures v == bytes[p] && seen == old(seen) + Span(p, 1)
    {
      seen := seen + Span(p, 1);
      v := bytes[p];
    }

    /** _wyr4 */
    method Read4(p: nat) returns (v: Word)
      requires p + 4 <= |bytes|
      modifies this
      ensures v == Little4(bytes[p..p + 4])
      ensures seen == old(seen) + Span(p, 4)
    {
      var b0 := Load(p);
      var b1 := Load(p + 1);
      var b2 := Load(p + 2);
      var b3 := Load(p + 3);
      Unfold4(bytes[p..p + 4]);
      v := b0 + 0x100 * b1 + 0x1_0000 * b2 + 0x100_0000 * b3;
    }

    /** _wyr8 */
    method Read8(p: nat) returns (v: Word)
      requires p + 8 <= |bytes|
      modifies this
      ensures v == Little8(bytes[p..p + 8])
      ensures seen == old(seen) + Span(p, 8)
    {
      var low := Read4(p);
      var high := Read4(p + 4);
      LittleTwo(bytes, p);
      v := low + high * TWO32;
    }

    /** _wyr3 */
    method Read3(k: nat) returns (v: Word)
      requires 0 < k <= 3 && k <= |bytes|
      modifies this
      ensures v == bytes[0] as nat * 0x1_0000 + bytes[k / 2] as nat * 0x100 + bytes[k - 1] as nat
      ensures seen == old(seen) + Span(0, k)
    {
      var b0 := Load(0);
      var b1 := Load(k / 2);
      var b2 := Load(k - 1);
      OrBytes(b0, b1, b2);
      v := Or(Or(b0 * 0x1_0000, b1 * 0x100), b2);
    }
  }

  lemma OrBytes(a: nat, b: nat, c: nat)
    requires b < 256 && c < 256
    ensures Or(Or(a * 0x1_0000, b * 0x100), c) == a * 0x1_0000 + b * 0x100 + c
  {
    assert Pow2(8) == 256;
    Pow2Add(8, 8);
    OrDisjoint(a, b * 0x100, 16);
    OrDisjoint(a * 0x100 + b, c, 8);
  }

  lemma LittleTwo(s: seq<Byte>, p: nat)
    requires p + 8 <= |s|
    ensures Little(s[p..p + 8]) == Little(s[p..p + 4]) + Little(s[p + 4..p + 8]) * TWO32
  {
    assert s[p..p + 8] == s[p..p + 4] + s[p + 4..p + 8];
    LittleConcat(s[p..p + 4], s[p + 4..p + 8]);
    Pow32();
  }

  lemma {:induction false} LittleConcat(s: seq<Byte>, t: seq<Byte>)
    ensures Little(s + t) == Little(s) + Pow2(8 * |s|) * Little(t)
  {
    if s == [] {
      assert s + t == t;
    } else {
      LittleConcat(s[1..], t);
      assert (s + t)[1..] == s[1..] + t;
      assert Pow2(8) == 256;
      Pow2Add(8, 8 * |s[1..]|);
      Regroup256(Pow2(8 * |s[1..]|), Little(t));
    }
  }

  lemma Regroup256(p: nat, v: nat)
    ensures 256 * (p * v) == 256 * p * v
  {
  }

  lemma Unfold4(s: seq<Byte>)
    requires |s| == 4
    ensures Little(s) == s[0] as nat + 0x100 * s[1] as nat + 0x1_0000 * s[2] as nat + 0x100_0000 * s[3] as nat
  {
    assert s[1..][1..] == s[2..] && s[2..][1..] == s[3..] && s[3..][1..] == [];
    assert Little(s[3..]) == s[3];
    assert Little(s[2..]) == s[2] + 256 * Little(s[3..]);
    assert Little(s[1..]) == s[1] + 256 * Little(s[2..]);
  }

  /** Two half words beside each other. */
  lemma OrHalves(a: nat, b: nat)
    requires a < TWO32 && b < TWO32
    ensures Or(Wrap(a * TWO32), b) == a * TWO32 + b < TWO64
  {
    Pow32();
    NoWrap(a * TWO32);
    OrDisjoint(a, b, 32);
  }

  /** Two reads of four bytes, side by side in a word. */
  method ReadPair(key: Key, p: nat, q: nat) returns (v: Word)
    requires p + 4 <= |key.bytes| && q + 4 <= |key.bytes|
    modifies key
    ensures v == Pair(Little4(key.bytes[p..p + 4]), Little4(key.bytes[q..q + 4]))
    ensures key.seen == old(key.seen) + Span(p, 4) + Span(q, 4)
  {
    var high := key.Read4(p);
    var low := key.Read4(q);
    OrHalves(high, low);
    v := Or(Wrap(high * TWO32), low);
  }

  /** The words of a key of 4 to 16 bytes; the later reads go back over the earlier. */
  method ReadShort(key: Key) returns (a: Word, b: Word)
    requires 4 <= |key.bytes| <= 16
    modifies key
    ensures (a, b) == ShortWords(key.bytes)
    ensures key.seen == old(key.seen) + Span(0, |key.bytes|)
  {
    var n := |key.bytes|;
    var q := n / 8 * 4;
    assert q == Inner(n);
    a := ReadPair(key, 0, q);
    b := ReadPair(key, n - 4, n - 4 - q);
    SpansShort(n, q);
  }

  /** The four reads cover the key. */
  lemma SpansShort(n: nat, q: nat)
    requires 4 <= n <= 16 && q == Inner(n)
    ensures Span(0, 4) + Span(q, 4) + Span(n - 4, 4) + Span(n - 4 - q, 4) == Span(0, n)
  {
  }

  /** The two loops and the two last reads cover the key. */
  lemma SpansLong(n: nat, p: nat, q: nat)
    requires p <= q < n <= q + 16 && n >= 16
    ensures Span(0, p) + Span(p, q - p) + Span(n - 16, 8) + Span(n - 8, 8) == Span(0, n)
  {
  }

  /** One pass of the loop over blocks of 48 bytes. */
  method Read48(key: Key, p: nat, x: Seeds, secret: Secret) returns (y: Seeds)
    requires p + 48 <= |key.bytes|
    modifies key
    ensures y == Absorb48(key.bytes[p..p + 48], x, secret)
    ensures key.seen == old(key.seen) + Span(p, 48)
  {
    var w0 := key.Read8(p);
    var w1 := key.Read8(p + 8);
    var w2 := key.Read8(p + 16);
    var w3 := key.Read8(p + 24);
    var w4 := key.Read8(p + 32);
    var w5 := key.Read8(p + 40);
    var main := Wymix(XorWord(w0, secret[1]), XorWord(w1, x.main));
    var one := Wymix(XorWord(w2, secret[2]), XorWord(w3, x.one));
    var two := Wymix(XorWord(w4, secret[3]), XorWord(w5, x.two));
    y := Seeds(main, one, two);
    Slices(key.bytes, p);
  }

  lemma Slice(s: seq<Byte>, p: nat, n: nat, a: nat, b: nat)
    requires p + n <= |s| && a <= b <= n
    ensures s[p..p + n][a..b] == s[p + a..p + b]
  {
    var x, y := s[p..p + n][a..b], s[p + a..p + b];
    forall i | 0 <= i < |x| ensures x[i] == y[i] {
      assert x[i] == s[p..p + n][a + i] == s[p + (a + i)];
    }
  }

  lemma Slices(s: seq<Byte>, p: nat)
    requires p + 48 <= |s|
    ensures var b := s[p..p + 48];
            && b[..8] == s[p..p + 8] && b[8..16] == s[p + 8..p + 16] && b[16..24] == s[p + 16..p + 24]
            && b[24..32] == s[p + 24..p + 32] && b[32..40] == s[p + 32..p + 40] && b[40..] == s[p + 40..p + 48]
  {
    var b := s[p..p + 48];
    assert b[..8] == b[0..8] && b[40..] == b[40..48];
    assert b[0..8] == s[p + 0..p + 8];
    Slice(s, p, 48, 8, 16);
    Slice(s, p, 48, 16, 24);
    Slice(s, p, 48, 24, 32);
    Slice(s, p, 48, 32, 40);
    Slice(s, p, 48, 40, 48);
  }

  /** The loop over blocks of 48 bytes: p is where it ends. */
  method Loop48(key: Key, seed: Word, secret: Secret) returns (x: Seeds, p: nat)
    requires 48 < |key.bytes|
    modifies key
    ensures p < |key.bytes| && key.bytes[p..] == After48(key.bytes)
    ensures x == Blocks48(key.bytes, Seeds(seed, seed, seed), secret)
    ensures key.seen == old(key.seen) + Span(0, p)
  {
    x := Seeds(seed, seed, seed);
    var i := |key.bytes|;
    p := 0;
    assert key.bytes[0..] == key.bytes;
    while i > 48
      invariant p + i == |key.bytes| && i > 0
      invariant key.seen == old(key.seen) + Span(0, p)
      invariant Blocks48(key.bytes[p..], x, secret) == Blocks48(key.bytes, Seeds(seed, seed, seed), secret)
      invariant After48(key.bytes[p..]) == After48(key.bytes)
    {
      Next(key.bytes, p, 48);
      x := Read48(key, p, x, secret);
      p, i := p + 48, i - 48;
    }
  }

  lemma Next(s: seq<Byte>, p: nat, n: nat)
    requires p + n <= |s|
    ensures s[p..][n..] == s[p + n..] && s[p..][..n] == s[p..p + n]
  {
  }

  /** One pass of the loop over blocks of 16 bytes. */
  method Read16(key: Key, p: nat, seed: Word, secret: Secret) returns (next: Word)
    requires p + 16 <= |key.bytes|
    modifies key
    ensures next == Absorb16(key.bytes[p..p + 16], seed, secret)
    ensures key.seen == old(key.seen) + Span(p, 16)
  {
    Slice(key.bytes, p, 16, 0, 8);
    Slice(key.bytes, p, 16, 8, 16);
    var w0 := key.Read8(p);
    var w1 := key.Read8(p + 8);
    next := Wymix(XorWord(w0, secret[1]), XorWord(w1, seed));
  }

  /** The loop over blocks of 16 bytes from p on: q is where it ends. */
  method Loop16(key: Key, p: nat, start: Word, secret: Secret) returns (seed: Word, q: nat)
    requires p < |key.bytes|
    modifies key
    ensures p <= q < |key.bytes| <= q + 16
    ensures seed == Blocks16(key.bytes[p..], start, secret)
    ensures key.seen == old(key.seen) + Span(p, q - p)
  {
    seed := start;
    q := p;
    var i := |key.bytes| - p;
    while i > 16
      invariant p <= q && q + i == |key.bytes| && i > 0
      invariant key.seen == old(key.seen) + Span(p, q - p)
      invariant Blocks16(key.bytes[q..], seed, secret) == Blocks16(key.bytes[p..], start, secret)
    {
      Next(key.bytes, q, 16);
      seed := Read16(key, q, seed, secret);
      i := i - 16;
      q := q + 16;
    }
  }

  /** A key of more than 16 bytes: the loops, and the two words at its end, which go back over what was read. */
  method ReadLong(key: Key, start: Word, secret: Secret) returns (seed: Word, a: Word, b: Word)
    requires 16 < |key.bytes|
    modifies key
    ensures seed == LongSeed(key.bytes, start, secret)
    ensures a == Little8(key.bytes[|key.bytes| - 16..|key.bytes| - 8]) && b == Little8(key.bytes[|key.bytes| - 8..])
    ensures key.seen == old(key.seen) + Span(0, |key.bytes|)
  {
    seed := start;
    var n, p := |key.bytes|, 0;
    assert key.bytes[0..] == key.bytes;
    if n > 48 {
      var x;
      x, p := Loop48(key, seed, secret);
      seed := XorWord(x.main, XorWord(x.one, x.two));
    }
    ghost var loop := p;
    seed, p := Loop16(key, p, seed, secret);
    SpansLong(n, loop, p);
    var i := n - p;
    a, b := ReadLast(key, p + i);
  }

  /** The last 16 bytes up to n. */
  method ReadLast(key: Key, n: nat) returns (a: Word, b: Word)
    requires 16 <= n == |key.bytes|
    modifies key
    ensures a == Little8(key.bytes[n - 16..n - 8]) && b == Little8(key.bytes[n - 8..])
    ensures key.seen == old(key.seen) + Span(n - 16, 8) + Span(n - 8, 8)
  {
    a := key.Read8(n - 16);
    b := key.Read8(n - 8);
    assert key.bytes[n - 8..] == key.bytes[n - 8..n];
  }

  /** wyhash reads nothing but the key's own bytes, each at least once, and computes HashOf. */
  method WyhashOf(key: Key, seed0: Word, secret: Secret) returns (hash: Word)
    requires |key.bytes| < TWO64
    modifies key
    ensures hash == HashOf(key.bytes, seed0, secret)
    ensures key.seen == old(key.seen) + Span(0, |key.bytes|)
  {
    var n := |key.bytes|;
    var m := Wymix(XorWord(seed0, secret[0]), secret[1]);
    var seed := XorWord(seed0, m);
    var a, b;
    if n <= 16 {
      if n >= 4 {
        a, b := ReadShort(key);
      } else if n > 0 {
        a := key.Read3(n);
        b := 0;
      } else {
        a, b := 0, 0;
      }
    } else {
      seed, a, b := ReadLong(key, seed, secret);
    }
    a := XorWord(a, secret[1]);
    b := XorWord(b, seed);
    var lo, hi := MumByHalves(a, b);
    HalvesAreUnique(a, b, lo, hi);
    hash := Wymix(XorWord(XorWord(lo, secret[0]), n), XorWord(hi, secret[1]));
  }
}
