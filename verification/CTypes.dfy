/** The C-level values the models share: pointers, optional values and strings. */
module CTypes {
  datatype Option<+T> = None | Some(value: T)

  /** An opaque payload pointer, as a number; NULL is zero. */
  type Ptr = nat
  const NULL: Ptr := 0

  /** A character of a C string: an unsigned char other than the terminator. */
  type Char = c: nat | 0 < c < 256 witness 1

  /** A C string, without its terminator. */
  type Key = seq<Char>

  /** strcmp: the difference of the first differing characters, the terminator counting as zero. */
  function Strcmp(a: Key, b: Key): int
  {
    if a == [] || b == [] then
      (if a == [] then 0 else a[0]) - (if b == [] then 0 else b[0])
    else if a[0] != b[0] then a[0] - b[0]
    else Strcmp(a[1..], b[1..])
  }

  /** The order every search structure here is built on. */
  predicate Less(a: Key, b: Key)
  {
    Strcmp(a, b) < 0
  }

  lemma {:induction false} StrcmpEqual(a: Key, b: Key)
    ensures Strcmp(a, b) == 0 <==> a == b
  {
    if a != [] && b != [] && a[0] == b[0] {
      StrcmpEqual(a[1..], b[1..]);
      assert a == [a[0]] + a[1..] && b == [b[0]] + b[1..];
    }
  }

  lemma {:induction false} StrcmpSwap(a: Key, b: Key)
    ensures Strcmp(a, b) == -Strcmp(b, a)
  {
    if a != [] && b != [] && a[0] == b[0] {
      StrcmpSwap(a[1..], b[1..]);
    }
  }

  lemma {:induction false} LessTransitive(a: Key, b: Key, c: Key)
    requires Less(a, b) && Less(b, c)
    ensures Less(a, c)
  {
    if a != [] && b != [] && c != [] && a[0] == b[0] == c[0] {
      LessTransitive(a[1..], b[1..], c[1..]);
    }
  }

  /** strcmp is a strict total order on keys. */
  lemma LessTotalOrder()
    ensures forall a: Key, b: Key {:trigger Less(a, b)} :: Less(a, b) ==> !Less(b, a) && a != b
    ensures forall a: Key, b: Key {:trigger Strcmp(a, b)} :: Strcmp(a, b) == 0 <==> a == b
    ensures forall a: Key, b: Key {:trigger Strcmp(a, b)} :: Strcmp(a, b) > 0 <==> Less(b, a)
    ensures forall a: Key, b: Key, c: Key {:trigger Less(a, b), Less(b, c)} ::
              Less(a, b) && Less(b, c) ==> Less(a, c)
  {
    forall a: Key, b: Key
      ensures Strcmp(a, b) == 0 <==> a == b
      ensures Strcmp(a, b) > 0 <==> Less(b, a)
      ensures Less(a, b) ==> !Less(b, a) && a != b
    {
      StrcmpEqual(a, b);
      StrcmpSwap(a, b);
    }
    forall a: Key, b: Key, c: Key | Less(a, b) && Less(b, c)
      ensures Less(a, c)
    {
      LessTransitive(a, b, c);
    }
  }
}
