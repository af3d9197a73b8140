/** Memory by the byte, and the links that free blocks carry in their own first bytes. */
module ByteMemory {
  import opened Errors

  // The index-th of the eight bytes of a word, or a byte nothing has been stored in yet. Bytes of different words
  // are kept apart, so that a word can be read back only where all its bytes still stand.
  datatype Byte = Unknown | Byte(word: nat, index: nat)

  type Bytes = nat -> Byte

  const WORD: nat := 8
  const LINK: nat := 16   // an optional raw pointer: a word that says whether there is one, and the pointer

  function Blank(): Bytes {
    (x: nat) => Unknown
  }

  predicate SameAt(before: Bytes, after: Bytes, a: nat) {
    before(a) == after(a)
  }

  // Nothing written but, at most, the bytes from low on up to high.
  ghost predicate SameOutside(before: Bytes, after: Bytes, low: nat, high: nat) {
    forall a: nat :: a < low || high <= a ==> SameAt(before, after, a)
  }

  ghost predicate SameWithin(before: Bytes, after: Bytes, low: nat, high: nat) {
    forall a: nat :: low <= a < high ==> SameAt(before, after, a)
  }

  ghost predicate WordAt(m: Bytes, a: nat, n: nat) {
    forall x: nat :: a <= x < a + WORD ==> m(x) == Byte(n, x - a)
  }

  function PutByte(m: Bytes, a: nat, b: Byte): Bytes {
    (x: nat) => if x == a then b else m(x)
  }

  function PutWord(m: Bytes, a: nat, n: nat): Bytes {
    (x: nat) => if a <= x < a + WORD then Byte(n, x - a) else m(x)
  }

  function Tag(v: Option<nat>): nat { if v.Some? then 1 else 0 }

  // What a link field holds. Without a pointer the second word does not matter.
  ghost predicate LinkAt(m: Bytes, a: nat, v: Option<nat>) {
    WordAt(m, a, Tag(v)) && (v.Some? ==> WordAt(m, a + WORD, v.value))
  }

  function PutLink(m: Bytes, a: nat, v: Option<nat>): Bytes {
    var tagged := PutWord(m, a, Tag(v));
    if v.Some? then PutWord(tagged, a + WORD, v.value) else tagged
  }

  lemma PutWordSpec(m: Bytes, a: nat, n: nat)
    ensures WordAt(PutWord(m, a, n), a, n) && SameOutside(m, PutWord(m, a, n), a, a + WORD)
  {
  }

  lemma WordFrame(before: Bytes, after: Bytes, a: nat, n: nat)
    requires SameWithin(before, after, a, a + WORD)
    ensures WordAt(before, a, n) == WordAt(after, a, n)
  {
    if WordAt(before, a, n) {
      forall x: nat | a <= x < a + WORD ensures after(x) == Byte(n, x - a) { assert SameAt(before, after, x); }
    }
    if WordAt(after, a, n) {
      forall x: nat | a <= x < a + WORD ensures before(x) == Byte(n, x - a) { assert SameAt(before, after, x); }
    }
  }

  // Two writes within the same bounds.
  lemma OutsideTwice(m0: Bytes, m1: Bytes, m2: Bytes, low: nat, mid: nat, high: nat, low': nat)
    requires SameOutside(m0, m1, low, mid) && SameOutside(m1, m2, low', high)
    requires low <= low' && mid <= high
    ensures SameOutside(m0, m2, low, high)
  {
    forall a: nat | a < low || high <= a ensures SameAt(m0, m2, a) {
      assert SameAt(m0, m1, a) && SameAt(m1, m2, a);
    }
  }

  // A link written is the link read, and nothing but its sixteen bytes is written.
  lemma PutLinkSpec(m: Bytes, a: nat, v: Option<nat>)
    ensures LinkAt(PutLink(m, a, v), a, v) && SameOutside(m, PutLink(m, a, v), a, a + LINK)
  {
    var tagged := PutWord(m, a, Tag(v));
    PutWordSpec(m, a, Tag(v));
    if v.Some? {
      PutWordSpec(tagged, a + WORD, v.value);
      WordFrame(tagged, PutLink(m, a, v), a, Tag(v));
    }
  }

  lemma LinkFrame(before: Bytes, after: Bytes, a: nat, v: Option<nat>)
    requires SameWithin(before, after, a, a + LINK)
    ensures LinkAt(before, a, v) == LinkAt(after, a, v)
  {
    WordFrame(before, after, a, Tag(v));
    if v.Some? { WordFrame(before, after, a + WORD, v.value); }
  }

  class Store {
    var bytes: Bytes

    constructor ()
      ensures bytes == Blank()
    {
      bytes := Blank();
    }

    // Reads a link where one stands.
    method Load(a: nat, ghost v: Option<nat>) returns (r: Option<nat>)
      requires LinkAt(bytes, a, v)
      ensures r == v
    {
      if bytes(a).word == 0 {
        return None;
      }
      return Some(bytes(a + WORD).word);
    }

    method Save(a: nat, v: Option<nat>)
      modifies this
      ensures bytes == PutLink(old(bytes), a, v)
    {
      bytes := PutLink(bytes, a, v);
    }

    // The owner of memory stores a byte.
    method SaveByte(a: nat, b: Byte)
      modifies this
      ensures bytes == PutByte(old(bytes), a, b)
    {
      bytes := PutByte(bytes, a, b);
    }
  }
}
