/** Machine words as natural numbers, with the bitwise operators defined digit by digit.
    Bit is the only observer the rest of the project reasons with. */
module Bits {
  datatype Op = OpAnd | OpOr | OpXor

  const WORD_BITS: nat := 64
  const WORD_MAX: nat := 0xFFFF_FFFF_FFFF_FFFF

  function Pow2(k: nat): (r: nat)
    ensures r > 0
  {
    if k == 0 then 1 else 2 * Pow2(k - 1)
  }

  lemma {:induction false} Pow2Add(a: nat, b: nat)
    ensures Pow2(a + b) == Pow2(a) * Pow2(b)
    decreases a
  {
    if a > 0 {
      Pow2Add(a - 1, b);
    }
  }

  // The powers of two the kernel's constants are made of.
  lemma Pow2Words()
    ensures Pow2(0) == 1 && Pow2(1) == 2 && Pow2(2) == 4 && Pow2(3) == 8 && Pow2(4) == 16
    ensures Pow2(8) == 0x100 && Pow2(9) == 512 && Pow2(12) == 4096 && Pow2(16) == 0x1_0000
    ensures Pow2(32) == 0x1_0000_0000 && Pow2(48) == 0x1_0000_0000_0000
    ensures Pow2(64) == WORD_MAX + 1
  {
    assert Pow2(0) == 1;
    assert Pow2(1) == 2;
    assert Pow2(2) == 4;
    assert Pow2(3) == 8;
    assert Pow2(4) == 16;
    Pow2Add(4, 4);
    Pow2Add(8, 1);
    Pow2Add(8, 4);
    Pow2Add(8, 8);
    Pow2Add(16, 16);
    Pow2Add(32, 16);
    Pow2Add(32, 32);
  }

  // Bit i of w.
  predicate Bit(w: nat, i: nat)
    decreases i
  {
    if i == 0 then w % 2 == 1 else Bit(w / 2, i - 1)
  }

  function Apply(op: Op, x: bool, y: bool): bool {
    match op
    case OpAnd => x && y
    case OpOr => x || y
    case OpXor => x != y
  }

  function Bitwise(op: Op, a: nat, b: nat): nat
    decreases a + b
  {
    if a == 0 && b == 0 then 0
    else 2 * Bitwise(op, a / 2, b / 2) + (if Apply(op, a % 2 == 1, b % 2 == 1) then 1 else 0)
  }

  function And(a: nat, b: nat): nat { Bitwise(OpAnd, a, b) }

  function Or(a: nat, b: nat): nat { Bitwise(OpOr, a, b) }

  function Xor(a: nat, b: nat): nat { Bitwise(OpXor, a, b) }

  // The complement of a k-bit word.
  function Not(k: nat, w: nat): nat
    requires w < Pow2(k)
  {
    Pow2(k) - 1 - w
  }

  // The number of 1 bits below the lowest 0 bit.
  function TrailingOnes(w: nat): nat
    decreases w
  {
    if w % 2 == 0 then 0 else 1 + TrailingOnes(w / 2)
  }

  // The number of 0 bits below the lowest 1 bit.
  function TrailingZeros(w: nat): nat
    requires w > 0
    decreases w
  {
    if w % 2 == 1 then 0 else 1 + TrailingZeros(w / 2)
  }

  lemma {:induction false} BitwiseBit(op: Op, a: nat, b: nat, i: nat)
    ensures Bit(Bitwise(op, a, b), i) == Apply(op, Bit(a, i), Bit(b, i))
    decreases i
  {
    if a == 0 && b == 0 {
      ZeroBit(i);
    } else if i > 0 {
      BitwiseBit(op, a / 2, b / 2, i - 1);
      assert Bitwise(op, a, b) / 2 == Bitwise(op, a / 2, b / 2);
    }
  }

  lemma {:induction false} ZeroBit(i: nat)
    ensures !Bit(0, i)
    decreases i
  {
    if i > 0 {
      ZeroBit(i - 1);
    }
  }

  // A word is determined by its bits.
  lemma {:induction false} Extensional(a: nat, b: nat)
    requires forall i: nat :: Bit(a, i) == Bit(b, i)
    ensures a == b
    decreases a + b
  {
    assert Bit(a, 0) == Bit(b, 0);
    if a != 0 || b != 0 {
      forall i: nat ensures Bit(a / 2, i) == Bit(b / 2, i) {
        assert Bit(a, i + 1) == Bit(b, i + 1);
      }
      Extensional(a / 2, b / 2);
    }
  }

  // A word fits k bits exactly when its bits from k up are clear: HighBitClear and Fits.
  lemma Fits(w: nat, k: nat)
    requires forall i: nat :: i >= k ==> !Bit(w, i)
    ensures w < Pow2(k)
  {
    if w >= Pow2(k) {
      var i := HighBitSet(w, k);
    }
  }

  lemma {:induction false} HighBitClear(w: nat, k: nat, i: nat)
    requires w < Pow2(k) && i >= k
    ensures !Bit(w, i)
    decreases i
  {
    if k == 0 {
      ZeroBit(i);
    } else {
      HighBitClear(w / 2, k - 1, i - 1);
    }
  }

  lemma {:induction false} HighBitSet(w: nat, k: nat) returns (i: nat)
    requires w >= Pow2(k)
    ensures i >= k && Bit(w, i)
    decreases w
  {
    if w == 1 {
      i := 0;
    } else {
      i := HighBitSet(w / 2, if k == 0 then 0 else k - 1);
      i := i + 1;
    }
  }

  lemma {:induction false} BitwiseFits(op: Op, a: nat, b: nat, k: nat)
    requires a < Pow2(k) && b < Pow2(k)
    ensures Bitwise(op, a, b) < Pow2(k)
  {
    forall i: nat | i >= k ensures !Bit(Bitwise(op, a, b), i) {
      BitwiseBit(op, a, b, i);
      HighBitClear(a, k, i);
      HighBitClear(b, k, i);
    }
    Fits(Bitwise(op, a, b), k);
  }

  lemma {:induction false} Pow2Bit(k: nat, i: nat)
    ensures Bit(Pow2(k), i) <==> i == k
    decreases k, i
  {
    if k == 0 {
      if i > 0 { ZeroBit(i - 1); }
    } else if i > 0 {
      Pow2Bit(k - 1, i - 1);
    }
  }

  lemma {:induction false} NotBit(k: nat, w: nat, i: nat)
    requires w < Pow2(k)
    ensures i < k ==> Bit(Not(k, w), i) == !Bit(w, i)
    ensures i >= k ==> !Bit(Not(k, w), i)
    decreases k, i
  {
    if i >= k {
      HighBitClear(Not(k, w), k, i);
    } else if i > 0 {
      NotBit(k - 1, w / 2, i - 1);
      assert Not(k, w) / 2 == Not(k - 1, w / 2);
    }
  }

  function Quotient(n: nat, d: nat): nat
    requires d > 0
  {
    n / d
  }

  // Shifting in two steps.
  lemma {:induction false} ShiftTwice(w: nat, a: nat, b: nat)
    ensures w / Pow2(a + b) == w / Pow2(a) / Pow2(b)
    decreases a
  {
    if a > 0 {
      ShiftTwice(w / 2, a - 1, b);
      ModDouble(w, Pow2(a - 1 + b));
      ModDouble(w, Pow2(a - 1));
    }
  }

  lemma MulMono(x: int, y: int, d: nat)
    requires x <= y
    ensures x * d <= y * d
  {
    assert (y - x) * d >= 0;
  }

  // Quotient and remainder are determined by their defining equation.
  lemma DivUnique(w: nat, d: nat, q: int, r: nat)
    requires d > 0 && r < d && w == q * d + r
    ensures w / d == q && w % d == r
  {
    var q', r' := w / d, w % d;
    assert w == q' * d + r';
    if q < q' {
      MulMono(q + 1, q', d);
    } else if q' < q {
      MulMono(q' + 1, q, d);
    }
  }

  // A power of two as a low mask takes the remainder.
  lemma {:induction false} LowMask(w: nat, k: nat)
    ensures And(w, Pow2(k) - 1) == w % Pow2(k)
    decreases k
  {
    if k == 0 {
      AndZero(w);
    } else {
      LowMask(w / 2, k - 1);
      var d := Pow2(k - 1);
      assert (2 * d - 1) / 2 == d - 1 && (2 * d - 1) % 2 == 1;
      ModDouble(w, d);
    }
  }

  lemma ModDouble(w: nat, d: nat)
    requires d > 0
    ensures w % (2 * d) == 2 * (w / 2 % d) + w % 2
    ensures w / (2 * d) == w / 2 / d
  {
    var q, r := w / 2 / d, w / 2 % d;
    assert w / 2 == q * d + r;
    assert q * (2 * d) == 2 * (q * d);
    DivUnique(w, 2 * d, q, 2 * r + w % 2);
  }

  lemma {:induction false} AndZero(w: nat)
    ensures And(w, 0) == 0
    decreases w
  {
    if w > 0 {
      AndZero(w / 2);
    }
  }

  // A mask and its complement split a word.
  lemma {:induction false} SplitMask(w: nat, m: nat, k: nat)
    requires w < Pow2(k) && m < Pow2(k)
    ensures And(w, m) + And(w, Not(k, m)) == w
    decreases k
  {
    if k > 0 {
      SplitMask(w / 2, m / 2, k - 1);
      var n := Not(k, m);
      assert n / 2 == Not(k - 1, m / 2) && n % 2 == 1 - m % 2;
      assert And(w, m) == 2 * And(w / 2, m / 2) + (if w % 2 == 1 && m % 2 == 1 then 1 else 0);
      assert And(w, n) == 2 * And(w / 2, n / 2) + (if w % 2 == 1 && n % 2 == 1 then 1 else 0);
    }
  }

  // `w & !(2^j - 1)` rounds w down to a multiple of 2^j.
  lemma ClearLowBits(w: nat, j: nat, k: nat)
    requires j < k && w < Pow2(k)
    ensures Pow2(j) - 1 < Pow2(k) && And(w, Not(k, Pow2(j) - 1)) == w - w % Pow2(j)
  {
    Pow2Mono(j, k);
    SplitMask(w, Pow2(j) - 1, k);
    LowMask(w, j);
  }

  lemma {:induction false} TrailingOnesSpec(w: nat)
    ensures !Bit(w, TrailingOnes(w))
    ensures forall i: nat :: i < TrailingOnes(w) ==> Bit(w, i)
    decreases w
  {
    if w % 2 == 1 {
      TrailingOnesSpec(w / 2);
    }
  }

  // A word that is not all ones has a clear bit, and the all-ones word has none.
  lemma {:induction false} TrailingOnesFits(w: nat, k: nat)
    requires w < Pow2(k) - 1
    ensures TrailingOnes(w) < k
    decreases k
  {
    if w % 2 == 1 {
      TrailingOnesFits(w / 2, k - 1);
    }
  }

  lemma AllOnesBit(k: nat, i: nat)
    requires i < k
    ensures Bit(Pow2(k) - 1, i)
  {
    NotBit(k, 0, i);
    ZeroBit(i);
  }

  lemma {:induction false} TrailingZerosSpec(w: nat)
    requires w > 0
    ensures Bit(w, TrailingZeros(w))
    ensures forall i: nat :: i < TrailingZeros(w) ==> !Bit(w, i)
    decreases w
  {
    if w % 2 == 0 {
      TrailingZerosSpec(w / 2);
    }
  }

  // `word & (1 << i)`, compared with zero, tests bit i.
  lemma TestBit(w: nat, i: nat)
    ensures And(w, Pow2(i)) != 0 <==> Bit(w, i)
  {
    BitwiseBit(OpAnd, w, Pow2(i), i);
    Pow2Bit(i, i);
    ZeroBit(i);
    if And(w, Pow2(i)) != 0 {
      var j := HighBitSet(And(w, Pow2(i)), 0);
      BitwiseBit(OpAnd, w, Pow2(i), j);
      Pow2Bit(i, j);
    }
  }

  // `word | (1 << i)` sets bit i and no other.
  lemma SetBit(w: nat, i: nat, k: nat)
    requires i < k && w < Pow2(k)
    ensures Or(w, Pow2(i)) < Pow2(k)
    ensures forall j: nat :: Bit(Or(w, Pow2(i)), j) <==> (j == i || Bit(w, j))
  {
    Pow2Mono(i, k);
    BitwiseFits(OpOr, w, Pow2(i), k);
    forall j: nat ensures Bit(Or(w, Pow2(i)), j) <==> (j == i || Bit(w, j)) {
      BitwiseBit(OpOr, w, Pow2(i), j);
      Pow2Bit(i, j);
    }
  }

  // `word & !(1 << i)` clears bit i and no other.
  lemma ClearBit(w: nat, i: nat, k: nat)
    requires i < k && w < Pow2(k)
    ensures Pow2(i) < Pow2(k)
    ensures And(w, Not(k, Pow2(i))) < Pow2(k)
    ensures forall j: nat :: Bit(And(w, Not(k, Pow2(i))), j) <==> (j != i && Bit(w, j))
  {
    Pow2Mono(i, k);
    BitwiseFits(OpAnd, w, Not(k, Pow2(i)), k);
    forall j: nat ensures Bit(And(w, Not(k, Pow2(i))), j) <==> (j != i && Bit(w, j)) {
      if j >= k { HighBitClear(w, k, j); }
      BitwiseBit(OpAnd, w, Not(k, Pow2(i)), j);
      NotBit(k, Pow2(i), j);
      Pow2Bit(i, j);
    }
  }

  lemma {:induction false} Pow2Mono(i: nat, k: nat)
    requires i < k
    ensures 2 * Pow2(i) <= Pow2(k)
    decreases k
  {
    if i < k - 1 {
      Pow2Mono(i, k - 1);
    }
  }

  // Exclusive-or with a power of two moves to the neighbouring multiple: the bit decides which side.
  lemma {:induction false} XorPow2(a: nat, k: nat)
    ensures Xor(a, Pow2(k)) == if Bit(a, k) then a - Pow2(k) else a + Pow2(k)
    ensures Bit(a, k) ==> Pow2(k) <= a
    decreases k
  {
    if k == 0 {
      XorZero(a / 2);
    } else {
      XorPow2(a / 2, k - 1);
    }
  }

  lemma {:induction false} XorZero(a: nat)
    ensures Xor(a, 0) == a
    decreases a
  {
    if a > 0 {
      XorZero(a / 2);
    }
  }

  // Masking twice with the same word gives back the original.
  lemma {:induction false} XorTwice(a: nat, m: nat)
    ensures Xor(Xor(a, m), m) == a
  {
    forall i: nat ensures Bit(Xor(Xor(a, m), m), i) == Bit(a, i) {
      BitwiseBit(OpXor, a, m, i);
      BitwiseBit(OpXor, Xor(a, m), m, i);
    }
    Extensional(Xor(Xor(a, m), m), a);
  }

  // ----- rounding up to a power of two -----

  function CeilLog2(n: nat): nat
    decreases n
  {
    if n <= 1 then 0 else 1 + CeilLog2((n + 1) / 2)
  }

  function NextPow2(n: nat): nat {
    Pow2(CeilLog2(n))
  }

  // NextPow2(n) is the least power of two that is at least n.
  lemma {:induction false} NextPow2Least(n: nat)
    ensures n <= NextPow2(n)
    ensures forall j: nat :: j < CeilLog2(n) ==> Pow2(j) < n
    decreases n
  {
    if n > 1 {
      NextPow2Least((n + 1) / 2);
      forall j: nat | j < CeilLog2(n) ensures Pow2(j) < n {
        if j > 0 { assert Pow2(j - 1) < (n + 1) / 2; }
      }
    }
  }

  lemma {:induction false} TrailingZerosPow2(k: nat)
    ensures TrailingZeros(Pow2(k)) == k
    decreases k
  {
    if k > 0 { TrailingZerosPow2(k - 1); }
  }
}
