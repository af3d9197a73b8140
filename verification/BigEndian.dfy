/** Big-endian numbers. */
module BigEndian {
  import Bits

  // The low k bytes of n, most significant first.
  function ToBytes(n: nat, k: nat): (b: seq<nat>)
    ensures |b| == k
    decreases k
  {
    if k == 0 then [] else ToBytes(n / 256, k - 1) + [n % 256]
  }

  function FromBytes(b: seq<nat>): nat {
    if b == [] then 0 else FromBytes(b[..|b| - 1]) * 256 + b[|b| - 1]
  }

  function Limit(k: nat): (limit: nat)
    ensures limit > 0
  {
    if k == 0 then 1 else 256 * Limit(k - 1)
  }

  // Two bytes, four and eight, written out: the most significant first.
  lemma TwoBytes(n: nat, hi: nat, lo: nat)
    ensures ToBytes(n, 2) == [n / 256 % 256, n % 256]
    ensures FromBytes([hi, lo]) == hi * 256 + lo
  {
    ToTwo(n);
    FromTwo(hi, lo);
  }

  lemma ToTwo(n: nat)
    ensures ToBytes(n, 2) == [n / 256 % 256, n % 256]
  {
    assert ToBytes(n / 256, 1) == [n / 256 % 256];
  }

  lemma FromTwo(hi: nat, lo: nat)
    ensures FromBytes([hi, lo]) == hi * 256 + lo
  {
    assert [hi, lo][..1] == [hi] && [hi][..0] == [];
    assert FromBytes([hi]) == hi;
  }

  lemma FourBytes(n: nat, b: seq<nat>)
    requires |b| == 4
    ensures ToBytes(n, 4) == [n / 0x100_0000 % 256, n / 0x1_0000 % 256, n / 256 % 256, n % 256]
    ensures FromBytes(b) == b[0] * 0x100_0000 + b[1] * 0x1_0000 + b[2] * 256 + b[3]
  {
    ToTwo(n / 0x1_0000);
    assert n / 256 / 256 == n / 0x1_0000 && n / 0x1_0000 / 256 == n / 0x100_0000;
    assert ToBytes(n / 256, 3) == ToBytes(n / 0x1_0000, 2) + [n / 256 % 256];
    FromTwo(b[0], b[1]);
    assert b[..2] == [b[0], b[1]] && b[..3][..2] == b[..2];
    assert FromBytes(b[..3]) == FromBytes(b[..2]) * 256 + b[2];
  }

  lemma EightBytes(n: nat, b: seq<nat>)
    requires |b| == 8
    ensures ToBytes(n, 8) ==
              [n / 0x100_0000_0000_0000 % 256, n / 0x1_0000_0000_0000 % 256, n / 0x100_0000_0000 % 256, n / 0x1_0000_0000 % 256,
               n / 0x100_0000 % 256, n / 0x1_0000 % 256, n / 256 % 256, n % 256]
    ensures FromBytes(b) ==
              (b[0] * 0x100_0000 + b[1] * 0x1_0000 + b[2] * 256 + b[3]) * 0x1_0000_0000
              + (b[4] * 0x100_0000 + b[5] * 0x1_0000 + b[6] * 256 + b[7])
  {
    ToEight(n);
    FromEight(b);
  }

  lemma ToEight(n: nat)
    ensures ToBytes(n, 8) ==
              [n / 0x100_0000_0000_0000 % 256, n / 0x1_0000_0000_0000 % 256, n / 0x100_0000_0000 % 256, n / 0x1_0000_0000 % 256,
               n / 0x100_0000 % 256, n / 0x1_0000 % 256, n / 256 % 256, n % 256]
  {
    var high := n / 0x1_0000_0000;
    FourBytes(high, [0, 0, 0, 0]);
    assert high / 256 == n / 0x100_0000_0000 && high / 0x1_0000 == n / 0x1_0000_0000_0000 && high / 0x100_0000 == n / 0x100_0000_0000_0000;
    var n1, n2, n3 := n / 256, n / 0x1_0000, n / 0x100_0000;
    assert n1 / 256 == n2 && n2 / 256 == n3 && n3 / 256 == high;
    assert ToBytes(n3, 5) == ToBytes(high, 4) + [n3 % 256];
    assert ToBytes(n2, 6) == ToBytes(n3, 5) + [n2 % 256];
    assert ToBytes(n1, 7) == ToBytes(n2, 6) + [n1 % 256];
  }

  lemma FromEight(b: seq<nat>)
    requires |b| == 8
    ensures FromBytes(b) ==
              (b[0] * 0x100_0000 + b[1] * 0x1_0000 + b[2] * 256 + b[3]) * 0x1_0000_0000
              + (b[4] * 0x100_0000 + b[5] * 0x1_0000 + b[6] * 256 + b[7])
  {
    FourBytes(0, b[..4]);
    assert b[..5][..4] == b[..4] && b[..6][..5] == b[..5] && b[..7][..6] == b[..6];
    assert FromBytes(b[..5]) == FromBytes(b[..4]) * 256 + b[4];
    assert FromBytes(b[..6]) == FromBytes(b[..5]) * 256 + b[5];
    assert FromBytes(b[..7]) == FromBytes(b[..6]) * 256 + b[6];
  }

  // Decoding gives the number back modulo 256^k: exactly the numbers that fit survive.
  lemma {:induction false} RoundTrip(n: nat, k: nat)
    ensures FromBytes(ToBytes(n, k)) == n % Limit(k)
    ensures FromBytes(ToBytes(n, k)) == n <==> n < Limit(k)
    decreases k
  {
    if k > 0 {
      RoundTrip(n / 256, k - 1);
      var b := ToBytes(n, k);
      assert b[..k - 1] == ToBytes(n / 256, k - 1);
      ModBytes(n, Limit(k - 1));
    }
  }

  lemma ModBytes(n: nat, d: nat)
    requires d > 0
    ensures n % (256 * d) == n / 256 % d * 256 + n % 256
  {
    var q, r := n / 256 / d, n / 256 % d;
    assert n / 256 == q * d + r;
    assert q * (256 * d) == 256 * (q * d);
    Bits.DivUnique(n, 256 * d, q, r * 256 + n % 256);
  }
}
