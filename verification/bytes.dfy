/** Bytes as numbers: big-endian integers and exclusive or. */
module Bytes {

  type byte = x: int | 0 <= x < 256

  function Pow256(k: nat): (n: nat)
    ensures n > 0
  {
    if k == 0 then 1 else 256 * Pow256(k - 1)
  }

  function BigEndian(n: nat, k: nat): (b: seq<byte>)
    ensures |b| == k
  {
    if k == 0 then [] else BigEndian(n / 256, k - 1) + [n % 256]
  }

  function FromBigEndian(b: seq<byte>): (n: nat)
    ensures n < Pow256(|b|)
  {
    if b == [] then 0 else 256 * FromBigEndian(b[..|b| - 1]) + b[|b| - 1]
  }

  lemma {:induction false} BigEndianReads(n: nat, k: nat)
    requires n < Pow256(k)
    ensures FromBigEndian(BigEndian(n, k)) == n
  {
    if k > 0 {
      BigEndianReads(n / 256, k - 1);
      assert BigEndian(n, k)[..k - 1] == BigEndian(n / 256, k - 1);
    }
  }

  lemma {:induction false} BigEndianWrites(b: seq<byte>)
    ensures BigEndian(FromBigEndian(b), |b|) == b
  {
    if b != [] {
      var head := b[..|b| - 1];
      BigEndianWrites(head);
      assert FromBigEndian(b) / 256 == FromBigEndian(head) && FromBigEndian(b) % 256 == b[|b| - 1];
      assert b == head + [b[|b| - 1]];
    }
  }

  // The low n bits of a and b, combined bit by bit.
  function XorBits(a: nat, b: nat, n: nat): (r: nat)
    ensures r < Pow2(n)
  {
    if n == 0 then 0
    else (if a % 2 != b % 2 then 1 else 0) + 2 * XorBits(a / 2, b / 2, n - 1)
  }

  function Pow2(n: nat): (r: nat)
    ensures r > 0
  {
    if n == 0 then 1 else 2 * Pow2(n - 1)
  }

  function Xor(a: byte, b: byte): byte {
    assert Pow2(8) == 256;
    XorBits(a, b, 8)
  }

  lemma {:induction false} XorBitsTwice(a: nat, b: nat, n: nat)
    requires a < Pow2(n)
    ensures XorBits(XorBits(a, b, n), b, n) == a
  {
    if n > 0 {
      XorBitsTwice(a / 2, b / 2, n - 1);
      var x := XorBits(a, b, n);
      assert x / 2 == XorBits(a / 2, b / 2, n - 1) && x % 2 == if a % 2 != b % 2 then 1 else 0;
    }
  }

  lemma XorTwice(a: byte, b: byte)
    ensures Xor(Xor(a, b), b) == a
  {
    assert Pow2(8) == 256;
    XorBitsTwice(a, b, 8);
  }

  function BitAt(a: nat, k: nat): nat {
    a / Pow2(k) % 2
  }

  lemma HalfBit(a: nat, k: nat)
    requires k > 0
    ensures BitAt(a, k) == BitAt(a / 2, k - 1)
  {
    HalveTwice(a, Pow2(k - 1));
  }

  lemma HalveTwice(a: nat, p: nat)
    requires p > 0
    ensures a / (2 * p) == a / 2 / p
  {
    var q, r := a / 2 / p, a / 2 % p;
    assert a / 2 == q * p + r;
    assert a == 2 * (q * p + r) + a % 2;
    assert a == q * (2 * p) + (2 * r + a % 2);
    Quotient(a, 2 * p, q, 2 * r + a % 2);
  }

  lemma TimesGrows(x: nat, y: nat, d: nat)
    requires x < y
    ensures x * d + d <= y * d
  {
    assert y * d == x * d + (y - x) * d;
    assert (y - x) * d == (y - x - 1) * d + d;
  }

  lemma OneQuotient(k: nat, m: nat, q: nat, r: nat, d: nat)
    requires k * d + m == q * d + r && m < d && r < d
    ensures k == q
  {
    if k < q {
      TimesGrows(k, q, d);
    } else if q < k {
      TimesGrows(q, k, d);
    }
  }

  lemma Quotient(a: nat, d: nat, q: nat, r: nat)
    requires d > 0 && a == q * d + r && r < d
    ensures a / d == q
  {
    OneQuotient(a / d, a % d, q, r, d);
  }

  lemma {:induction false} XorBitsBitwise(a: nat, b: nat, n: nat, k: nat)
    requires k < n
    ensures BitAt(XorBits(a, b, n), k) == if BitAt(a, k) != BitAt(b, k) then 1 else 0
  {
    var x := XorBits(a, b, n);
    assert x / 2 == XorBits(a / 2, b / 2, n - 1) && x % 2 == if a % 2 != b % 2 then 1 else 0;
    if k == 0 {
      assert Pow2(0) == 1;
    } else {
      XorBitsBitwise(a / 2, b / 2, n - 1, k - 1);
      HalfBit(x, k);
      HalfBit(a, k);
      HalfBit(b, k);
    }
  }

  /** Exclusive or, bit by bit: a bit is set exactly when it is set in one of the two. */
  lemma XorIsBitwise(a: byte, b: byte, k: nat)
    requires k < 8
    ensures BitAt(Xor(a, b), k) == 1 <==> BitAt(a, k) != BitAt(b, k)
  {
    XorBitsBitwise(a, b, 8, k);
  }

  lemma {:induction false} BitsDecide(a: nat, b: nat, n: nat)
    requires a < Pow2(n) && b < Pow2(n) && forall k :: 0 <= k < n ==> BitAt(a, k) == BitAt(b, k)
    ensures a == b
  {
    if n > 0 {
      assert Pow2(0) == 1 && BitAt(a, 0) == BitAt(b, 0);
      forall k | 0 <= k < n - 1 ensures BitAt(a / 2, k) == BitAt(b / 2, k) {
        HalfBit(a, k + 1);
        HalfBit(b, k + 1);
        assert BitAt(a, k + 1) == BitAt(b, k + 1);
      }
      BitsDecide(a / 2, b / 2, n - 1);
    }
  }

  lemma NoBits(k: nat)
    ensures BitAt(0, k) == 0
  {
  }

  /** No other byte has those bits: nothing else is the exclusive or. */
  lemma XorIsTheOnly(a: byte, b: byte, x: byte)
    requires forall k: nat :: k < 8 ==> (BitAt(x, k) == 1 <==> BitAt(a, k) != BitAt(b, k))
    ensures x == Xor(a, b)
  {
    assert Pow2(8) == 256;
    forall k: nat | k < 8 ensures BitAt(x, k) == BitAt(Xor(a, b), k) {
      XorIsBitwise(a, b, k);
    }
    BitsDecide(x, Xor(a, b), 8);
  }

  /** Nothing changes under a zero, and a byte taken with itself is zero. */
  lemma XorWithZeroAndSelf(a: byte)
    ensures Xor(a, 0) == a && Xor(0, a) == a && Xor(a, a) == 0
  {
    forall k: nat | k < 8 ensures BitAt(0, k) == 0 {
      NoBits(k);
    }
    XorIsTheOnly(a, 0, a);
    XorIsTheOnly(0, a, a);
    XorIsTheOnly(a, a, 0);
  }
}
