/** Fixed-width unsigned integers and their bitwise exclusive or, written out
    on integers one bit at a time. */
module Bitwise {

  /** Rust's `u64`: the integers representable in 64 bits. */
  type u64 = x: int | 0 <= x < 0x1_0000_0000_0000_0000

  /** Rust's `u32`: the integers representable in 32 bits. */
  type u32 = x: int | 0 <= x < 0x1_0000_0000

  /** `m` is a power of two. */
  predicate IsPow2(m: nat)
    decreases m
  {
    m == 1 || (m > 1 && m % 2 == 0 && IsPow2(m / 2))
  }

  /** Bitwise exclusive or of two naturals: the lowest bit is set when the
      lowest bits of `a` and `b` differ, and the higher bits are the
      exclusive or of the higher bits. */
  function BitXor(a: nat, b: nat): nat
    decreases a + b
  {
    if a == 0 && b == 0 then 0
    else 2 * BitXor(a / 2, b / 2) + (if a % 2 == b % 2 then 0 else 1)
  }

  /** The lowest bit and the higher bits of an exclusive or, read back. */
  lemma BitXorSplit(a: nat, b: nat)
    ensures BitXor(a, b) % 2 == (if a % 2 == b % 2 then 0 else 1)
    ensures BitXor(a, b) / 2 == BitXor(a / 2, b / 2)
  {
  }

  /** Zero is the neutral element. */
  lemma {:induction false} BitXorZero(a: nat)
    ensures BitXor(a, 0) == a
  {
    if a != 0 {
      BitXorZero(a / 2);
    }
  }

  /** Every number cancels itself. */
  lemma {:induction false} BitXorSelf(a: nat)
    ensures BitXor(a, a) == 0
  {
    if a != 0 {
      BitXorSelf(a / 2);
    }
  }

  /** Exclusive or is commutative. */
  lemma {:induction false} BitXorComm(a: nat, b: nat)
    ensures BitXor(a, b) == BitXor(b, a)
    decreases a + b
  {
    if a != 0 || b != 0 {
      BitXorComm(a / 2, b / 2);
    }
  }

  /** Exclusive or is associative. */
  lemma {:induction false} BitXorAssoc(a: nat, b: nat, c: nat)
    ensures BitXor(BitXor(a, b), c) == BitXor(a, BitXor(b, c))
    decreases a + b + c
  {
    if a == 0 && b == 0 && c == 0 {
      assert BitXor(0, 0) == 0;
    } else {
      var ab, bc := BitXor(a, b), BitXor(b, c);
      var l, r := BitXor(ab, c), BitXor(a, bc);
      BitXorSplit(a, b);
      BitXorSplit(b, c);
      BitXorSplit(ab, c);
      BitXorSplit(a, bc);
      BitXorAssoc(a / 2, b / 2, c / 2);
      assert l / 2 == r / 2;
      assert l % 2 == r % 2;
    }
  }

  /** Exclusive or never sets a bit above the highest bit of its operands. */
  lemma {:induction false} BitXorBelow(a: nat, b: nat, m: nat)
    requires IsPow2(m) && a < m && b < m
    ensures BitXor(a, b) < m
    decreases m
  {
    if m > 1 && (a != 0 || b != 0) {
      BitXorBelow(a / 2, b / 2, m / 2);
    }
  }

  /** Doubling a power of two gives a power of two. */
  lemma IsPow2Double(m: nat)
    requires IsPow2(m)
    ensures IsPow2(2 * m)
  {
  }

  /** The product of two powers of two is a power of two. */
  lemma {:induction false} IsPow2Mul(m: nat, n: nat)
    requires IsPow2(m) && IsPow2(n)
    ensures IsPow2(m * n)
    decreases n
  {
    if n > 1 {
      IsPow2Mul(m, n / 2);
      assert m * n == 2 * (m * (n / 2)) by {
        assert n == 2 * (n / 2);
      }
      IsPow2Double(m * (n / 2));
    }
  }

  /** Two to the 64 is a power of two. */
  lemma Modulus64IsPow2()
    ensures IsPow2(0x1_0000_0000_0000_0000)
  {
    IsPow2Double(1);
    IsPow2Mul(2, 2);
    IsPow2Mul(4, 4);
    IsPow2Mul(0x10, 0x10);
    IsPow2Mul(0x100, 0x100);
    IsPow2Mul(0x1_0000, 0x1_0000);
    IsPow2Mul(0x1_0000_0000, 0x1_0000_0000);
  }

  /** The exclusive or of two 64-bit numbers fits in 64 bits. */
  lemma BitXorFits(a: u64, b: u64)
    ensures BitXor(a, b) < 0x1_0000_0000_0000_0000
  {
    Modulus64IsPow2();
    BitXorBelow(a, b, 0x1_0000_0000_0000_0000);
  }

  /** Bit `i` of `n`, counting from the least significant bit. */
  function Bit(n: nat, i: nat): nat
    decreases i
  {
    if i == 0 then n % 2 else Bit(n / 2, i - 1)
  }

  /** Each bit of an exclusive or is set exactly when the two inputs differ
      in that bit. */
  lemma {:induction false} BitXorBit(a: nat, b: nat, i: nat)
    ensures Bit(BitXor(a, b), i) == (if Bit(a, i) == Bit(b, i) then 0 else 1)
    decreases i
  {
    BitXorSplit(a, b);
    if i > 0 {
      BitXorBit(a / 2, b / 2, i - 1);
    }
  }

  /** Rust's `^` on `u64`: the bitwise exclusive or, which never leaves the
      64-bit range. */
  function Xor(a: u64, b: u64): (r: u64)
    ensures forall i: nat :: Bit(r, i) == (if Bit(a, i) == Bit(b, i) then 0 else 1)
  {
    BitXorFits(a, b);
    forall i: nat
      ensures Bit(BitXor(a, b), i) == (if Bit(a, i) == Bit(b, i) then 0 else 1)
    {
      BitXorBit(a, b, i);
    }
    BitXor(a, b)
  }

  /** Two worked values: 3 ^ 4 == 7 and 12 ^ 10 == 6. */
  lemma XorExamples()
    ensures Xor(3, 4) == 7 && Xor(12, 10) == 6
  {
  }

  /** Re-bracketing a three-way exclusive or. */
  lemma XorAssoc(p: u64, q: u64, r: u64)
    ensures Xor(Xor(p, q), r) == Xor(p, Xor(q, r))
  {
    BitXorAssoc(p, q, r);
  }

  /** Exclusive or on `u64` is commutative. */
  lemma XorComm(p: u64, q: u64)
    ensures Xor(p, q) == Xor(q, p)
  {
    BitXorComm(p, q);
  }

  /** Zero is the neutral element on either side. */
  lemma XorZero(p: u64)
    ensures Xor(p, 0) == p && Xor(0, p) == p
  {
    BitXorZero(p);
    BitXorComm(p, 0);
  }

  /** A value XORed with itself is zero, and XORing the same value in twice
      gives back what was there. */
  lemma XorSelfInverse(p: u64, q: u64)
    ensures Xor(q, q) == 0
    ensures Xor(Xor(p, q), q) == p
  {
    BitXorSelf(q);
    XorAssoc(p, q, q);
    XorZero(p);
  }

  /** XORing with a fixed value is injective. */
  lemma XorCancel(p: u64, q: u64, r: u64)
    requires Xor(p, q) == Xor(p, r)
    ensures q == r
  {
    XorSelfInverse(q, p);
    XorSelfInverse(r, p);
    XorComm(p, q);
    XorComm(p, r);
  }

  /** An exclusive or is zero exactly when its operands are equal. */
  lemma XorZeroIff(p: u64, q: u64)
    ensures Xor(p, q) == 0 <==> p == q
  {
    XorSelfInverse(0, p);
    if Xor(p, q) == 0 {
      XorCancel(p, q, p);
    }
  }
}
