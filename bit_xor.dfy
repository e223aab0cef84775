/** Bitwise exclusive or on non-negative integers, the operation behind
    Zobrist hashing, with the algebra that lets a hash be updated square by
    square. */
module BitXor {

  /** The bitwise exclusive or of a and b: the lowest bits combined, then the
      rest shifted down by one. */
  function Xor(a: nat, b: nat): nat
    decreases a + b
  {
    if a == 0 && b == 0 then 0 else 2 * Xor(a / 2, b / 2) + (if a % 2 == b % 2 then 0 else 1)
  }

  function Pow2(k: nat): nat
  {
    if k == 0 then 1 else 2 * Pow2(k - 1)
  }

  lemma {:induction false} Pow2Positive(k: nat)
    ensures Pow2(k) >= 1
  {
    if k > 0 {
      Pow2Positive(k - 1);
    }
  }

  /** Two numbers with the same lowest bit and the same higher bits are
      equal. */
  lemma SameBits(x: nat, y: nat)
    requires x / 2 == y / 2 && x % 2 == y % 2
    ensures x == y
  {
  }

  /** The lowest bit of a ^ b is set when the lowest bits differ; the higher
      bits are the exclusive or of the higher bits. */
  lemma XorBits(a: nat, b: nat)
    ensures Xor(a, b) / 2 == Xor(a / 2, b / 2)
    ensures Xor(a, b) % 2 == if a % 2 == b % 2 then 0 else 1
  {
    if a == 0 && b == 0 {
      assert Xor(a / 2, b / 2) == 0;
    }
  }

  lemma {:induction false} XorZero(a: nat)
    ensures Xor(a, 0) == a
    decreases a
  {
    if a != 0 {
      XorZero(a / 2);
    }
  }

  lemma {:induction false} XorSelf(a: nat)
    ensures Xor(a, a) == 0
    decreases a
  {
    if a != 0 {
      XorSelf(a / 2);
    }
  }

  lemma {:induction false} XorComm(a: nat, b: nat)
    ensures Xor(a, b) == Xor(b, a)
    decreases a + b
  {
    if a != 0 || b != 0 {
      XorComm(a / 2, b / 2);
    }
  }

  lemma {:induction false} XorAssoc(a: nat, b: nat, c: nat)
    ensures Xor(Xor(a, b), c) == Xor(a, Xor(b, c))
    decreases a + b + c
  {
    if a != 0 || b != 0 || c != 0 {
      var ab, bc := Xor(a, b), Xor(b, c);
      XorAssoc(a / 2, b / 2, c / 2);
      XorBits(a, b);
      XorBits(b, c);
      XorBits(ab, c);
      XorBits(a, bc);
      SameBits(Xor(ab, c), Xor(a, bc));
    } else {
      assert Xor(a, b) == 0 && Xor(b, c) == 0;
    }
  }

  /** Exclusive or of numbers below 2^k stays below 2^k: keys below 2^63 give
      a hash that is a non-negative 64-bit integer. */
  lemma {:induction false} XorBound(a: nat, b: nat, k: nat)
    requires a < Pow2(k) && b < Pow2(k)
    ensures Xor(a, b) < Pow2(k)
  {
    if k > 0 && (a != 0 || b != 0) {
      XorBound(a / 2, b / 2, k - 1);
    }
  }

  /** Swapping one operand: x ^ a becomes x ^ b by exclusive-oring a ^ b. */
  lemma XorSwap(x: nat, a: nat, b: nat)
    ensures Xor(x, b) == Xor(Xor(x, a), Xor(a, b))
  {
    XorAssoc(x, a, Xor(a, b));
    XorAssoc(a, a, b);
    XorSelf(a);
    XorComm(0, b);
    XorZero(b);
  }

  /** Exclusive-oring d and then k is exclusive-oring k and then d. */
  lemma XorShuffle(x: nat, d: nat, k: nat)
    ensures Xor(Xor(x, d), k) == Xor(Xor(x, k), d)
  {
    XorAssoc(x, d, k);
    XorComm(d, k);
    XorAssoc(x, k, d);
  }
}
