/** Bitwise operations on machine words, written on the naturals they stand for. */
module Bits {

  function Pow2(n: nat): (p: nat)
    ensures p > 0
  {
    if n == 0 then 1 else 2 * Pow2(n - 1)
  }

  lemma {:induction false} Pow2Add(m: nat, n: nat)
    ensures Pow2(m + n) == Pow2(m) * Pow2(n)
  {
    if m == 0 {
    } else {
      Pow2Add(m - 1, n);
    }
  }

  lemma {:induction false} Pow2Monotone(m: nat, n: nat)
    requires m <= n
    ensures Pow2(m) <= Pow2(n)
  {
    if m < n {
      Pow2Monotone(m, n - 1);
    }
  }

  lemma Pow2Constants()
    ensures Pow2(7) == 128 && Pow2(63) == 0x8000_0000_0000_0000 && Pow2(64) == 0x1_0000_0000_0000_0000
  {
    assert Pow2(7) == 128;
    assert Pow2(14) == 128 * 128 by { Pow2Add(7, 7); }
    assert Pow2(28) == 0x1000_0000 by { Pow2Add(14, 14); }
    assert Pow2(56) == 0x100_0000_0000_0000 by { Pow2Add(28, 28); }
    assert Pow2(63) == 0x8000_0000_0000_0000 by { Pow2Add(56, 7); }
  }

  /** Bitwise or. */
  function Or(a: nat, b: nat): nat
    decreases a + b
  {
    if a == 0 && b == 0 then 0
    else (if a % 2 == 1 || b % 2 == 1 then 1 else 0) + 2 * Or(a / 2, b / 2)
  }

  /** Bitwise exclusive or. */
  function Xor(a: nat, b: nat): nat
    decreases a + b
  {
    if a == 0 && b == 0 then 0
    else (if a % 2 != b % 2 then 1 else 0) + 2 * Xor(a / 2, b / 2)
  }

  /** Bit `k` of a word. */
  predicate Bit(a: nat, k: nat) {
    if k == 0 then a % 2 == 1 else Bit(a / 2, k - 1)
  }

  lemma {:induction false} BitsOfZero(k: nat)
    ensures !Bit(0, k)
  {
    if k == 0 {
    } else {
      BitsOfZero(k - 1);
    }
  }

  lemma {:induction false} BitsOfOr(a: nat, b: nat, k: nat)
    ensures Bit(Or(a, b), k) <==> Bit(a, k) || Bit(b, k)
    decreases k
  {
    if a == 0 && b == 0 {
      BitsOfZero(k);
    } else if k > 0 {
      BitsOfOr(a / 2, b / 2, k - 1);
      assert Or(a, b) / 2 == Or(a / 2, b / 2);
    }
  }

  lemma {:induction false} BitsOfXor(a: nat, b: nat, k: nat)
    ensures Bit(Xor(a, b), k) <==> Bit(a, k) != Bit(b, k)
    decreases k
  {
    if a == 0 && b == 0 {
      BitsOfZero(k);
    } else if k > 0 {
      BitsOfXor(a / 2, b / 2, k - 1);
      assert Xor(a, b) / 2 == Xor(a / 2, b / 2);
    }
  }

  /** The same word taken twice is taken back. */
  lemma {:induction false} XorCancels(a: nat, b: nat)
    ensures Xor(Xor(a, b), b) == a
    decreases a + b
  {
    if a == 0 && b == 0 {
    } else {
      XorCancels(a / 2, b / 2);
      var x := Xor(a, b);
      assert x / 2 == Xor(a / 2, b / 2) && (x % 2 == 1 <==> a % 2 != b % 2);
    }
  }

  lemma {:induction false} XorCommutes(a: nat, b: nat)
    ensures Xor(a, b) == Xor(b, a)
    decreases a + b
  {
    if a == 0 && b == 0 {
    } else {
      XorCommutes(a / 2, b / 2);
    }
  }

  /** So either word is determined by the other and their exclusive or. */
  lemma XorTells(a: nat, b: nat, c: nat)
    ensures Xor(a, b) == Xor(c, b) ==> a == c
    ensures Xor(b, a) == Xor(b, c) ==> a == c
  {
    XorCancels(a, b);
    XorCancels(c, b);
    XorCommutes(a, b);
    XorCommutes(c, b);
  }

  /** Disjoint bit ranges: the or of a short word and a shifted one is their sum. */
  lemma {:induction false} OrOfShifted(a: nat, c: nat, n: nat)
    requires a < Pow2(n)
    ensures Or(a, c * Pow2(n)) == a + c * Pow2(n)
  {
    if n == 0 {
      OrZero(c);
    } else {
      var b := c * Pow2(n);
      assert b == 2 * (c * Pow2(n - 1));
      assert b % 2 == 0 && b / 2 == c * Pow2(n - 1);
      OrOfShifted(a / 2, c, n - 1);
    }
  }

  lemma {:induction false} OrZero(c: nat)
    ensures Or(0, c) == c
  {
    if c == 0 {
    } else {
      OrZero(c / 2);
    }
  }

  /** Words of `n` bits are closed under exclusive or. */
  lemma {:induction false} XorStaysInWord(a: nat, b: nat, n: nat)
    requires a < Pow2(n) && b < Pow2(n)
    ensures Xor(a, b) < Pow2(n)
  {
    if n > 0 && (a > 0 || b > 0) {
      XorStaysInWord(a / 2, b / 2, n - 1);
    }
  }
}
