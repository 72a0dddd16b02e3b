/** Polynomials over GF(2), written as the numbers whose binary digits are their coefficients. */
module Gf2 {

  function Xor(a: nat, b: nat): nat
    decreases a
  {
    if a == 0 then b else if b == 0 then a else Differ(a, b) + 2 * Xor(a / 2, b / 2)
  }

  /** The sum of the last digits. */
  function Differ(a: nat, b: nat): nat {
    if a % 2 == b % 2 then 0 else 1
  }

  function Shl(a: nat, k: nat): nat {
    if k == 0 then a else 2 * Shl(a, k - 1)
  }

  predicate Bit(a: nat, k: nat) {
    if k == 0 then a % 2 == 1 else Bit(a / 2, k - 1)
  }

  /** Carry-less multiplication. */
  function Clmul(q: nat, g: nat): nat {
    if q == 0 then 0 else Xor(if q % 2 == 1 then g else 0, 2 * Clmul(q / 2, g))
  }

  // ----- addition -----

  lemma {:induction false} XorDigits(a: nat, b: nat)
    ensures Xor(a, b) % 2 == Differ(a, b) && Xor(a, b) / 2 == Xor(a / 2, b / 2)
  {
    if a != 0 && b != 0 {
      Digits(Differ(a, b), Xor(a / 2, b / 2));
    }
  }

  lemma Digits(d: nat, x: nat)
    requires d < 2
    ensures (d + 2 * x) % 2 == d && (d + 2 * x) / 2 == x
  {
  }

  lemma {:induction false} XorComm(a: nat, b: nat)
    ensures Xor(a, b) == Xor(b, a)
    decreases a
  {
    if a != 0 && b != 0 {
      XorComm(a / 2, b / 2);
    }
  }

  lemma {:induction false} XorAssoc(a: nat, b: nat, c: nat)
    ensures Xor(Xor(a, b), c) == Xor(a, Xor(b, c))
    decreases a + b + c
  {
    if a == 0 || b == 0 || c == 0 {
      XorZero(Xor(a, b));
      XorZero(b);
    } else {
      hide Xor;
      XorAssoc(a / 2, b / 2, c / 2);
      XorDigits(a, b);
      XorDigits(b, c);
      XorDigits(Xor(a, b), c);
      XorDigits(a, Xor(b, c));
    }
  }

  lemma XorSelf(a: nat)
    ensures Xor(a, a) == 0
  {
  }

  lemma XorZero(a: nat)
    ensures Xor(a, 0) == a && Xor(0, a) == a
  {
  }

  lemma XorCancel(a: nat, b: nat)
    ensures Xor(Xor(a, b), b) == a
  {
    XorAssoc(a, b, b);
    XorSelf(b);
  }

  lemma XorZeroIsEqual(a: nat, b: nat)
    requires Xor(a, b) == 0
    ensures a == b
  {
    XorCancel(a, b);
  }

  /** (a + b) + (c + d) == (a + c) + (b + d) */
  lemma XorSwap(a: nat, b: nat, c: nat, d: nat)
    ensures Xor(Xor(a, b), Xor(c, d)) == Xor(Xor(a, c), Xor(b, d))
  {
    XorAssoc(a, b, Xor(c, d));
    XorAssoc(b, c, d);
    XorComm(b, c);
    XorAssoc(c, b, d);
    XorAssoc(a, c, Xor(b, d));
  }

  lemma XorDouble(a: nat, b: nat)
    ensures Xor(2 * a, 2 * b) == 2 * Xor(a, b)
  {
    hide Xor;
    XorDigits(2 * a, 2 * b);
    Digits(0, a);
    Digits(0, b);
  }

  lemma {:induction false} XorShl(a: nat, b: nat, k: nat)
    ensures Xor(Shl(a, k), Shl(b, k)) == Shl(Xor(a, b), k)
    decreases k
  {
    if k > 0 {
      XorShl(a, b, k - 1);
      XorDouble(Shl(a, k - 1), Shl(b, k - 1));
    }
  }

  lemma {:induction false} XorBit(a: nat, b: nat, k: nat)
    ensures Bit(Xor(a, b), k) <==> (Bit(a, k) != Bit(b, k))
    decreases k
  {
    XorDigits(a, b);
    if k > 0 {
      XorBit(a / 2, b / 2, k - 1);
    }
  }

  // ----- size -----

  lemma {:induction false} XorBelow(a: nat, b: nat, n: nat)
    requires a < Shl(1, n) && b < Shl(1, n)
    ensures Xor(a, b) < Shl(1, n)
    decreases n
  {
    if n > 0 {
      XorBelow(a / 2, b / 2, n - 1);
      XorDigits(a, b);
    }
  }

  /** Adding something smaller keeps the leading digit. */
  lemma {:induction false} XorKeepsTop(a: nat, b: nat, n: nat)
    requires a < Shl(1, n) <= b < Shl(1, n + 1)
    ensures Shl(1, n) <= Xor(a, b) < Shl(1, n + 1)
    decreases n
  {
    if n > 0 {
      XorKeepsTop(a / 2, b / 2, n - 1);
      XorDigits(a, b);
    }
  }

  /** Two equal leading digits cancel. */
  lemma {:induction false} XorDropsTop(a: nat, b: nat, n: nat)
    requires Shl(1, n) <= a < Shl(1, n + 1) && Shl(1, n) <= b < Shl(1, n + 1)
    ensures Xor(a, b) < Shl(1, n)
    decreases n
  {
    if n > 0 {
      XorDropsTop(a / 2, b / 2, n - 1);
      XorDigits(a, b);
    }
  }

  lemma {:induction false} TopBit(a: nat, n: nat)
    requires a < Shl(1, n + 1)
    ensures Bit(a, n) <==> a >= Shl(1, n)
    decreases n
  {
    if n > 0 {
      TopBit(a / 2, n - 1);
    }
  }

  lemma ShlAdd(a: nat, j: nat, k: nat)
    ensures Shl(Shl(a, j), k) == Shl(a, j + k)
    decreases k
  {
  }

  lemma ShlMono(a: nat, b: nat, k: nat)
    ensures a <= b ==> Shl(a, k) <= Shl(b, k)
    ensures a < b ==> Shl(a, k) < Shl(b, k)
  {
  }

  /** Some power of two lies at or just below a positive number. */
  lemma {:induction false} Degree(q: nat) returns (m: nat)
    requires q > 0
    ensures Shl(1, m) <= q < Shl(1, m + 1)
  {
    if q == 1 {
      m := 0;
    } else {
      var h := Degree(q / 2);
      m := h + 1;
    }
  }

  // ----- multiplication -----

  function Times(bit: nat, g: nat): nat {
    if bit % 2 == 1 then g else 0
  }

  lemma ClmulStep(q: nat, g: nat)
    ensures Clmul(q, g) == Xor(Times(q, g), 2 * Clmul(q / 2, g))
  {
  }

  /** Multiplication distributes over addition. */
  lemma {:induction false} ClmulXor(p: nat, q: nat, g: nat)
    ensures Clmul(Xor(p, q), g) == Xor(Clmul(p, g), Clmul(q, g))
    decreases p
  {
    if p != 0 {
      hide Xor, Clmul;
      var x := Xor(p, q);
      XorDigits(p, q);
      ClmulXor(p / 2, q / 2, g);
      ClmulStep(p, g);
      ClmulStep(q, g);
      ClmulStep(x, g);
      XorDouble(Clmul(p / 2, g), Clmul(q / 2, g));
      XorSwap(Times(p, g), 2 * Clmul(p / 2, g), Times(q, g), 2 * Clmul(q / 2, g));
      TimesXor(p, q, g);
    } else {
      XorZero(q);
      XorZero(Clmul(q, g));
    }
  }

  lemma TimesXor(p: nat, q: nat, g: nat)
    ensures Times(Xor(p, q), g) == Xor(Times(p, g), Times(q, g))
  {
    hide Xor;
    XorDigits(p, q);
    XorSelf(g);
    XorZero(g);
    XorZero(0);
  }

  lemma {:induction false} ClmulShl(q: nat, g: nat, k: nat)
    ensures Clmul(Shl(q, k), g) == Shl(Clmul(q, g), k)
    decreases k
  {
    if k > 0 {
      ClmulShl(q, g, k - 1);
      ClmulStep(Shl(q, k), g);
    }
  }

  lemma ClmulOne(g: nat)
    ensures Clmul(1, g) == g
  {
    XorZero(g);
  }

  /** Degrees add up: multiplying by a polynomial of degree 3 raises the degree by 3. */
  lemma {:induction false} ClmulDegree(q: nat, g: nat, m: nat)
    requires 8 <= g < 16 && Shl(1, m) <= q < Shl(1, m + 1)
    ensures Shl(1, m + 3) <= Clmul(q, g) < Shl(1, m + 4)
    decreases m
  {
    if m == 0 {
      ClmulOne(g);
    } else {
      ClmulDegree(q / 2, g, m - 1);
      ClmulStep(q, g);
      assert Times(q, g) < Shl(1, m + 3) by {
        ShlMono(1, Shl(1, m - 1), 4);
        ShlAdd(1, m - 1, 4);
      }
      XorKeepsTop(Times(q, g), 2 * Clmul(q / 2, g), m + 3);
    }
  }
}
