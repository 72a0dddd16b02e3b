/** Cyclic redundancy check by shifting and adding (MP3/crc/crc.cpp). */
module Crc {
  import opened Gf2

  /** The loop of generate_crc with i counting down from n + 3 to 4. */
  function Divide(g: nat, n: nat, crc: nat): nat {
    if n == 0 then crc
    else Divide(g, n - 1, if Bit(crc, n + 2) then Xor(crc, Shl(g, n - 1)) else crc)
  }

  function Remainder(g: nat, inBits: nat, data: nat): nat {
    Divide(g, inBits, Shl(data, 3))
  }

  method GenerateCrc(generator: nat, inBits: nat, data: nat) returns (crc: nat)
    ensures crc == Remainder(generator, inBits, data)
  {
    crc := Shl(data, 3);
    var i := inBits + 3;
    while i >= 4
      invariant 3 <= i <= inBits + 3
      invariant Divide(generator, i - 3, crc) == Remainder(generator, inBits, data)
    {
      var shiftGen := Shl(generator, i - 4);
      if Bit(crc, i - 1) {
        crc := Xor(crc, shiftGen);
      }
      i := i - 1;
    }
  }

  /** A four-digit generator: its top bit, x^3, is set. */
  predicate Cubic(g: nat) {
    8 <= g < 16
  }

  /** What a CRC is: the r of degree below 3 that makes data * x^3 + r a multiple of the generator. */
  ghost predicate IsRemainder(g: nat, data: nat, r: nat) {
    r < 8 && exists q: nat :: IsQuotient(g, data, r, q)
  }

  predicate IsQuotient(g: nat, data: nat, r: nat, q: nat) {
    Xor(Shl(data, 3), r) == Clmul(q, g)
  }

  /** Each pass of the loop clears one more top bit and stays congruent to where it started. */
  lemma {:induction false} DivideCorrect(g: nat, n: nat, crc: nat) returns (q: nat)
    requires Cubic(g) && crc < Shl(1, n + 3)
    ensures Divide(g, n, crc) < 8
    ensures Xor(crc, Divide(g, n, crc)) == Clmul(q, g)
    decreases n
  {
    hide Xor, Bit;
    if n == 0 {
      XorSelf(crc);
      q := 0;
    } else {
      var r := Divide(g, n, crc);
      TopBit(crc, n + 2);
      if Bit(crc, n + 2) {
        var s := Shl(g, n - 1);
        ShiftedGenerator(g, n - 1);
        XorDropsTop(crc, s, n + 2);
        var q' := DivideCorrect(g, n - 1, Xor(crc, s));
        q := Xor(q', Shl(1, n - 1));
        hide Clmul, Divide, Shl;
        ClmulXor(q', Shl(1, n - 1), g);
        ClmulShl(1, g, n - 1);
        ClmulOne(g);
        XorComm(crc, s);
        XorAssoc(s, crc, r);
        XorComm(s, Xor(crc, r));
        XorCancel(Xor(crc, r), s);
      } else {
        q := DivideCorrect(g, n - 1, crc);
      }
    }
  }

  lemma ShiftedGenerator(g: nat, k: nat)
    requires Cubic(g)
    ensures Shl(1, k + 3) <= Shl(g, k) < Shl(1, k + 4)
  {
    ShlMono(8, g, k);
    ShlMono(g, 16, k);
    ShlAdd(1, 3, k);
    ShlAdd(1, 4, k);
  }

  lemma RemainderUnique(g: nat, data: nat, r: nat, r': nat)
    requires Cubic(g) && IsRemainder(g, data, r) && IsRemainder(g, data, r')
    ensures r == r'
  {
    hide Xor, Clmul, Shl;
    var q :| IsQuotient(g, data, r, q);
    var q' :| IsQuotient(g, data, r', q');
    var d := Shl(data, 3);
    XorSwap(d, r, d, r');
    XorSelf(d);
    XorZero(Xor(r, r'));
    ClmulXor(q, q', g);
    SmallMultiple(g, Xor(q, q'), Xor(r, r')) by { XorOfRests(r, r'); }
    XorZeroIsEqual(r, r');
  }

  lemma XorOfRests(a: nat, b: nat)
    requires a < 8 && b < 8
    ensures Xor(a, b) < 8
  {
    XorBelow(a, b, 3);
  }

  /** The only multiple of the generator of degree below 3 is zero. */
  lemma SmallMultiple(g: nat, q: nat, x: nat)
    requires Cubic(g) && x < 8 && Clmul(q, g) == x
    ensures q == 0 && x == 0
  {
    if q > 0 {
      var m := Degree(q);
      ClmulDegree(q, g, m);
      assert false;
    }
  }

  /** generate_crc computes the remainder, and there is only one. */
  lemma RemainderCorrect(g: nat, n: nat, data: nat, r: nat)
    requires Cubic(g) && data < Shl(1, n)
    ensures IsRemainder(g, data, r) <==> r == Remainder(g, n, data)
  {
    hide Xor, Clmul, Divide;
    ShlMono(data, Shl(1, n), 3);
    ShlAdd(1, n, 3);
    var q := DivideCorrect(g, n, Shl(data, 3));
    assert IsQuotient(g, data, Remainder(g, n, data), q);
    if IsRemainder(g, data, r) {
      RemainderUnique(g, data, r, Remainder(g, n, data));
    }
  }

  /** Leading zeros do not matter. */
  lemma WidthDoesNotMatter(g: nat, m: nat, n: nat, data: nat)
    requires Cubic(g) && data < Shl(1, m) && data < Shl(1, n)
    ensures Remainder(g, m, data) == Remainder(g, n, data)
  {
    hide Divide, Shl;
    RemainderCorrect(g, m, data, Remainder(g, m, data));
    RemainderCorrect(g, n, data, Remainder(g, m, data));
  }

  /** The CRC of a sum is the sum of the CRCs. */
  lemma Linear(g: nat, n: nat, a: nat, b: nat)
    requires Cubic(g) && a < Shl(1, n) && b < Shl(1, n)
    ensures Xor(a, b) < Shl(1, n)
    ensures Remainder(g, n, Xor(a, b)) == Xor(Remainder(g, n, a), Remainder(g, n, b))
  {
    hide Xor, Clmul, Divide, Shl, Remainder;
    XorBelow(a, b, n);
    var ra, rb := Remainder(g, n, a), Remainder(g, n, b);
    RemainderCorrect(g, n, a, ra);
    RemainderCorrect(g, n, b, rb);
    var qa :| IsQuotient(g, a, ra, qa);
    var qb :| IsQuotient(g, b, rb, qb);
    XorOfRests(ra, rb);
    XorSwap(Shl(a, 3), ra, Shl(b, 3), rb);
    XorShl(a, b, 3);
    ClmulXor(qa, qb, g);
    assert IsQuotient(g, Xor(a, b), Xor(ra, rb), Xor(qa, qb));
    RemainderCorrect(g, n, Xor(a, b), Xor(ra, rb));
  }

  // ----- generators with the bottom bit set -----

  lemma {:induction false} OddGeneratorDivides(g: nat, q: nat, x: nat, k: nat) returns (q': nat)
    requires g % 2 == 1 && Clmul(q, g) == Shl(x, k)
    ensures q == Shl(q', k) && Clmul(q', g) == x
    decreases k
  {
    if k == 0 {
      q' := q;
    } else {
      ClmulStep(q, g);
      hide Xor, Clmul;
      var rest := 2 * Clmul(q / 2, g);
      XorDigits(Times(q, g), rest);
      assert q % 2 == 0;
      XorZero(rest);
      q' := OddGeneratorDivides(g, q / 2, x, k - 1);
    }
  }

  /** A word has remainder zero exactly when it is itself a multiple of the generator. */
  lemma ZeroRemainder(g: nat, n: nat, data: nat)
    requires Cubic(g) && g % 2 == 1 && data < Shl(1, n)
    ensures Remainder(g, n, data) == 0 <==> exists q: nat :: data == Clmul(q, g)
  {
    hide Xor, Clmul, Divide, Shl, Remainder;
    RemainderCorrect(g, n, data, 0);
    XorZero(Shl(data, 3));
    if Remainder(g, n, data) == 0 {
      var q :| IsQuotient(g, data, 0, q);
      var q' := OddGeneratorDivides(g, q, data, 3);
    }
    if q: nat :| data == Clmul(q, g) {
      ClmulShl(q, g, 3);
      assert IsQuotient(g, data, 0, Shl(q, 3));
    }
  }

  /** Every error confined to three adjacent bits is detected. */
  lemma BurstDetected(g: nat, n: nat, p: nat, k: nat)
    requires Cubic(g) && g % 2 == 1 && 0 < p < 8 && Shl(p, k) < Shl(1, n)
    ensures Remainder(g, n, Shl(p, k)) != 0
  {
    hide Xor, Clmul, Divide, Remainder;
    if Remainder(g, n, Shl(p, k)) == 0 {
      ZeroRemainder(g, n, Shl(p, k));
      var q: nat :| Shl(p, k) == Clmul(q, g);
      var q' := OddGeneratorDivides(g, q, p, k);
      SmallMultiple(g, q', p);
      assert false;
    }
  }

  // ----- how many words pass -----

  ghost function Multiples(g: nat, m: nat): set<nat> {
    set q: nat | q < m :: Clmul(q, g)
  }

  lemma ClmulInjective(g: nat, p: nat, q: nat)
    requires Cubic(g) && Clmul(p, g) == Clmul(q, g)
    ensures p == q
  {
    hide Xor, Clmul;
    ClmulXor(p, q, g);
    XorSelf(Clmul(q, g));
    SmallMultiple(g, Xor(p, q), 0);
    XorZeroIsEqual(p, q);
  }

  lemma {:induction false} CountMultiples(g: nat, m: nat)
    requires Cubic(g)
    ensures |Multiples(g, m)| == m
    decreases m
  {
    hide Clmul;
    if m == 0 {
      assert Multiples(g, 0) == {};
    } else {
      CountMultiples(g, m - 1);
      var last := Clmul(m - 1, g);
      assert Multiples(g, m) == Multiples(g, m - 1) + {last};
      if last in Multiples(g, m - 1) {
        var q: nat :| q < m - 1 && Clmul(q, g) == last;
        ClmulInjective(g, q, m - 1);
      }
    }
  }

  lemma MultiplesBelow(g: nat, m: nat, q: nat)
    requires Cubic(g)
    ensures Clmul(q, g) < Shl(1, m + 3) <==> q < Shl(1, m)
  {
    hide Clmul, Xor;
    ShlPositive(m + 3);
    ShlPositive(m);
    if q > 0 {
      var d := Degree(q);
      ClmulDegree(q, g, d);
      if d < m {
        PowersGrow(d + 1, m);
        PowersGrow(d + 4, m + 3);
      } else {
        PowersGrow(m, d);
        PowersGrow(m + 3, d + 3);
      }
    } else {
      assert Clmul(0, g) == 0 by { ClmulZero(g); }
    }
  }

  lemma ClmulZero(g: nat)
    ensures Clmul(0, g) == 0
  {
  }

  lemma ShlPositive(m: nat)
    ensures Shl(1, m) > 0
  {
  }

  lemma PowersGrow(m: nat, n: nat)
    requires m <= n
    ensures Shl(1, m) <= Shl(1, n)
    decreases n
  {
    if m < n {
      PowersGrow(m, n - 1);
    }
  }

  lemma PassingWords(g: nat, n: nat, d: nat)
    requires Cubic(g) && g % 2 == 1 && n >= 3
    ensures d < Shl(1, n) && Remainder(g, n, d) == 0 <==> d in Multiples(g, Shl(1, n - 3))
  {
    hide Clmul, Remainder, Xor, Shl;
    if d < Shl(1, n) && Remainder(g, n, d) == 0 {
      ZeroRemainder(g, n, d);
      var q: nat :| d == Clmul(q, g);
      MultiplesBelow(g, n - 3, q);
    }
    if d in Multiples(g, Shl(1, n - 3)) {
      var q: nat :| q < Shl(1, n - 3) && d == Clmul(q, g);
      MultiplesBelow(g, n - 3, q);
      ZeroRemainder(g, n, d);
    }
  }

  /** Exactly one data word in eight has remainder zero. */
  lemma OneInEight(g: nat, n: nat)
    requires Cubic(g) && g % 2 == 1 && n >= 3
    ensures |set d: nat | d < Shl(1, n) && Remainder(g, n, d) == 0| == Shl(1, n - 3)
    ensures 8 * Shl(1, n - 3) == Shl(1, n)
  {
    var passing := set d: nat | d < Shl(1, n) && Remainder(g, n, d) == 0;
    assert Shl(1, n) == 2 * Shl(1, n - 1) == 4 * Shl(1, n - 2) == 8 * Shl(1, n - 3);
    hide Clmul, Remainder, Xor, Shl, Multiples;
    forall d: nat ensures d in passing <==> d in Multiples(g, Shl(1, n - 3)) {
      PassingWords(g, n, d);
    }
    assert passing == Multiples(g, Shl(1, n - 3));
    CountMultiples(g, Shl(1, n - 3));
  }

  // ----- generator 9 -----

  /** Exclusive or of the word's groups of three digits. */
  function Fold(d: nat): nat {
    if d < 8 then d else Xor(d % 8, Fold(d / 8))
  }

  lemma {:induction false} FoldSmall(d: nat)
    ensures Fold(d) < 8
  {
    if d >= 8 {
      FoldSmall(d / 8);
      XorOfRests(d % 8, Fold(d / 8));
    }
  }

  lemma XorLastDigit(b: nat, u: nat, v: nat)
    requires b < 2
    ensures Xor(b + 2 * u, 2 * v) == b + 2 * Xor(u, v)
  {
    hide Xor;
    XorDigits(b + 2 * u, 2 * v);
    Digits(b, u);
    Digits(0, v);
  }

  /** x < 8 and a multiple of 8 have no digits in common. */
  lemma XorGroups(x: nat, y: nat)
    requires x < 8
    ensures Xor(x, 8 * y) == x + 8 * y
  {
    hide Xor;
    var a, b, c := x % 2, x / 2 % 2, x / 4;
    assert x == a + 2 * (b + 2 * c);
    XorLastDigit(a, b + 2 * c, 4 * y);
    XorLastDigit(b, c, 2 * y);
    XorLastDigit(c, 0, y);
    XorZero(y);
  }

  /** Multiplying by 9 is adding the word to itself shifted by three. */
  lemma {:induction false} TimesNine(d: nat)
    ensures Clmul(d, 9) == Xor(d, 8 * d)
  {
    hide Xor;
    if d == 0 {
      XorZero(0);
    } else {
      TimesNine(d / 2);
      hide Clmul;
      TimesNineStep(d % 2, d / 2);
    }
  }

  lemma TimesNineStep(b: nat, h: nat)
    requires b < 2 && Clmul(h, 9) == Xor(h, 8 * h)
    ensures Clmul(b + 2 * h, 9) == Xor(b + 2 * h, 8 * (b + 2 * h))
  {
    hide Clmul, Xor;
    var d := b + 2 * h;
    ClmulStep(d, 9);
    Digits(b, h);
    XorDouble(h, 8 * h);
    XorSwap(b, 8 * b, 2 * h, 16 * h);
    XorParity(b, h);
    ShiftedParity(b, h);
    XorGroups(b, b);
  }

  lemma ShiftedParity(b: nat, h: nat)
    requires b < 2
    ensures Xor(8 * b, 16 * h) == 8 * (b + 2 * h)
  {
    hide Xor;
    XorParity(b, h);
    XorDouble(b, 2 * h);
    XorDouble(2 * b, 4 * h);
    XorDouble(4 * b, 8 * h);
  }

  lemma EightTimes(x: nat)
    ensures Shl(x, 3) == 8 * x
  {
    assert Shl(x, 3) == 2 * Shl(x, 2) == 4 * Shl(x, 1) == 8 * x;
  }

  lemma XorParity(b: nat, h: nat)
    requires b < 2
    ensures Xor(b, 2 * h) == b + 2 * h
  {
    hide Xor;
    XorLastDigit(b, 0, h);
    XorZero(h);
  }

  /** Adding the fold to the word gives a multiple of 9. */
  lemma {:induction false} FoldCongruent(d: nat) returns (q: nat)
    ensures Xor(d, Fold(d)) == Clmul(q, 9)
  {
    if d < 8 {
      XorSelf(d);
      q := 0;
    } else {
      var x, y := d % 8, d / 8;
      var q' := FoldCongruent(y);
      q := Xor(y, q');
      hide Clmul, Xor;
      ClmulXor(y, q', 9);
      TimesNine(y);
      XorGroups(x, y);
      // d + fold = (x + 8y) + (x + fold(y)) = 8y + fold(y) = (8y + y) + (y + fold(y))
      XorSwap(x, 8 * y, x, Fold(y));
      XorSelf(x);
      XorZero(Xor(8 * y, Fold(y)));
      XorSwap(8 * y, y, y, Fold(y));
      XorSwap(8 * y, y, Fold(y), y);
      XorComm(Fold(y), y);
      XorSelf(y);
      XorZero(Xor(8 * y, Fold(y)));
      XorComm(8 * y, y);
    }
  }

  /** With generator 9 the remainder is the fold of the word, at every width. */
  lemma NineFolds(n: nat, d: nat)
    requires d < Shl(1, n)
    ensures Remainder(9, n, d) == Fold(d)
  {
    hide Clmul, Xor, Divide, Fold, Shl;
    var q := FoldCongruent(d);
    // 8d + fold = (8d + d) + (d + fold)
    XorSwap(8 * d, d, Fold(d), d);
    XorComm(Fold(d), d);
    XorSelf(d);
    XorZero(Xor(8 * d, Fold(d)));
    XorComm(8 * d, d);
    TimesNine(d);
    ClmulXor(d, q, 9);
    EightTimes(d);
    assert IsQuotient(9, d, Fold(d), Xor(d, q));
    FoldSmall(d);
    RemainderCorrect(9, n, d, Fold(d));
  }

  function Prev(j: nat): nat {
    if j == 0 then 2 else j - 1
  }

  /** How many of the digits at positions j, j+3, j+6, ... are one. */
  function Ones(d: nat, j: nat): nat
    requires j < 3
  {
    if d == 0 then 0 else (if j == 0 then d % 2 else 0) + Ones(d / 2, Prev(j))
  }

  function AllOnes(d: nat): nat {
    if d == 0 then 0 else d % 2 + AllOnes(d / 2)
  }

  lemma {:induction false} ClassesAddUp(d: nat)
    ensures AllOnes(d) == Ones(d, 0) + Ones(d, 1) + Ones(d, 2)
  {
    if d != 0 {
      ClassesAddUp(d / 2);
    }
  }

  lemma {:induction false} OnesPeel(b: nat, h: nat, j: nat)
    requires b < 2 && j < 3
    ensures Ones(b + 2 * h, j) == (if j == 0 then b else 0) + Ones(h, Prev(j))
  {
    assert (b + 2 * h) % 2 == b && (b + 2 * h) / 2 == h;
  }

  /** The last three digits of a word belong to one class each. */
  lemma OnesOfGroup(x: nat, y: nat, j: nat)
    requires x < 8 && j < 3
    ensures Ones(x + 8 * y, j) == (if Bit(x, j) then 1 else 0) + Ones(y, j)
  {
    hide Ones, Bit;
    var a, b, c := x % 2, x / 2 % 2, x / 4;
    OnesPeel(a, b + 2 * c + 4 * y, j);
    OnesPeel(b, c + 2 * y, Prev(j));
    OnesPeel(c, y, Prev(Prev(j)));
    GroupBits(x);
  }

  lemma GroupBits(x: nat)
    requires x < 8
    ensures (Bit(x, 0) <==> x % 2 == 1) && (Bit(x, 1) <==> x / 2 % 2 == 1) && (Bit(x, 2) <==> x / 4 == 1)
  {
    assert Bit(x, 1) <==> Bit(x / 2, 0);
    assert Bit(x, 2) <==> Bit(x / 2, 1);
    assert Bit(x / 2, 1) <==> Bit(x / 2 / 2, 0);
  }

  /** Digit j of the fold is the parity of class j. */
  lemma {:induction false} FoldIsParity(d: nat, j: nat)
    requires j < 3
    ensures Bit(Fold(d), j) <==> Ones(d, j) % 2 == 1
    decreases d
  {
    hide Xor, Bit;
    var x, y := d % 8, d / 8;
    OnesOfGroup(x, y, j);
    if y == 0 {
      assert Ones(y, j) == 0;
    } else {
      assert Fold(d) == Xor(x, Fold(y));
      hide Ones, Fold;
      FoldIsParity(y, j);
      XorBit(x, Fold(y), j);
    }
  }

  lemma ThreeDigits(r: nat)
    requires r < 8
    ensures r == 0 <==> !Bit(r, 0) && !Bit(r, 1) && !Bit(r, 2)
  {
  }

  /** With generator 9 an error pattern passes exactly when each of the three interleaved classes of digits has
      an even number of ones; in particular every error of odd weight is detected. */
  lemma NineDetects(n: nat, e: nat)
    requires e < Shl(1, n)
    ensures Remainder(9, n, e) == 0 <==> Ones(e, 0) % 2 == 0 && Ones(e, 1) % 2 == 0 && Ones(e, 2) % 2 == 0
    ensures AllOnes(e) % 2 == 1 ==> Remainder(9, n, e) != 0
  {
    hide Remainder, Fold, Ones, Bit, Shl, AllOnes;
    NineFolds(n, e);
    FoldIsParity(e, 0);
    FoldIsParity(e, 1);
    FoldIsParity(e, 2);
    FoldSmall(e);
    ThreeDigits(Fold(e));
    ClassesAddUp(e);
  }

  // ----- the table -----

  /** Conversion from long to a 16-bit short. */
  function ToShort(x: int): int {
    (x + 0x8000) % 0x10000 - 0x8000
  }

  /** The 16-bit number congruent to x; it is x itself exactly when x fits. */
  lemma ShortIs(x: int, r: int)
    ensures ToShort(x) == r <==> -0x8000 <= r < 0x8000 && (x - r) % 0x10000 == 0
    ensures ToShort(x) == x <==> -0x8000 <= x < 0x8000
  {
    if -0x8000 <= r < 0x8000 && (x - r) % 0x10000 == 0 {
      var m := (x - r) / 0x10000;
      assert x + 0x8000 == 0x10000 * m + (r + 0x8000);
    }
  }

  method GenerateTable(table: array<int>, generator: nat)
    requires table.Length == 0x10000
    modifies table
    ensures forall i :: 0 <= i < 0x10000 ==> table[i] == ToShort(Remainder(generator, 16, i))
  {
    for i := 0 to 0x10000
      invariant forall k :: 0 <= k < i ==> table[k] == ToShort(Remainder(generator, 16, k))
    {
      var crc := GenerateCrc(generator, 16, i);
      table[i] := ToShort(crc);
    }
  }

  /** Every table entry is the one true remainder of its index, unharmed by the conversion. */
  lemma TableEntry(g: nat, i: nat, r: nat)
    requires Cubic(g) && i < 0x10000
    ensures ToShort(Remainder(g, 16, i)) == r <==> IsRemainder(g, i, r)
  {
    ShlAdd(1, 4, 4);
    ShlAdd(1, 8, 8);
    assert Shl(1, 4) == 16 && Shl(16, 4) == 256;
    assert Shl(256, 4) == 4096 && Shl(4096, 4) == 0x10000;
    ShlAdd(256, 4, 4);
    hide Remainder;
    RemainderCorrect(g, 16, i, r);
    RemainderCorrect(g, 16, i, Remainder(g, 16, i));
  }
}
