/** The one-fold variant of the Internet checksum (MP3/checksum/checksum.cpp), against section 1 of RFC 1071. */
module Checksum {

  const ULONG: int := 0x1_0000_0000_0000_0000

  /** Conversion of an int to unsigned short. */
  function Word(n: int): nat {
    n % 0x10000
  }

  function Sum(numbers: seq<int>): nat {
    if numbers == [] then 0 else Word(numbers[0]) + Sum(numbers[1..])
  }

  /** (sum & 0xffff) + (sum >> 16) */
  function FoldOnce(s: nat): nat {
    s % 0x10000 + s / 0x10000
  }

  /** (unsigned short) ~sum, for a 64-bit sum. */
  function Complement(s: nat): nat {
    (ULONG - 1 - s) % 0x10000
  }

  /** What the program prints; unsigned long additions wrap around. */
  function Printed(numbers: seq<int>): nat {
    Complement(FoldOnce(Sum(numbers) % ULONG))
  }

  /** The Internet checksum: fold until the sum fits 16 bits, then complement. */
  function FoldFully(s: nat): (r: nat)
    ensures r <= 0xffff
  {
    if s <= 0xffff then s else FoldFully(FoldOnce(s))
  }

  function Internet(numbers: seq<int>): nat {
    0xffff - FoldFully(Sum(numbers))
  }

  lemma SumSplit(a: seq<int>, n: int)
    ensures Sum(a + [n]) == Sum(a) + Word(n)
  {
    if a == [] {
      assert a + [n] == [n];
    } else {
      assert (a + [n])[1..] == a[1..] + [n];
      SumSplit(a[1..], n);
    }
  }

  method Compute(numbers: seq<int>) returns (printed: nat)
    ensures printed == Printed(numbers)
  {
    var sum: nat := 0;
    for i := 0 to |numbers|
      invariant sum == Sum(numbers[..i]) % ULONG
    {
      sum := (sum + Word(numbers[i])) % ULONG;
      assert numbers[..i + 1] == numbers[..i] + [numbers[i]];
      SumSplit(numbers[..i], numbers[i]);
    }
    assert numbers[..|numbers|] == numbers;
    sum := sum % 0x10000 + sum / 0x10000;
    printed := Complement(sum);
  }

  // ----- agreement with RFC 1071 -----

  lemma {:induction false} SumBound(numbers: seq<int>)
    ensures Sum(numbers) <= 0xffff * |numbers|
  {
    if numbers != [] {
      SumBound(numbers[1..]);
    }
  }

  /** Folding keeps the residue modulo 0xffff, and keeps a positive sum positive. */
  lemma {:induction false} FoldResidue(s: nat) returns (k: nat)
    ensures s == FoldFully(s) + 0xffff * k
    ensures FoldFully(s) <= 0xffff && (s > 0 ==> FoldFully(s) > 0)
  {
    if s <= 0xffff {
      k := 0;
    } else {
      var k' := FoldResidue(FoldOnce(s));
      k := k' + s / 0x10000;
    }
  }

  /** What the wrap-around of the sum and the first fold leave to be added: with a full fold nothing would be. */
  function Carry(s: nat): nat {
    s / ULONG + FoldOnce(s % ULONG) / 0x10000
  }

  function Low(s: nat): nat {
    FoldOnce(s % ULONG) % 0x10000
  }

  /** 2^64 is 1 modulo 0xffff. */
  lemma CarryResidue(s: nat) returns (t: nat)
    ensures s == 0xffff * t + Carry(s) + Low(s)
  {
    var w, u := s / ULONG, s % ULONG;
    var h, l, once := u / 0x10000, u % 0x10000, FoldOnce(u);
    var q, c := once / 0x10000, once % 0x10000;
    assert s == ULONG * w + u;
    assert u == 0x10000 * h + l && once == l + h && once == 0x10000 * q + c;
    t := 281479271743489 * w + h + q;
    assert ULONG * w == 0xffff * (281479271743489 * w) + w;
  }

  /** The exact condition for one fold of the wrapped sum to give the full fold. */
  lemma OneFoldSuffices(s: nat)
    ensures Low(s) == FoldFully(s) <==> s == 0 || (Carry(s) % 0xffff == 0 && Low(s) != 0)
  {
    hide FoldFully;
    var full := FoldFully(s);
    var k: int := FoldResidue(s);
    var t: int := CarryResidue(s);
    if s == 0 {
      assert full == 0 by { FoldZero(); }
    } else {
      hide Low, Carry;
      assert Low(s) <= 0xffff by { LowSmall(s); }
      SameResidue(full, Low(s), Carry(s), k - t);
    }
  }

  lemma LowSmall(s: nat)
    ensures Low(s) <= 0xffff
  {
  }

  lemma FoldZero()
    ensures FoldFully(0) == 0
  {
  }

  lemma SameResidue(full: nat, c: nat, q: nat, t: int)
    requires full + 0xffff * t == q + c && 0 < full <= 0xffff && c <= 0xffff
    ensures c == full <==> q % 0xffff == 0 && c != 0
  {
    if c == full {
      assert q == 0xffff * t;
    }
    if q % 0xffff == 0 && c != 0 {
      var m := q / 0xffff;
      assert full - c == 0xffff * (m - t);
    }
  }

  lemma FoldShrinks(s: nat)
    ensures FoldOnce(s) <= s
  {
  }

  lemma PrintedDigits(numbers: seq<int>)
    ensures Printed(numbers) == 0xffff - Low(Sum(numbers))
  {
    hide Sum, Complement, FoldOnce;
    var u := Sum(numbers) % ULONG;
    FoldShrinks(u);
    LowDigits(FoldOnce(u));
  }

  /** Below 2^48 words the sum does not wrap around. */
  lemma NoWrap(numbers: seq<int>)
    requires |numbers| < 0x1_0000_0000_0000
    ensures Sum(numbers) < ULONG
    ensures var once := FoldOnce(Sum(numbers));
            Carry(Sum(numbers)) == once / 0x10000 && Low(Sum(numbers)) == once % 0x10000
  {
    hide Sum, FoldOnce;
    SumBound(numbers);
    assert Sum(numbers) % ULONG == Sum(numbers);
  }

  lemma LowDigits(x: nat)
    requires x < ULONG
    ensures Complement(x) == 0xffff - x % 0x10000
  {
    var a, b := x / 0x10000, x % 0x10000;
    assert ULONG - 1 - x == 0x10000 * (0xffff_ffff_ffff - a) + (0xffff - b);
  }

  /** For lists of any length: when the program prints the Internet checksum. */
  lemma AgreesExactly(numbers: seq<int>)
    ensures var s := Sum(numbers);
            Printed(numbers) == Internet(numbers) <==> s == 0 || (Carry(s) % 0xffff == 0 && Low(s) != 0)
  {
    hide Printed, FoldFully, Low, Carry, Sum;
    PrintedDigits(numbers);
    OneFoldSuffices(Sum(numbers));
  }

  /** Below 4294901763 words the condition is that the first fold leaves no carry. */
  lemma Agrees(numbers: seq<int>)
    requires |numbers| < 4294901763
    ensures Printed(numbers) == Internet(numbers) <==> FoldOnce(Sum(numbers)) <= 0xffff
  {
    hide Printed, Internet, Low, Carry, Sum;
    AgreesExactly(numbers);
    NoWrap(numbers);
    SumBound(numbers);
    CarrySmall(Sum(numbers));
  }

  lemma CarrySmall(s: nat)
    requires s <= 0xfffe_0002_fffe
    ensures var once := FoldOnce(s);
            once <= 0xffff <==> s == 0 || (once / 0x10000 % 0xffff == 0 && once % 0x10000 != 0)
  {
    var h, l := s / 0x10000, s % 0x10000;
    assert s == 0x10000 * h + l;
    assert FoldOnce(s) <= 0xffff_0000;
  }

  /** 4294901762 words 0xffff and a 1. */
  function LongList(): seq<int> {
    Repeat(0xffff, 4294901762) + [1]
  }

  function Repeat(word: int, n: nat): seq<int> {
    seq(n, _ => word)
  }

  lemma {:induction false} SumRepeat(word: int, n: nat)
    ensures Sum(Repeat(word, n)) == Word(word) * n
    decreases n
  {
    if n > 0 {
      assert Repeat(word, n)[1..] == Repeat(word, n - 1);
      SumRepeat(word, n - 1);
      assert Word(word) * n == Word(word) + Word(word) * (n - 1);
    }
  }

  lemma LongSum()
    ensures |LongList()| == 4294901763 && Sum(LongList()) == 0xfffe_0002_ffff
  {
    hide Sum;
    SumRepeat(0xffff, 4294901762);
    SumSplit(Repeat(0xffff, 4294901762), 1);
  }

  /** That many words can agree although the first fold leaves a carry. */
  lemma CarryCanAgree()
    ensures |LongList()| == 4294901763
    ensures Printed(LongList()) == Internet(LongList()) && FoldOnce(Sum(LongList())) > 0xffff
  {
    hide Sum, LongList, Printed, Internet, Low, Carry;
    LongSum();
    NoWrap(LongList());
    assert FoldOnce(0xfffe_0002_ffff) == 0xffff_0001;
    AgreesExactly(LongList());
  }

  /** Two words never leave a carry behind. */
  lemma TwoWordsAgree(numbers: seq<int>)
    requires |numbers| <= 2
    ensures Printed(numbers) == Internet(numbers)
  {
    SumBound(numbers);
    Agrees(numbers);
  }

  /** Three words can. */
  lemma ThreeWordsDiffer()
    ensures Printed([0xffff, 0xffff, 1]) == 0xffff && Internet([0xffff, 0xffff, 1]) == 0xfffe
  {
    assert Sum([0xffff, 1]) == 0x10000;
    assert FoldFully(0x1ffff) == FoldFully(0x10000) == 1;
  }

  /** When a receiver that adds the printed checksum to the words and folds fully gets 0xffff. It then was the
      Internet checksum, unless the first fold left nothing but a carry that vanishes modulo 0xffff, which takes
      4294901761 words. */
  lemma ReceiverAccepts(numbers: seq<int>)
    ensures var s := Sum(numbers);
            var accepts := FoldFully(s + Printed(numbers)) == 0xffff;
            && (accepts <==> Carry(s) % 0xffff == 0)
            && (Printed(numbers) == Internet(numbers) <==> accepts && (s == 0 || Low(s) != 0))
            && (|numbers| < 4294901761 ==> (accepts <==> Printed(numbers) == Internet(numbers)))
  {
    hide FoldFully, Printed, Internet, Sum, Low, Carry;
    PrintedDigits(numbers);
    AgreesExactly(numbers);
    AcceptsIff(Sum(numbers));
    if Sum(numbers) == 0 {
      assert Carry(0) == 0 by { NoCarry(); }
    }
    if |numbers| < 4294901761 {
      SumBound(numbers);
      NoWrap(numbers);
      OnlyCarry(Sum(numbers));
    }
  }

  lemma NoCarry()
    ensures Carry(0) == 0
  {
  }

  lemma OnlyCarry(s: nat)
    ensures var once := FoldOnce(s);
            && (once % 0xffff_0000 == 0 <==> once / 0x10000 % 0xffff == 0 && once % 0x10000 == 0)
            && (once == 0 <==> s == 0)
            && (once > 0 && once % 0xffff_0000 == 0 ==> s >= 0xfffe_0001_ffff)
  {
    var h, l, once := s / 0x10000, s % 0x10000, FoldOnce(s);
    assert s == 0x10000 * h + l;
    var q, c := once / 0x10000, once % 0x10000;
    assert once == 0x10000 * q + c;
    if q % 0xffff == 0 && c == 0 {
      var m := q / 0xffff;
      assert once == 0xffff_0000 * m;
    }
    if once % 0xffff_0000 == 0 {
      var m := once / 0xffff_0000;
      assert once == 0x10000 * (0xffff * m);
      assert q == 0xffff * m;
      if once > 0 {
        assert once >= 0xffff_0000;
        assert h >= 0xfffe_0001;
      }
    }
  }

  lemma AcceptsIff(s: nat)
    ensures FoldFully(s + (0xffff - Low(s))) == 0xffff <==> Carry(s) % 0xffff == 0
  {
    hide FoldFully, Low, Carry;
    LowSmall(s);
    var total: nat := s + (0xffff - Low(s));
    var t: int := CarryResidue(s);
    var k: int := FoldResidue(total);
    MultipleOf(FoldFully(total), Carry(s), t + 1 - k);
  }

  lemma MultipleOf(full: nat, q: nat, t: int)
    requires full == q + 0xffff * t && 0 < full <= 0xffff
    ensures full == 0xffff <==> q % 0xffff == 0
  {
    if full == 0xffff {
      assert q == 0xffff * (1 - t);
    }
    if q % 0xffff == 0 {
      var m := q / 0xffff;
      assert full == 0xffff * (m + t);
    }
  }

  function Total(words: seq<nat>): nat {
    if words == [] then 0 else words[0] + Total(words[1..])
  }

  /** Every number counts as the 16-bit word it is congruent to, negative ones included. */
  lemma {:induction false} SumOfWords(numbers: seq<int>, words: seq<nat>)
    requires |numbers| == |words|
    requires forall i :: 0 <= i < |words| ==> words[i] <= 0xffff && (numbers[i] - words[i]) % 0x10000 == 0
    ensures Sum(numbers) == Total(words)
    decreases |words|
  {
    if words != [] {
      assert words[0] <= 0xffff && (numbers[0] - words[0]) % 0x10000 == 0;
      SumOfWords(numbers[1..], words[1..]);
    }
  }

  /** The order of the words is irrelevant. */
  lemma {:induction false} OrderIrrelevant(a: seq<int>, b: seq<int>)
    requires multiset(a) == multiset(b)
    ensures Printed(a) == Printed(b)
  {
    SumOfBag(a, b);
  }

  lemma {:induction false} SumOfBag(a: seq<int>, b: seq<int>)
    requires multiset(a) == multiset(b)
    ensures Sum(a) == Sum(b)
    decreases |a|
  {
    if a == [] {
      assert |multiset(b)| == |b|;
    } else {
      var i := FindInBag(a, b);
      hide Word;
      BagWithout(b, i);
      BagTail(a);
      SumMiddle(b, i);
      SumOfBag(a[1..], b[..i] + b[i + 1..]);
    }
  }

  lemma FindInBag(a: seq<int>, b: seq<int>) returns (i: nat)
    requires multiset(a) == multiset(b) && a != []
    ensures i < |b| && b[i] == a[0]
  {
    assert a[0] in multiset(b);
    i :| 0 <= i < |b| && b[i] == a[0];
  }

  lemma BagWithout(b: seq<int>, i: nat)
    requires i < |b|
    ensures multiset(b[..i] + b[i + 1..]) == multiset(b) - multiset{b[i]}
  {
    assert b == b[..i] + [b[i]] + b[i + 1..];
  }

  lemma BagTail(a: seq<int>)
    requires a != []
    ensures multiset(a[1..]) == multiset(a) - multiset{a[0]}
  {
    assert a == [a[0]] + a[1..];
  }

  lemma {:induction false} SumMiddle(b: seq<int>, i: nat)
    requires i < |b|
    ensures Sum(b) == Word(b[i]) + Sum(b[..i] + b[i + 1..])
    decreases i
  {
    if i == 0 {
      assert b[..0] + b[1..] == b[1..];
    } else {
      var rest := b[..i] + b[i + 1..];
      SumMiddle(b[1..], i - 1);
      assert rest[1..] == b[1..][..i - 1] + b[1..][i..];
    }
  }
}
