/**
 The checksum as polynomial division over GF(2). A polynomial is the sequence of its coefficients, highest power
 first; the first message bit on the wire is the highest power.
 */
module CrcDivision {
  import opened Bytes
  import opened Crc32

  function Falses(n: nat): (s: seq<bool>)
    ensures |s| == n && AllFalse(s)
  {
    seq(n, _ => false)
  }

  /** The generator x^32 + x^26 + x^23 + x^22 + x^16 + x^12 + x^11 + x^10 + x^8 + x^7 + x^5 + x^4 + x^2 + x + 1. */
  const EXPONENTS: set<nat> := {32, 26, 23, 22, 16, 12, 11, 10, 8, 7, 5, 4, 2, 1, 0}

  function Generator(): (g: seq<bool>)
    ensures |g| == 33 && g[0]
  {
    seq(33, i requires 0 <= i < 33 => (32 - i) in EXPONENTS)
  }

  /** b * x^n * generator, where n + 1 coefficients are above x^31. */
  function ScaledGenerator(b: bool, n: nat): (p: seq<bool>)
    ensures |p| == n + 33
  {
    if b then Generator() + Falses(n) else Falses(n + 33)
  }

  /** The product of `q` and the generator. */
  function TimesGenerator(q: seq<bool>): (p: seq<bool>)
    ensures |p| == |q| + 32
  {
    if q == [] then Falses(32)
    else Xor(ScaledGenerator(q[0], |q| - 1), [false] + TimesGenerator(q[1..]))
  }

  /** m * x^32, with the register's coefficients added to the 32 highest. */
  function Dividend(c: bv32, m: seq<bool>): (p: seq<bool>)
    ensures |p| == |m| + 32
  {
    Xor(m + Falses(32), LowBits(c, 32) + Falses(|m|))
  }

  function Quotient(c: bv32, m: seq<bool>): (q: seq<bool>)
    ensures |q| == |m|
    decreases |m|
  {
    if m == [] then [] else
      var v := Add(c, Word(m[0]));
      [Low(v)] + Quotient(Step(v), m[1..])
  }

  /** p = q * generator + r, with r of degree below 32. */
  ghost predicate Divides(p: seq<bool>, q: seq<bool>, r: seq<bool>) {
    |r| == 32 && |p| == |q| + 32 && p == Xor(TimesGenerator(q), Falses(|q|) + r)
  }

  // --- The generator word ---

  function Digit(w: bv32): (d: seq<bool>)
    ensures |d| == 4
  {
    [w & 1 != 0, w & 2 != 0, w & 4 != 0, w & 8 != 0]
  }

  function DropDigit(w: bv32): bv32 { w >> 4 }

  lemma DigitParts(w: bv32)
    ensures Half(Half(Half(Half(w)))) == DropDigit(w)
    ensures [Low(w), Low(Half(w)), Low(Half(Half(w))), Low(Half(Half(Half(w))))] == Digit(w)
  {
  }

  lemma LowBitsNext(w: bv32, n: nat)
    requires n > 0
    ensures LowBits(w, n) == [Low(w)] + LowBits(Half(w), n - 1)
  {
    hide Half, Low;
  }

  lemma LowBitsFour(w: bv32, n: nat)
    ensures LowBits(w, n + 4)
         == [Low(w), Low(Half(w)), Low(Half(Half(w))), Low(Half(Half(Half(w))))] + LowBits(Half(Half(Half(Half(w)))), n)
  {
    hide *;
    LowBitsNext(w, n + 4);
    LowBitsNext(Half(w), n + 3);
    LowBitsNext(Half(Half(w)), n + 2);
    LowBitsNext(Half(Half(Half(w))), n + 1);
  }

  lemma LowBitsDigit(w: bv32, n: nat)
    ensures LowBits(w, n + 4) == Digit(w) + LowBits(DropDigit(w), n)
  {
    hide *;
    DigitParts(w);
    LowBitsFour(w, n);
  }

  lemma {:induction false} EightDigits(w: bv32)
    ensures var w1 := DropDigit(w); var w2 := DropDigit(w1); var w3 := DropDigit(w2); var w4 := DropDigit(w3);
      var w5 := DropDigit(w4); var w6 := DropDigit(w5); var w7 := DropDigit(w6);
      LowBits(w, 32) ==
        Digit(w) + (Digit(w1) + (Digit(w2) + (Digit(w3) + (Digit(w4) + (Digit(w5) + (Digit(w6) + Digit(w7)))))))
  {
    hide Digit, DropDigit, Half, Low, LowBits;
    var v := w;
    LowBitsDigit(v, 28);
    v := DropDigit(v);
    LowBitsDigit(v, 24);
    v := DropDigit(v);
    LowBitsDigit(v, 20);
    v := DropDigit(v);
    LowBitsDigit(v, 16);
    v := DropDigit(v);
    LowBitsDigit(v, 12);
    v := DropDigit(v);
    LowBitsDigit(v, 8);
    v := DropDigit(v);
    LowBitsDigit(v, 4);
    v := DropDigit(v);
    LowBitsDigit(v, 0);
    assert Digit(v) + LowBits(DropDigit(v), 0) == Digit(v);
  }

  lemma GeneratorDigits()
    ensures var w: bv32 := 0xEDB88320;
      var w1 := DropDigit(w); var w2 := DropDigit(w1); var w3 := DropDigit(w2); var w4 := DropDigit(w3);
      var w5 := DropDigit(w4); var w6 := DropDigit(w5); var w7 := DropDigit(w6);
      && Digit(w) == [false, false, false, false] && Digit(w1) == [false, true, false, false]
      && Digit(w2) == [true, true, false, false] && Digit(w3) == [false, false, false, true]
      && Digit(w4) == [false, false, false, true] && Digit(w5) == [true, true, false, true]
      && Digit(w6) == [true, false, true, true] && Digit(w7) == [false, true, true, true]
  {
  }

  /** The constant in the loop is the generator without its leading term. */
  lemma GeneratorWord()
    ensures LowBits(0xEDB88320, 32) == Generator()[1..]
  {
    hide Digit, DropDigit, Half, Low, LowBits;
    EightDigits(0xEDB88320);
    GeneratorDigits();
  }

  // --- One division step ---

  lemma {:induction false} LowBitsExtend(w: bv32, n: nat)
    requires Value(w) < Pow2(n)
    ensures LowBits(w, n + 1) == LowBits(w, n) + [false]
    decreases n
  {
    hide Half, Low, Value;
    HalfValue(w);
    if n > 0 {
      LowBitsExtend(Half(w), n - 1);
    }
  }

  lemma WordFits(w: bv32)
    ensures Value(w) < Pow2(32)
  {
    Pow2At31();
  }

  lemma StepOdd(v: bv32)
    requires Low(v)
    ensures Step(v) == Add(Half(v), 0xEDB88320)
  {
  }

  lemma StepEven(v: bv32)
    requires !Low(v)
    ensures Step(v) == Add(Half(v), 0)
  {
  }

  lemma StepParts(v: bv32)
    ensures Step(v) == Add(Half(v), if Low(v) then 0xEDB88320 else 0)
  {
    hide *;
    if Low(v) { StepOdd(v); } else { StepEven(v); }
  }

  lemma {:induction false} LowBitsZero(n: nat)
    ensures LowBits(0, n) == Falses(n)
    decreases n
  {
    assert Half(0) == 0 && !Low(0);
    hide Half, Low;
    if n > 0 { LowBitsZero(n - 1); }
  }

  /** What is folded in: the generator below its leading term when `b` is set. */
  lemma FoldCoefficients(b: bool, j: nat)
    requires j < 32
    ensures LowBits(if b then 0xEDB88320 else 0, 32)[j] == (b && Generator()[j + 1])
  {
    hide Half, Low, LowBits, Generator;
    LowBitsZero(32);
    GeneratorWord();
  }

  /** Halving moves every coefficient up by one. */
  lemma HalfCoefficients(v: bv32, j: nat)
    requires j < 32
    ensures LowBits(v, 32)[0] == Low(v)
    ensures LowBits(Half(v), 32)[j] == (j < 31 && LowBits(v, 32)[j + 1])
  {
    hide Half, Low, Value;
    WordFits(v);
    LowBitsExtend(v, 32);
    assert LowBits(v, 33) == [Low(v)] + LowBits(Half(v), 32);
    hide LowBits;
    assert LowBits(Half(v), 32)[j] == LowBits(v, 33)[j + 1];
    assert LowBits(v, 32)[0] == LowBits(v, 33)[0];
  }

  /** One step moves every coefficient up by one and folds the generator in when the leading one was set. */
  lemma StepCoefficients(v: bv32, j: nat)
    requires j < 32
    ensures LowBits(Step(v), 32)[j] == ((j < 31 && LowBits(v, 32)[j + 1]) != (LowBits(v, 32)[0] && Generator()[j + 1]))
  {
    hide Step, Add, Half, Low, Value, Generator, LowBits;
    StepParts(v);
    var fold: bv32 := if Low(v) then 0xEDB88320 else 0;
    LowBitsLinear(Half(v), fold, 32);
    FoldCoefficients(Low(v), j);
    HalfCoefficients(v, j);
  }

  lemma WordParts(b: bool)
    ensures Low(Word(b)) == b && Half(Word(b)) == 0
  {
  }

  lemma AddWordCoefficients(c: bv32, b: bool)
    ensures LowBits(Add(c, Word(b)), 32)[0] == Low(Add(c, Word(b))) == (LowBits(c, 32)[0] != b)
    ensures forall j | 0 < j < 32 :: LowBits(Add(c, Word(b)), 32)[j] == LowBits(c, 32)[j]
  {
    hide Add, Half, Low, Word;
    WordParts(b);
    LowBitsLinear(c, Word(b), 32);
    LowBitsZero(31);
    assert LowBits(Word(b), 32) == [b] + LowBits(0, 31);
  }

  lemma DividendAt(c: bv32, m: seq<bool>, i: nat)
    requires i < |m| + 32
    ensures Dividend(c, m)[i] == ((i < |m| && m[i]) != (i < 32 && LowBits(c, 32)[i]))
  {
    hide LowBits;
  }

  lemma ScaledAt(b: bool, n: nat, i: nat)
    requires i < n + 33
    ensures ScaledGenerator(b, n)[i] == (b && i <= 32 && Generator()[i])
  {
    hide Generator;
  }

  lemma DividendStepAt(c: bv32, m: seq<bool>, i: nat)
    requires m != [] && i < |m| + 32
    ensures var v := Add(c, Word(m[0]));
      Dividend(c, m)[i] == (ScaledGenerator(Low(v), |m| - 1)[i] != (i > 0 && Dividend(Step(v), m[1..])[i - 1]))
  {
    hide *;
    var v := Add(c, Word(m[0]));
    AddWordCoefficients(c, m[0]);
    DividendAt(c, m, i);
    ScaledAt(Low(v), |m| - 1, i);
    if i > 0 {
      DividendAt(Step(v), m[1..], i - 1);
      if i <= 32 { StepCoefficients(v, i - 1); }
    }
  }

  lemma DividendStep(c: bv32, m: seq<bool>)
    requires m != []
    ensures var v := Add(c, Word(m[0]));
      Dividend(c, m) == Xor(ScaledGenerator(Low(v), |m| - 1), [false] + Dividend(Step(v), m[1..]))
  {
    hide *;
    var p := Dividend(c, m);
    forall i | 0 <= i < |p| {
      DividendStepAt(c, m, i);
    }
  }

  lemma XorShift(s: seq<bool>, t: seq<bool>, r: seq<bool>)
    requires |s| == |t| + 1 && |t| == |r|
    ensures Xor(s, [false] + Xor(t, r)) == Xor(Xor(s, [false] + t), [false] + r)
  {
  }

  lemma DividesStep(p: seq<bool>, s: seq<bool>, q: seq<bool>, r: seq<bool>, b: bool)
    requires Divides(p, q, r)
    requires |s| == |p| + 1 && s == ScaledGenerator(b, |q|)
    ensures Divides(Xor(s, [false] + p), [b] + q, r)
  {
    hide ScaledGenerator;
    assert ([b] + q)[1..] == q;
    XorShift(s, TimesGenerator(q), Falses(|q|) + r);
    assert [false] + (Falses(|q|) + r) == Falses(|q| + 1) + r;
  }

  /** The register, run over a message, carries out long division of the dividend by the generator. */
  lemma {:induction false} FeedDivides(c: bv32, m: seq<bool>)
    ensures Divides(Dividend(c, m), Quotient(c, m), LowBits(Feed(c, m), 32))
    decreases |m|
  {
    hide Add, Step, Half, Low, Word, ScaledGenerator, LowBits;
    if m == [] {
      assert Dividend(c, m) == LowBits(c, 32);
    } else {
      hide Divides, Dividend;
      var v := Add(c, Word(m[0]));
      DividendStep(c, m);
      FeedDivides(Step(v), m[1..]);
      DividesStep(Dividend(Step(v), m[1..]), ScaledGenerator(Low(v), |m| - 1), Quotient(Step(v), m[1..]),
                  LowBits(Feed(c, m), 32), Low(v));
    }
  }

  lemma XorPeel(s: seq<bool>, t: seq<bool>, r: seq<bool>)
    requires |s| == |t| + 1 && |t| == |r|
    ensures var p := Xor(Xor(s, [false] + t), [false] + r); p[0] == s[0] && Xor(p, s)[1..] == Xor(t, r)
  {
  }

  lemma TimesGeneratorHead(q: seq<bool>)
    requires q != []
    ensures TimesGenerator(q) == Xor(ScaledGenerator(q[0], |q| - 1), [false] + TimesGenerator(q[1..]))
  {
    hide ScaledGenerator, Generator;
  }

  lemma RemainderHead(p: seq<bool>, q: seq<bool>, r: seq<bool>)
    requires Divides(p, q, r) && q != []
    ensures q[0] == p[0]
    ensures Divides(Xor(p, ScaledGenerator(q[0], |q| - 1))[1..], q[1..], r)
  {
    hide ScaledGenerator, Generator, Xor, TimesGenerator;
    ScaledAt(q[0], |q| - 1, 0);
    TimesGeneratorHead(q);
    assert Falses(|q|) + r == [false] + (Falses(|q| - 1) + r);
    XorPeel(ScaledGenerator(q[0], |q| - 1), TimesGenerator(q[1..]), Falses(|q| - 1) + r);
  }

  /** Division by the generator has one quotient and one remainder. */
  lemma {:induction false} RemainderUnique(p: seq<bool>, q: seq<bool>, r: seq<bool>, q': seq<bool>, r': seq<bool>)
    requires Divides(p, q, r) && Divides(p, q', r')
    ensures q == q' && r == r'
    decreases |q|
  {
    if q == [] {
      assert forall i | 0 <= i < 32 :: p[i] == r[i] && p[i] == r'[i];
    } else {
      RemainderHead(p, q, r);
      RemainderHead(p, q', r');
      var t := Xor(p, ScaledGenerator(q[0], |q| - 1))[1..];
      RemainderUnique(t, q[1..], r, q'[1..], r');
    }
  }

  /**
   What the bit loop computes: complement the 32 highest coefficients of message * x^32, divide by the generator,
   complement the remainder. No other 32 coefficients are the remainder.
   */
  lemma ChecksumIsRemainder(s: seq<byte>, q: seq<bool>, r: seq<bool>)
    requires |q| == 8 * |s| && |r| == 32
    ensures Divides(Dividend(ONES, Bits(s)), q, r)
      <==> q == Quotient(ONES, Bits(s)) && r == Xor(LowBits(Checksum(s), 32), LowBits(ONES, 32))
  {
    hide Add, Step, Half, Low, Word, Update, Bits, Dividend, Quotient, TimesGenerator;
    RegisterIsFeed(ONES, s);
    FeedDivides(ONES, Bits(s));
    LowBitsLinear(Checksum(s), ONES, 32);
    AddAssociates(Register(ONES, s), ONES, ONES);
    AddCancels(ONES, ONES);
    AddZero(Register(ONES, s));
    if Divides(Dividend(ONES, Bits(s)), q, r) {
      RemainderUnique(Dividend(ONES, Bits(s)), q, r, Quotient(ONES, Bits(s)), LowBits(Feed(ONES, Bits(s)), 32));
    }
  }
}
