/** The CRC-32 of protocol/protocol.c: a GF(2)-linear shift register, its table form and what it detects. */
module Crc32 {
  import opened Bytes

  const ONES: bv32 := 0xFFFF_FFFF

  /** Addition over GF(2). The proofs below hide its body and work from its laws. */
  function Add(a: bv32, b: bv32): bv32 {
    a ^ b
  }

  /** One turn of the inner loop. The constant is the generator, reflected: bit i holds the coefficient of x^(31-i). */
  function Step(c: bv32): bv32 {
    if c & 1 == 1 then (c >> 1) ^ 0xEDB88320 else c >> 1
  }

  function StepN(c: bv32, n: nat): bv32
    decreases n
  {
    if n == 0 then c else StepN(Step(c), n - 1)
  }

  function Extend(b: byte): bv32 {
    b as bv32
  }

  /** The register after one message byte. */
  function Update(c: bv32, b: byte): bv32 {
    StepN(Add(c, Extend(b)), 8)
  }

  /** The register after a whole message. */
  function Register(c: bv32, s: seq<byte>): bv32
    decreases |s|
  {
    if s == [] then c else Register(Update(c, s[0]), s[1..])
  }

  function Checksum(s: seq<byte>): bv32 {
    Add(Register(ONES, s), ONES)
  }

  lemma StepIs(c: bv32)
    ensures Step(c) == if c & 1 == 1 then (c >> 1) ^ 0xEDB88320 else c >> 1
  {
  }

  lemma MixIs(c: bv32, b: byte)
    ensures Add(c, Extend(b)) == c ^ (b as bv32)
  {
  }

  lemma InvertIs(c: bv32)
    ensures Add(c, ONES) == c ^ 0xFFFF_FFFF
  {
  }

  /** The two nested loops that both ends of the protocol run. */
  method ComputeCrc32(data: seq<byte>) returns (crc: bv32)
    ensures crc == Checksum(data)
  {
    hide Add, Step, Extend;
    crc := 0xFFFF_FFFF;
    var i := 0;
    while i < |data|
      invariant 0 <= i <= |data|
      invariant Register(ONES, data) == Register(crc, data[i..])
    {
      MixIs(crc, data[i]);
      ghost var updated := Update(crc, data[i]);
      crc := crc ^ (data[i] as bv32);
      var j := 0;
      while j < 8
        invariant 0 <= j <= 8
        invariant StepN(crc, 8 - j) == updated
      {
        StepIs(crc);
        if crc & 1 == 1 {
          crc := (crc >> 1) ^ 0xEDB88320;
        } else {
          crc := crc >> 1;
        }
        j := j + 1;
      }
      assert data[i..][1..] == data[i + 1..];
      i := i + 1;
    }
    assert data[i..] == [];
    InvertIs(crc);
    crc := crc ^ 0xFFFF_FFFF;
  }

  // --- The step is linear and injective over GF(2) ---

  lemma LowBit(a: bv32, b: bv32)
    ensures (a & 1 == 0 || a & 1 == 1) && (a ^ b) & 1 == (a & 1) ^ (b & 1)
  {
  }

  lemma StepLinearEven(a: bv32, b: bv32)
    requires a & 1 == 0 && b & 1 == 0
    ensures Step(Add(a, b)) == Add(Step(a), Step(b))
  {
  }

  lemma StepLinearMixed(a: bv32, b: bv32)
    requires a & 1 == 0 && b & 1 == 1
    ensures Step(Add(a, b)) == Add(Step(a), Step(b))
    ensures Step(Add(b, a)) == Add(Step(b), Step(a))
  {
  }

  lemma StepLinearOdd(a: bv32, b: bv32)
    requires a & 1 == 1 && b & 1 == 1
    ensures Step(Add(a, b)) == Add(Step(a), Step(b))
  {
  }

  lemma StepLinear(a: bv32, b: bv32)
    ensures Step(Add(a, b)) == Add(Step(a), Step(b))
  {
    hide *;
    LowBit(a, b);
    LowBit(b, a);
    if a & 1 == 0 {
      if b & 1 == 0 { StepLinearEven(a, b); } else { StepLinearMixed(a, b); }
    } else {
      if b & 1 == 0 { StepLinearMixed(b, a); } else { StepLinearOdd(a, b); }
    }
  }

  lemma StepInjective(a: bv32, b: bv32)
    requires Step(a) == Step(b)
    ensures a == b
  {
  }

  lemma AddCommutes(a: bv32, b: bv32)
    ensures Add(a, b) == Add(b, a)
  {
  }

  lemma AddAssociates(a: bv32, b: bv32, c: bv32)
    ensures Add(Add(a, b), c) == Add(a, Add(b, c))
  {
  }

  lemma AddZero(a: bv32)
    ensures Add(a, 0) == a && Add(0, a) == a
  {
  }

  lemma AddCancels(a: bv32, b: bv32)
    ensures Add(a, a) == 0
    ensures Add(a, b) == 0 ==> a == b
  {
  }

  lemma AddSwapsMiddle(a: bv32, b: bv32, c: bv32, d: bv32)
    ensures Add(Add(a, b), Add(c, d)) == Add(Add(a, c), Add(b, d))
  {
    hide Add;
    AddAssociates(a, b, Add(c, d));
    AddAssociates(b, c, d);
    AddCommutes(b, c);
    AddAssociates(c, b, d);
    AddAssociates(a, c, Add(b, d));
  }

  // --- Words as bit strings, least significant bit first ---

  function Word(b: bool): bv32 { if b then 1 else 0 }

  function Low(w: bv32): bool { w & 1 == 1 }

  function Half(w: bv32): bv32 { w >> 1 }

  /** The word whose lowest bit is `b` and whose half is `d`. */
  function Join(d: bv32, b: bool): bv32 { if b then (d << 1) ^ 1 else d << 1 }

  function Value(w: bv32): nat { w as nat }

  function LowBits(w: bv32, n: nat): (bits: seq<bool>)
    ensures |bits| == n
    decreases n
  {
    if n == 0 then [] else [Low(w)] + LowBits(Half(w), n - 1)
  }

  function Pow2(n: nat): nat { if n == 0 then 1 else 2 * Pow2(n - 1) }

  lemma {:induction false} Pow2Monotone(m: nat, n: nat)
    requires m <= n
    ensures Pow2(m) <= Pow2(n)
    decreases n
  {
    if m < n { Pow2Monotone(m, n - 1); }
  }

  lemma Pow2At31()
    ensures Pow2(31) == 0x8000_0000
  {
    assert Pow2(8) == 0x100;
    assert Pow2(16) == 0x1_0000;
    assert Pow2(24) == 0x100_0000;
  }

  predicate TopClear(d: bv32) {
    d < 0x8000_0000
  }

  lemma TopClearValue(d: bv32)
    ensures TopClear(d) <==> Value(d) < 0x8000_0000
  {
  }

  lemma JoinValue(d: bv32, b: bool)
    requires TopClear(d)
    ensures Value(Join(d, b)) == 2 * Value(d) + (if b then 1 else 0)
  {
    if b {
      assert ((d << 1) ^ 1) as nat == 2 * (d as nat) + 1;
    } else {
      assert (d << 1) as nat == 2 * (d as nat);
    }
  }

  lemma HalfParts(w: bv32)
    ensures TopClear(Half(w))
    ensures w == Join(Half(w), Low(w))
  {
  }

  lemma HalfValue(w: bv32)
    ensures Value(w) == 2 * Value(Half(w)) + (if Low(w) then 1 else 0)
  {
    HalfParts(w);
    hide *;
    JoinValue(Half(w), Low(w));
  }

  lemma ZeroValue(w: bv32)
    ensures Value(w) == 0 <==> w == 0
  {
  }

  /** A word is determined by its low bits when it has no others. */
  lemma {:induction false} LowBitsInjective(v: bv32, w: bv32, n: nat)
    requires Value(v) < Pow2(n) && Value(w) < Pow2(n)
    requires LowBits(v, n) == LowBits(w, n)
    ensures v == w
    decreases n
  {
    hide Half, Low, Join, Value;
    if n == 0 {
      ZeroValue(v);
      ZeroValue(w);
    } else {
      assert LowBits(v, n)[0] == LowBits(w, n)[0];
      assert LowBits(Half(v), n - 1) == LowBits(v, n)[1..];
      assert LowBits(Half(w), n - 1) == LowBits(w, n)[1..];
      HalfValue(v);
      HalfValue(w);
      LowBitsInjective(Half(v), Half(w), n - 1);
      HalfParts(v);
      HalfParts(w);
    }
  }

  // --- The register one bit at a time ---

  /** The register after message bits, each entering at the lowest position. */
  function Feed(c: bv32, bits: seq<bool>): bv32
    decreases |bits|
  {
    if bits == [] then c else Feed(Step(Add(c, Word(bits[0]))), bits[1..])
  }

  /** The bits of a byte in transmission order. */
  function ByteBits(b: byte): (bits: seq<bool>)
    ensures |bits| == 8
  {
    LowBits(Extend(b), 8)
  }

  function Bits(s: seq<byte>): (bits: seq<bool>)
    ensures |bits| == 8 * |s|
  {
    if s == [] then [] else ByteBits(s[0]) + Bits(s[1..])
  }

  function Xor(a: seq<bool>, b: seq<bool>): (x: seq<bool>)
    requires |a| == |b|
    ensures |x| == |a|
    ensures forall i | 0 <= i < |x| :: x[i] == (a[i] != b[i])
  {
    seq(|a|, i requires 0 <= i < |a| => a[i] != b[i])
  }

  lemma {:induction false} FeedAppend(c: bv32, x: seq<bool>, y: seq<bool>)
    ensures Feed(c, x + y) == Feed(Feed(c, x), y)
    decreases |x|
  {
    hide Step, Add, Word;
    if x == [] {
      assert x + y == y;
    } else {
      assert (x + y)[1..] == x[1..] + y;
      FeedAppend(Step(Add(c, Word(x[0]))), x[1..], y);
    }
  }

  lemma SplitWord(w: bv32)
    ensures exists h :: Add(Word(Low(w)), h) == w && Step(h) == Half(w)
  {
    var h := w & 0xFFFF_FFFE;
    assert Add(Word(Low(w)), h) == w;
    assert Step(h) == Half(w);
  }

  /** A word enters as its lowest bit; the rest of it passes through the step as a plain shift. */
  lemma PeelWord(c: bv32, w: bv32)
    ensures Step(Add(c, w)) == Add(Step(Add(c, Word(Low(w)))), Half(w))
  {
    hide *;
    SplitWord(w);
    var h :| Add(Word(Low(w)), h) == w && Step(h) == Half(w);
    AddAssociates(c, Word(Low(w)), h);
    StepLinear(Add(c, Word(Low(w))), h);
  }

  /** Adding a whole word of at most `n` bits and stepping `n` times is feeding its bits. */
  lemma {:induction false} FeedWord(c: bv32, w: bv32, n: nat)
    requires Value(w) < Pow2(n)
    ensures StepN(Add(c, w), n) == Feed(c, LowBits(w, n))
    decreases n
  {
    hide Step, Add, Word, Half, Low, Value;
    if n == 0 {
      ZeroValue(w);
      AddZero(c);
    } else {
      PeelWord(c, w);
      HalfValue(w);
      var bits := LowBits(w, n);
      assert bits[0] == Low(w) && bits[1..] == LowBits(Half(w), n - 1);
      FeedWord(Step(Add(c, Word(Low(w)))), Half(w), n - 1);
    }
  }

  lemma ExtendValue(b: byte)
    ensures Value(Extend(b)) < Pow2(8)
  {
    assert Pow2(8) == 256;
  }

  lemma ExtendInjective(a: byte, b: byte)
    requires Extend(a) == Extend(b)
    ensures a == b
  {
  }

  lemma {:induction false} RegisterIsFeed(c: bv32, s: seq<byte>)
    ensures Register(c, s) == Feed(c, Bits(s))
    decreases |s|
  {
    hide Step, Add, Word, Half, Low, Value, Extend;
    if s != [] {
      ExtendValue(s[0]);
      FeedWord(c, Extend(s[0]), 8);
      FeedAppend(c, ByteBits(s[0]), Bits(s[1..]));
      RegisterIsFeed(Update(c, s[0]), s[1..]);
    }
  }

  lemma AddWords(p: bool, q: bool)
    ensures Add(Word(p), Word(q)) == Word(p != q)
  {
  }

  lemma {:induction false} FeedLinear(a: bv32, x: seq<bool>, b: bv32, y: seq<bool>)
    requires |x| == |y|
    ensures Add(Feed(a, x), Feed(b, y)) == Feed(Add(a, b), Xor(x, y))
    decreases |x|
  {
    hide Step, Add, Word;
    if x != [] {
      var p, q := Add(a, Word(x[0])), Add(b, Word(y[0]));
      AddSwapsMiddle(a, Word(x[0]), b, Word(y[0]));
      AddWords(x[0], y[0]);
      StepLinear(p, q);
      FeedLinear(Step(p), x[1..], Step(q), y[1..]);
      assert Xor(x[1..], y[1..]) == Xor(x, y)[1..];
    }
  }

  lemma LowXor(v: bv32, w: bv32)
    ensures Low(Add(v, w)) == (Low(v) != Low(w))
    ensures Half(Add(v, w)) == Add(Half(v), Half(w))
  {
  }

  lemma {:induction false} LowBitsLinear(v: bv32, w: bv32, n: nat)
    ensures LowBits(Add(v, w), n) == Xor(LowBits(v, n), LowBits(w, n))
    decreases n
  {
    hide Add, Low, Half;
    if n > 0 {
      LowXor(v, w);
      LowBitsLinear(Half(v), Half(w), n - 1);
    }
  }

  function AddBytes(a: byte, b: byte): byte {
    a ^ b
  }

  lemma ExtendLinear(a: byte, b: byte)
    ensures Extend(AddBytes(a, b)) == Add(Extend(a), Extend(b))
  {
  }

  lemma {:induction false} BitsLinear(a: seq<byte>, b: seq<byte>, x: seq<byte>)
    requires |a| == |b| == |x|
    requires forall i | 0 <= i < |x| :: x[i] == AddBytes(a[i], b[i])
    ensures Bits(x) == Xor(Bits(a), Bits(b))
    decreases |x|
  {
    hide Add, Low, Half, Extend, AddBytes, LowBits;
    if x != [] {
      ExtendLinear(a[0], b[0]);
      LowBitsLinear(Extend(a[0]), Extend(b[0]), 8);
      BitsLinear(a[1..], b[1..], x[1..]);
      assert Bits(x) == ByteBits(x[0]) + Bits(x[1..]);
    }
  }

  /** The checksum is affine: for three messages of one length, the checksums add up like the messages. */
  lemma ChecksumAffine(a: seq<byte>, b: seq<byte>, c: seq<byte>, d: seq<byte>)
    requires |a| == |b| == |c| == |d|
    requires forall i | 0 <= i < |d| :: d[i] == AddBytes(AddBytes(a[i], b[i]), c[i])
    ensures Add(Add(Checksum(a), Checksum(b)), Checksum(c)) == Checksum(d)
  {
    hide Add, Step, Word, Half, Low, Update, ByteBits, Bits, AddBytes;
    var ab := seq(|a|, i requires 0 <= i < |a| => AddBytes(a[i], b[i]));
    BitsLinear(a, b, ab);
    BitsLinear(ab, c, d);
    RegisterIsFeed(ONES, a);
    RegisterIsFeed(ONES, b);
    RegisterIsFeed(ONES, c);
    RegisterIsFeed(ONES, d);
    FeedLinear(ONES, Bits(a), ONES, Bits(b));
    FeedLinear(Add(ONES, ONES), Xor(Bits(a), Bits(b)), ONES, Bits(c));
    AddSwapsMiddle(Register(ONES, a), ONES, Register(ONES, b), ONES);
    AddCancels(ONES, ONES);
    AddZero(ONES);
    AddZero(Add(Register(ONES, a), Register(ONES, b)));
    AddAssociates(Add(Register(ONES, a), Register(ONES, b)), Register(ONES, c), ONES);
  }

  // --- The table-driven form of section 8 of RFC 1952 ---

  function TableEntry(n: byte): bv32 {
    StepN(Extend(n), 8)
  }

  function TableIndex(c: bv32, b: byte): byte {
    (c & 0xFF) as byte ^ b
  }

  function HighBytes(c: bv32): bv32 {
    c >> 8
  }

  function TableRegister(c: bv32, s: seq<byte>): bv32
    decreases |s|
  {
    if s == [] then c else TableRegister(Add(TableEntry(TableIndex(c, s[0])), HighBytes(c)), s[1..])
  }

  lemma {:induction false} StepNLinear(a: bv32, b: bv32, n: nat)
    ensures StepN(Add(a, b), n) == Add(StepN(a, n), StepN(b, n))
    decreases n
  {
    hide Step, Add;
    if n > 0 {
      StepLinear(a, b);
      StepNLinear(Step(a), Step(b), n - 1);
    }
  }

  lemma EvenSteps(h: bv32)
    requires h & 0xFF == 0
    ensures Step(h) == h >> 1 && Step(h >> 1) == h >> 2 && Step(h >> 2) == h >> 3 && Step(h >> 3) == h >> 4
    ensures Step(h >> 4) == h >> 5 && Step(h >> 5) == h >> 6 && Step(h >> 6) == h >> 7 && Step(h >> 7) == h >> 8
  {
  }

  lemma EightEvenSteps(h: bv32)
    requires h & 0xFF == 0
    ensures StepN(h, 8) == h >> 8
  {
    hide Step;
    EvenSteps(h);
    assert StepN(h >> 6, 2) == h >> 8;
    assert StepN(h >> 4, 4) == h >> 8;
    assert StepN(h >> 2, 6) == h >> 8;
  }

  function ClearLowByte(c: bv32): bv32 {
    c & 0xFFFF_FF00
  }

  function LowByte(c: bv32): bv32 {
    c & 0xFF
  }

  lemma TableIndexWord(c: bv32, b: byte)
    ensures Extend(TableIndex(c, b)) == Add(LowByte(c), Extend(b))
  {
  }

  lemma SplitBytes(c: bv32)
    ensures c == Add(ClearLowByte(c), LowByte(c))
    ensures ClearLowByte(c) & 0xFF == 0 && ClearLowByte(c) >> 8 == HighBytes(c)
  {
  }

  lemma UpdateByTable(c: bv32, b: byte)
    ensures Update(c, b) == Add(TableEntry(TableIndex(c, b)), HighBytes(c))
  {
    hide Step, Add, TableIndex, HighBytes, ClearLowByte, LowByte, Extend;
    var h := ClearLowByte(c);
    TableIndexWord(c, b);
    SplitBytes(c);
    AddAssociates(h, LowByte(c), Extend(b));
    StepNLinear(h, Extend(TableIndex(c, b)), 8);
    EightEvenSteps(h);
    AddCommutes(HighBytes(c), TableEntry(TableIndex(c, b)));
  }

  /** The bit loop computes the register of section 8 of RFC 1952 on every message. */
  lemma {:induction false} RegisterByTable(c: bv32, s: seq<byte>)
    ensures Register(c, s) == TableRegister(c, s)
    decreases |s|
  {
    hide Step, Add, TableIndex, HighBytes, TableEntry, Update;
    if s != [] {
      UpdateByTable(c, s[0]);
      RegisterByTable(Update(c, s[0]), s[1..]);
    }
  }

  // --- Burst detection ---

  ghost predicate AllFalse(bits: seq<bool>) {
    forall i | 0 <= i < |bits| :: !bits[i]
  }

  lemma {:induction false} FeedZeros(c: bv32, bits: seq<bool>)
    requires AllFalse(bits)
    ensures Feed(c, bits) == 0 <==> c == 0
    decreases |bits|
  {
    if bits != [] {
      assert Add(c, Word(bits[0])) == c;
      assert Step(0) == 0;
      if c != 0 && Step(c) == 0 {
        StepInjective(c, 0);
      }
      hide Step, Add, Word;
      FeedZeros(Step(c), bits[1..]);
    }
  }

  /** Undoing a step that left the top bit clear: nothing was folded in, so the step was a shift. */
  lemma StepBack(c: bv32, b: bool)
    requires TopClear(Step(Add(c, Word(b))))
    ensures c == Join(Step(Add(c, Word(b))), b)
  {
  }

  /** At most 32 bits that bring the register to zero spell out the register they started from. */
  lemma {:induction false} FeedToZero(c: bv32, bits: seq<bool>)
    requires |bits| <= 32
    requires Feed(c, bits) == 0
    ensures Value(c) < Pow2(|bits|)
    ensures c == 0 ==> AllFalse(bits)
    decreases |bits|
  {
    hide Step, Add, Word, Join, Value, TopClear;
    ZeroValue(c);
    if bits != [] {
      var d := Step(Add(c, Word(bits[0])));
      FeedToZero(d, bits[1..]);
      Pow2Monotone(|bits| - 1, 31);
      Pow2At31();
      TopClearValue(d);
      StepBack(c, bits[0]);
      JoinValue(d, bits[0]);
      ZeroValue(d);
      assert c == 0 ==> forall i | 0 < i < |bits| :: bits[i] == bits[1..][i - 1];
    }
  }

  lemma {:induction false} BitsInjective(p: seq<byte>, q: seq<byte>)
    requires |p| == |q|
    requires Bits(p) == Bits(q)
    ensures p == q
    decreases |p|
  {
    hide Low, Half, Value, Extend;
    if p != [] {
      assert ByteBits(p[0]) == Bits(p)[..8] && ByteBits(q[0]) == Bits(q)[..8];
      ExtendValue(p[0]);
      ExtendValue(q[0]);
      LowBitsInjective(Extend(p[0]), Extend(q[0]), 8);
      ExtendInjective(p[0], q[0]);
      assert Bits(p[1..]) == Bits(p)[8..] && Bits(q[1..]) == Bits(q)[8..];
      BitsInjective(p[1..], q[1..]);
    }
  }

  /** The two messages differ, and only inside the 32 bits that start at bit `k`. */
  ghost predicate BurstAt(p: seq<byte>, q: seq<byte>, k: nat) {
    && |p| == |q|
    && p != q
    && forall j | 0 <= j < 8 * |p| :: Bits(p)[j] != Bits(q)[j] ==> k <= j < k + 32
  }

  /** The register leaves zero on any non-zero difference confined to 32 bits, and never returns. */
  lemma FeedBurst(e: seq<bool>, lo: nat, hi: nat)
    requires lo <= hi <= |e| && hi - lo <= 32
    requires AllFalse(e[..lo]) && AllFalse(e[hi..])
    requires !AllFalse(e)
    ensures Feed(0, e) != 0
  {
    hide Step, Add, Word;
    FeedZeros(0, e[..lo]);
    if Feed(0, e[lo..hi]) == 0 {
      FeedToZero(0, e[lo..hi]);
      forall i | 0 <= i < |e| ensures !e[i] {
        if i < lo {
          assert e[i] == e[..lo][i];
        } else if i < hi {
          assert e[i] == e[lo..hi][i - lo];
        } else {
          assert e[i] == e[hi..][i - hi];
        }
      }
      assert false;
    }
    FeedZeros(Feed(0, e[lo..hi]), e[hi..]);
    assert e == e[..lo] + (e[lo..hi] + e[hi..]);
    FeedAppend(0, e[..lo], e[lo..hi] + e[hi..]);
    FeedAppend(0, e[lo..hi], e[hi..]);
  }

  /** Any corruption confined to 32 consecutive bits changes the checksum. */
  lemma BurstDetected(p: seq<byte>, q: seq<byte>, k: nat)
    requires BurstAt(p, q, k)
    ensures Checksum(p) != Checksum(q)
  {
    hide Step, Add, Word, Update, ByteBits, Bits;
    var e := Xor(Bits(p), Bits(q));
    if AllFalse(e) {
      assert Bits(p) == Bits(q);
      BitsInjective(p, q);
      assert false;
    }
    FeedBurst(e, if k < |e| then k else |e|, if k + 32 < |e| then k + 32 else |e|);
    FeedLinear(ONES, Bits(p), ONES, Bits(q));
    RegisterIsFeed(ONES, p);
    RegisterIsFeed(ONES, q);
    AddCancels(ONES, ONES);
    AddCancels(Register(ONES, p), Register(ONES, p));
    if Checksum(p) == Checksum(q) {
      AddAssociates(Register(ONES, p), ONES, ONES);
      AddAssociates(Register(ONES, q), ONES, ONES);
      AddZero(Register(ONES, p));
      AddZero(Register(ONES, q));
    }
  }
}
