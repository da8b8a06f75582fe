/**
 Whole digests, evaluated four operations at a time: two messages of appendix A.5 of RFC 1321, one of which the
 implementation gets right and one of which it does not. They fix the tables and the initial registers.
 */
module Md5Vectors {
  import opened Bytes
  import opened Rfc1321
  import opened Md5

  // --- What each operation uses ---

  lemma Order1()
    ensures MessageWord(0) == 0 && MessageWord(1) == 1 && MessageWord(2) == 2 && MessageWord(3) == 3
    ensures MessageWord(4) == 4 && MessageWord(5) == 5 && MessageWord(6) == 6 && MessageWord(7) == 7
    ensures MessageWord(8) == 8 && MessageWord(9) == 9 && MessageWord(10) == 10 && MessageWord(11) == 11
    ensures MessageWord(12) == 12 && MessageWord(13) == 13 && MessageWord(14) == 14 && MessageWord(15) == 15
  {
  }

  lemma Shifts1()
    ensures Shift(0) == 7 && Shift(1) == 12 && Shift(2) == 17 && Shift(3) == 22
    ensures Shift(4) == 7 && Shift(5) == 12 && Shift(6) == 17 && Shift(7) == 22
    ensures Shift(8) == 7 && Shift(9) == 12 && Shift(10) == 17 && Shift(11) == 22
    ensures Shift(12) == 7 && Shift(13) == 12 && Shift(14) == 17 && Shift(15) == 22
  {
  }

  lemma Table1()
    ensures |T| == 64
    ensures T[0] == 0xd76aa478 && T[1] == 0xe8c7b756 && T[2] == 0x242070db && T[3] == 0xc1bdceee
    ensures T[4] == 0xf57c0faf && T[5] == 0x4787c62a && T[6] == 0xa8304613 && T[7] == 0xfd469501
    ensures T[8] == 0x698098d8 && T[9] == 0x8b44f7af && T[10] == 0xffff5bb1 && T[11] == 0x895cd7be
    ensures T[12] == 0x6b901122 && T[13] == 0xfd987193 && T[14] == 0xa679438e && T[15] == 0x49b40821
  {
  }

  lemma Order2()
    ensures MessageWord(16) == 1 && MessageWord(17) == 6 && MessageWord(18) == 11 && MessageWord(19) == 0
    ensures MessageWord(20) == 5 && MessageWord(21) == 10 && MessageWord(22) == 15 && MessageWord(23) == 4
    ensures MessageWord(24) == 9 && MessageWord(25) == 14 && MessageWord(26) == 3 && MessageWord(27) == 8
    ensures MessageWord(28) == 13 && MessageWord(29) == 2 && MessageWord(30) == 7 && MessageWord(31) == 12
  {
  }

  lemma Shifts2()
    ensures Shift(16) == 5 && Shift(17) == 9 && Shift(18) == 14 && Shift(19) == 20
    ensures Shift(20) == 5 && Shift(21) == 9 && Shift(22) == 14 && Shift(23) == 20
    ensures Shift(24) == 5 && Shift(25) == 9 && Shift(26) == 14 && Shift(27) == 20
    ensures Shift(28) == 5 && Shift(29) == 9 && Shift(30) == 14 && Shift(31) == 20
  {
  }

  lemma Table2()
    ensures |T| == 64
    ensures T[16] == 0xf61e2562 && T[17] == 0xc040b340 && T[18] == 0x265e5a51 && T[19] == 0xe9b6c7aa
    ensures T[20] == 0xd62f105d && T[21] == 0x02441453 && T[22] == 0xd8a1e681 && T[23] == 0xe7d3fbc8
    ensures T[24] == 0x21e1cde6 && T[25] == 0xc33707d6 && T[26] == 0xf4d50d87 && T[27] == 0x455a14ed
    ensures T[28] == 0xa9e3e905 && T[29] == 0xfcefa3f8 && T[30] == 0x676f02d9 && T[31] == 0x8d2a4c8a
  {
  }

  lemma Order3()
    ensures MessageWord(32) == 5 && MessageWord(33) == 8 && MessageWord(34) == 11 && MessageWord(35) == 14
    ensures MessageWord(36) == 1 && MessageWord(37) == 4 && MessageWord(38) == 7 && MessageWord(39) == 10
    ensures MessageWord(40) == 13 && MessageWord(41) == 0 && MessageWord(42) == 3 && MessageWord(43) == 6
    ensures MessageWord(44) == 9 && MessageWord(45) == 12 && MessageWord(46) == 15 && MessageWord(47) == 2
  {
  }

  lemma Shifts3()
    ensures Shift(32) == 4 && Shift(33) == 11 && Shift(34) == 16 && Shift(35) == 23
    ensures Shift(36) == 4 && Shift(37) == 11 && Shift(38) == 16 && Shift(39) == 23
    ensures Shift(40) == 4 && Shift(41) == 11 && Shift(42) == 16 && Shift(43) == 23
    ensures Shift(44) == 4 && Shift(45) == 11 && Shift(46) == 16 && Shift(47) == 23
  {
  }

  lemma Table3()
    ensures |T| == 64
    ensures T[32] == 0xfffa3942 && T[33] == 0x8771f681 && T[34] == 0x6d9d6122 && T[35] == 0xfde5380c
    ensures T[36] == 0xa4beea44 && T[37] == 0x4bdecfa9 && T[38] == 0xf6bb4b60 && T[39] == 0xbebfbc70
    ensures T[40] == 0x289b7ec6 && T[41] == 0xeaa127fa && T[42] == 0xd4ef3085 && T[43] == 0x04881d05
    ensures T[44] == 0xd9d4d039 && T[45] == 0xe6db99e5 && T[46] == 0x1fa27cf8 && T[47] == 0xc4ac5665
  {
  }

  lemma Order4()
    ensures MessageWord(48) == 0 && MessageWord(49) == 7 && MessageWord(50) == 14 && MessageWord(51) == 5
    ensures MessageWord(52) == 12 && MessageWord(53) == 3 && MessageWord(54) == 10 && MessageWord(55) == 1
    ensures MessageWord(56) == 8 && MessageWord(57) == 15 && MessageWord(58) == 6 && MessageWord(59) == 13
    ensures MessageWord(60) == 4 && MessageWord(61) == 11 && MessageWord(62) == 2 && MessageWord(63) == 9
  {
  }

  lemma Shifts4()
    ensures Shift(48) == 6 && Shift(49) == 10 && Shift(50) == 15 && Shift(51) == 21
    ensures Shift(52) == 6 && Shift(53) == 10 && Shift(54) == 15 && Shift(55) == 21
    ensures Shift(56) == 6 && Shift(57) == 10 && Shift(58) == 15 && Shift(59) == 21
    ensures Shift(60) == 6 && Shift(61) == 10 && Shift(62) == 15 && Shift(63) == 21
  {
  }

  lemma Table4()
    ensures |T| == 64
    ensures T[48] == 0xf4292244 && T[49] == 0x432aff97 && T[50] == 0xab9423a7 && T[51] == 0xfc93a039
    ensures T[52] == 0x655b59c3 && T[53] == 0x8f0ccc92 && T[54] == 0xffeff47d && T[55] == 0x85845dd1
    ensures T[56] == 0x6fa87e4f && T[57] == 0xfe2ce6e0 && T[58] == 0xa3014314 && T[59] == 0x4e0811a1
    ensures T[60] == 0xf7537e82 && T[61] == 0xbd3af235 && T[62] == 0x2ad7d2bb && T[63] == 0xeb86d391
  {
  }

  /** Four operations, each register assigned once. */
  lemma FourOperations(start: Registers, x: seq<bv32>, i: nat, r: Registers, s: Registers)
    requires |x| == 16 && i % 4 == 0 && i + 4 <= 64 && Operations(start, x, i) == r
    requires s.a == Mix(r.a, r.b, Auxiliary(i, r.b, r.c, r.d), x[MessageWord(i)], T[i], Shift(i))
    requires s.d == Mix(r.d, s.a, Auxiliary(i + 1, s.a, r.b, r.c), x[MessageWord(i + 1)], T[i + 1], Shift(i + 1))
    requires s.c == Mix(r.c, s.d, Auxiliary(i + 2, s.d, s.a, r.b), x[MessageWord(i + 2)], T[i + 2], Shift(i + 2))
    requires s.b == Mix(r.b, s.c, Auxiliary(i + 3, s.c, s.d, s.a), x[MessageWord(i + 3)], T[i + 3], Shift(i + 3))
    ensures Operations(start, x, i + 4) == s
  {
    hide Mix, Auxiliary, MessageWord, T, Shift;
    var q := i / 4;
    assert i == 4 * q && (i + 1) % 4 == 1 && (i + 2) % 4 == 2 && (i + 3) % 4 == 3;
    var r1, r2, r3 := Operations(start, x, i + 1), Operations(start, x, i + 2), Operations(start, x, i + 3);
    assert r1 == OperationOn(r, x, i, 0);
    assert r2 == OperationOn(r1, x, i + 1, 1);
    assert r3 == OperationOn(r2, x, i + 2, 2);
  }

  lemma NoOperation(start: Registers, x: seq<bv32>)
    requires |x| == 16
    ensures Operations(start, x, 0) == start
  {
  }

  lemma InitialIs()
    ensures INITIAL == Registers(0x67452301, 0xefcdab89, 0x98badcfe, 0x10325476)
  {
  }

  // --- Between bytes, words and digits ---

  /** The four words in a quarter of a block. */
  function FourWords(s: seq<byte>): (x: seq<bv32>)
    requires |s| == 16
    ensures |x| == 4
  {
    [FromLE32([s[0], s[1], s[2], s[3]]), FromLE32([s[4], s[5], s[6], s[7]]),
     FromLE32([s[8], s[9], s[10], s[11]]), FromLE32([s[12], s[13], s[14], s[15]])]
  }

  /** Quarter `k` of a block gives its words from `4 * k` on. */
  lemma WordsOfQuarter(before: seq<byte>, q: seq<byte>, after: seq<byte>, k: nat)
    requires k < 4 && |before| == 16 * k && |q| == 16 && |after| == 48 - 16 * k
    ensures Words(before + q + after)[4 * k..4 * k + 4] == FourWords(q)
  {
    hide FromLE32;
    var s := before + q + after;
    var i := 16 * k;
    assert s[i..i + 4] == [q[0], q[1], q[2], q[3]];
    assert s[i + 4..i + 8] == [q[4], q[5], q[6], q[7]];
    assert s[i + 8..i + 12] == [q[8], q[9], q[10], q[11]];
    assert s[i + 12..i + 16] == [q[12], q[13], q[14], q[15]];
    var x := Words(s);
    assert x[4 * k] == FourWords(q)[0] && x[4 * k + 1] == FourWords(q)[1];
    assert x[4 * k + 2] == FourWords(q)[2] && x[4 * k + 3] == FourWords(q)[3];
  }

  lemma WordsOfQuarters(a: seq<byte>, b: seq<byte>, c: seq<byte>, d: seq<byte>)
    requires |a| == 16 && |b| == 16 && |c| == 16 && |d| == 16
    ensures Words(a + b + c + d) == FourWords(a) + FourWords(b) + FourWords(c) + FourWords(d)
  {
    Parts(a, b, c, d);
    hide Words, FourWords;
    WordsOfQuarter([], a, b + c + d, 0);
    WordsOfQuarter(a, b, c + d, 1);
    WordsOfQuarter(a + b, c, d, 2);
    WordsOfQuarter(a + b + c, d, [], 3);
    FourParts(Words(a + b + c + d));
  }

  lemma Parts(a: seq<byte>, b: seq<byte>, c: seq<byte>, d: seq<byte>)
    ensures var s := a + b + c + d; s == [] + a + (b + c + d) == a + b + (c + d) == a + b + c + d + []
  {
  }

  lemma FourParts(x: seq<bv32>)
    requires |x| == 16
    ensures x == x[0..4] + x[4..8] + x[8..12] + x[12..16]
  {
  }

  lemma {:induction false} LengthZero(k: nat)
    ensures LENat(0, k) == Zeros(k)
    decreases k
  {
    if k > 0 { LengthZero(k - 1); }
  }
  lemma LengthNext(n: nat, k: nat)
    requires k > 0
    ensures LENat(n, k) == [(n % 256) as byte] + LENat(n / 256, k - 1)
  {
  }

  // --- The message abc ---

  const ABC: seq<bv32> := [
    0x80636261, 0x00000000, 0x00000000, 0x00000000,
    0x00000000, 0x00000000, 0x00000000, 0x00000000,
    0x00000000, 0x00000000, 0x00000000, 0x00000000,
    0x00000000, 0x00000000, 0x00000018, 0x00000000
  ]

  lemma AbcWords()
    ensures |ABC| == 16
    ensures ABC[0] == 0x80636261 && ABC[1] == 0x00000000 && ABC[2] == 0x00000000 && ABC[3] == 0x00000000
    ensures ABC[4] == 0x00000000 && ABC[5] == 0x00000000 && ABC[6] == 0x00000000 && ABC[7] == 0x00000000
    ensures ABC[8] == 0x00000000 && ABC[9] == 0x00000000 && ABC[10] == 0x00000000 && ABC[11] == 0x00000000
    ensures ABC[12] == 0x00000000 && ABC[13] == 0x00000000 && ABC[14] == 0x00000018 && ABC[15] == 0x00000000
  {
  }

  lemma AbcRound1(start: Registers)
    requires |ABC| == 16 && Operations(start, ABC, 0)
      == Registers(0x67452301, 0xefcdab89, 0x98badcfe, 0x10325476)
    ensures Operations(start, ABC, 16)
      == Registers(0xdda9b9a6, 0x72aff2e0, 0xe396856b, 0xa1051895)
  {
    AbcWords();
    Order1();
    Shifts1();
    Table1();
    hide Operations, T, MessageWord, Shift, ABC;
    hide T1, T2, T3, T4, ROUND1, ROUND2, ROUND3, ROUND4;
    var r0 := Registers(0x67452301, 0xefcdab89, 0x98badcfe, 0x10325476);
    var r1 := Registers(0xd6d117b4, 0x7ad956f2, 0x2f6fbd72, 0x344a8432); FourOperations(start, ABC, 0, r0, r1);
    var r2 := Registers(0xc73741ef, 0x928d99f6, 0x207dc67b, 0x8bac3051); FourOperations(start, ABC, 4, r1, r2);
    var r3 := Registers(0x854b3712, 0x5ed49596, 0x3020401c, 0x74e2f284); FourOperations(start, ABC, 8, r2, r3);
    var r4 := Registers(0xdda9b9a6, 0x72aff2e0, 0xe396856b, 0xa1051895); FourOperations(start, ABC, 12, r3, r4);
  }

  lemma AbcRound2(start: Registers)
    requires |ABC| == 16 && Operations(start, ABC, 16)
      == Registers(0xdda9b9a6, 0x72aff2e0, 0xe396856b, 0xa1051895)
    ensures Operations(start, ABC, 32)
      == Registers(0x790a77fb, 0x726342d3, 0xa62884aa, 0x9f47e4f8)
  {
    AbcWords();
    Order2();
    Shifts2();
    Table2();
    hide Operations, T, MessageWord, Shift, ABC;
    hide T1, T2, T3, T4, ROUND1, ROUND2, ROUND3, ROUND4;
    var r0 := Registers(0xdda9b9a6, 0x72aff2e0, 0xe396856b, 0xa1051895);
    var r1 := Registers(0x3e9e9126, 0xb5b204e4, 0xe25e1652, 0x4a1d804e); FourOperations(start, ABC, 16, r0, r1);
    var r2 := Registers(0x59a8ffda, 0x47092c07, 0xabfc7920, 0x6d002f1e); FourOperations(start, ABC, 20, r1, r2);
    var r3 := Registers(0xb7f268cf, 0x786acb8f, 0xfe1623b1, 0x09388eff); FourOperations(start, ABC, 24, r2, r3);
    var r4 := Registers(0x790a77fb, 0x726342d3, 0xa62884aa, 0x9f47e4f8); FourOperations(start, ABC, 28, r3, r4);
  }

  lemma AbcRound3(start: Registers)
    requires |ABC| == 16 && Operations(start, ABC, 32)
      == Registers(0x790a77fb, 0x726342d3, 0xa62884aa, 0x9f47e4f8)
    ensures Operations(start, ABC, 48)
      == Registers(0x7f2e507b, 0x7beb9700, 0x8fae6399, 0x99d9679d)
  {
    AbcWords();
    Order3();
    Shifts3();
    Table3();
    hide Operations, T, MessageWord, Shift, ABC;
    hide T1, T2, T3, T4, ROUND1, ROUND2, ROUND3, ROUND4;
    var r0 := Registers(0x790a77fb, 0x726342d3, 0xa62884aa, 0x9f47e4f8);
    var r1 := Registers(0xb3707ebf, 0x3b0875c7, 0x8d212ff5, 0x60127b2e); FourOperations(start, ABC, 32, r0, r1);
    var r2 := Registers(0x21b117b9, 0x5a2f5ea5, 0x3575227e, 0x6e7429d5); FourOperations(start, ABC, 36, r1, r2);
    var r3 := Registers(0x11de1779, 0x4c6124f4, 0x31c465ca, 0xfadcaa38); FourOperations(start, ABC, 40, r2, r3);
    var r4 := Registers(0x7f2e507b, 0x7beb9700, 0x8fae6399, 0x99d9679d); FourOperations(start, ABC, 44, r3, r4);
  }

  lemma AbcRound4(start: Registers)
    requires |ABC| == 16 && Operations(start, ABC, 48)
      == Registers(0x7f2e507b, 0x7beb9700, 0x8fae6399, 0x99d9679d)
    ensures Operations(start, ABC, 64)
      == Registers(0x310ade8f, 0xc08226b3, 0xe484b9d8, 0x624d8cb2)
  {
    AbcWords();
    Order4();
    Shifts4();
    Table4();
    hide Operations, T, MessageWord, Shift, ABC;
    hide T1, T2, T3, T4, ROUND1, ROUND2, ROUND3, ROUND4;
    var r0 := Registers(0x7f2e507b, 0x7beb9700, 0x8fae6399, 0x99d9679d);
    var r1 := Registers(0x7b201df8, 0x8bf025c4, 0xb298cefd, 0xf4e8e96e); FourOperations(start, ABC, 48, r0, r1);
    var r2 := Registers(0x06cc5e8a, 0x3bfa2c27, 0x7d632dd0, 0x5b0d97aa); FourOperations(start, ABC, 52, r1, r2);
    var r3 := Registers(0x7f81cc35, 0x7327d604, 0x4f9dbe3f, 0x094454ab); FourOperations(start, ABC, 56, r2, r3);
    var r4 := Registers(0x310ade8f, 0xc08226b3, 0xe484b9d8, 0x624d8cb2); FourOperations(start, ABC, 60, r3, r4);
  }

  lemma AbcCompressed(block: seq<byte>)
    requires |block| == 64 && Words(block) == ABC
    ensures Compress(Registers(0x67452301, 0xefcdab89, 0x98badcfe, 0x10325476), block)
      == Registers(0x98500190, 0xb04fd23c, 0x7d3f96d6, 0x727fe128)
  {
    var start := Registers(0x67452301, 0xefcdab89, 0x98badcfe, 0x10325476);
    NoOperation(start, Words(block));
    hide Operations, Words, ABC;
    AbcRound1(start);
    AbcRound2(start);
    AbcRound3(start);
    AbcRound4(start);
  }

  const ABC_TEXT: seq<byte> := [0x61, 0x62, 0x63]

  /** The first and the last quarter of its one block; those between are zero. */
  const ABC_HEAD: seq<byte> := [
    0x61, 0x62, 0x63, 0x80, 0x00, 0x00, 0x00, 0x00, 0x00, 0x00, 0x00, 0x00, 0x00, 0x00, 0x00, 0x00
  ]

  const ABC_TAIL: seq<byte> := [
    0x00, 0x00, 0x00, 0x00, 0x00, 0x00, 0x00, 0x00, 0x18, 0x00, 0x00, 0x00, 0x00, 0x00, 0x00, 0x00
  ]

  lemma AbcHead()
    ensures |ABC_HEAD| == 16 && ABC_HEAD == ABC_TEXT + [0x80] + Zeros(12)
  {
  }

  lemma AbcTail()
    ensures |ABC_TAIL| == 16 && ABC_TAIL == Zeros(8) + LENat(24, 8)
  {
    LengthZero(7);
    LengthNext(24, 8);
    hide LENat;
  }

  lemma AbcPlain()
    ensures Padded(ABC_TEXT) == ABC_TEXT + [0x80] + Zeros(52) + LENat(24, 8)
  {
    hide LENat;
  }

  lemma AbcPadding()
    ensures Padded(ABC_TEXT) == ABC_HEAD + Zeros(16) + Zeros(16) + ABC_TAIL
  {
    hide *;
    AbcPlain();
    AbcHead();
    AbcTail();
    ZerosSplit(12, 40);
    ZerosSplit(16, 24);
    ZerosSplit(16, 8);
    Regroup(ABC_TEXT + [0x80], Zeros(12), Zeros(16), Zeros(16), Zeros(8), LENat(24, 8));
  }

  lemma Regroup(t: seq<byte>, a: seq<byte>, b: seq<byte>, c: seq<byte>, d: seq<byte>, n: seq<byte>)
    ensures t + (a + (b + (c + d))) + n == (t + a) + b + c + (d + n)
  {
  }

  lemma AbcQuarters()
    ensures |ABC_HEAD| == 16 && |ABC_TAIL| == 16
    ensures ABC == FourWords(ABC_HEAD) + FourWords(Zeros(16)) + FourWords(Zeros(16)) + FourWords(ABC_TAIL)
  {
    assert FourWords(ABC_HEAD) == [0x80636261, 0, 0, 0] && FourWords(ABC_TAIL) == [0, 0, 0x18, 0];
    assert FourWords(Zeros(16)) == [0, 0, 0, 0];
    hide FourWords;
  }

  lemma AbcOutput()
    ensures Output(Registers(0x98500190, 0xb04fd23c, 0x7d3f96d6, 0x727fe128))
      == [0x90, 0x01, 0x50, 0x98, 0x3c, 0xd2, 0x4f, 0xb0,
          0xd6, 0x96, 0x3f, 0x7d, 0x28, 0xe1, 0x7f, 0x72]
  {
    assert LE32(0x98500190) == [0x90, 0x01, 0x50, 0x98];
    assert LE32(0xb04fd23c) == [0x3c, 0xd2, 0x4f, 0xb0];
    assert LE32(0x7d3f96d6) == [0xd6, 0x96, 0x3f, 0x7d];
    assert LE32(0x727fe128) == [0x28, 0xe1, 0x7f, 0x72];
    hide LE32;
  }

  /** The message abc, from the bytes to the digest that RFC 1321 gives for it, and its text. */
  lemma AbcDigest()
    ensures Encoded(ABC_TEXT) == Digest(ABC_TEXT)
      == [0x90, 0x01, 0x50, 0x98, 0x3c, 0xd2, 0x4f, 0xb0, 0xd6, 0x96, 0x3f, 0x7d, 0x28, 0xe1, 0x7f, 0x72]
  {
    assert |ABC_TEXT| == 3;
    EncodedIsDigest(ABC_TEXT);
    AbcQuarters();
    hide *;
    AbcPadding();
    var block := ABC_HEAD + Zeros(16) + Zeros(16) + ABC_TAIL;
    WordsOfQuarters(ABC_HEAD, Zeros(16), Zeros(16), ABC_TAIL);
    AbcCompressed(block);
    ProcessOneBlock(INITIAL, block);
    AbcOutput();
    DigestIs(ABC_TEXT);
    InitialIs();
  }

  lemma DigestIs(m: seq<byte>)
    ensures Digest(m) == Output(Process(INITIAL, Padded(m)))
    ensures Encoded(m) == Output(Process(INITIAL, Hashed(m)))
  {
  }

  lemma ZerosSplit(m: nat, n: nat)
    ensures Zeros(m + n) == Zeros(m) + Zeros(n)
  {
  }

  // --- A to Z, a to z, 0 to 9: 62 bytes, more than fit the last block together with the padding ---

  const TEXT1: seq<byte> := [
    0x41, 0x42, 0x43, 0x44, 0x45, 0x46, 0x47, 0x48, 0x49, 0x4a, 0x4b, 0x4c, 0x4d, 0x4e, 0x4f, 0x50
  ]

  const TEXT2: seq<byte> := [
    0x51, 0x52, 0x53, 0x54, 0x55, 0x56, 0x57, 0x58, 0x59, 0x5a, 0x61, 0x62, 0x63, 0x64, 0x65, 0x66
  ]

  const TEXT3: seq<byte> := [
    0x67, 0x68, 0x69, 0x6a, 0x6b, 0x6c, 0x6d, 0x6e, 0x6f, 0x70, 0x71, 0x72, 0x73, 0x74, 0x75, 0x76
  ]

  const TEXT4: seq<byte> := [
    0x77, 0x78, 0x79, 0x7a, 0x30, 0x31, 0x32, 0x33, 0x34, 0x35, 0x36, 0x37, 0x38, 0x39
  ]

  const LONG_TEXT: seq<byte> := TEXT1 + TEXT2 + TEXT3 + TEXT4

  /** The ends of the first padded block, of the second one, and of the one that the implementation hashes. */
  const END1: seq<byte> := [
    0x77, 0x78, 0x79, 0x7a, 0x30, 0x31, 0x32, 0x33, 0x34, 0x35, 0x36, 0x37, 0x38, 0x39, 0x80, 0x00
  ]

  const END2: seq<byte> := [
    0x00, 0x00, 0x00, 0x00, 0x00, 0x00, 0x00, 0x00, 0xf0, 0x01, 0x00, 0x00, 0x00, 0x00, 0x00, 0x00
  ]

  const ENDH: seq<byte> := [
    0x77, 0x78, 0x79, 0x7a, 0x30, 0x31, 0x32, 0x33, 0xf0, 0x01, 0x00, 0x00, 0x00, 0x00, 0x00, 0x00
  ]

  lemma LongSizes()
    ensures |TEXT1| == 16 && |TEXT2| == 16 && |TEXT3| == 16 && |TEXT4| == 14
    ensures |END1| == 16 && |END2| == 16 && |ENDH| == 16
  {
  }

  lemma LengthIs()
    ensures LENat(496, 8) == [0xF0, 1] + Zeros(6)
  {
    LengthZero(6);
    LengthNext(1, 7);
    LengthNext(496, 8);
    hide LENat;
  }

  lemma EndOne()
    ensures END1 == TEXT4 + [0x80] + Zeros(1)
  {
  }

  lemma EndTwo()
    ensures END2 == Zeros(8) + LENat(496, 8)
  {
    LengthIs();
    hide LENat;
  }

  lemma EndHashed()
    ensures |TEXT4| == 14 && ENDH == TEXT4[..8] + LENat(496, 8)
  {
    LengthIs();
    hide LENat;
  }

  lemma LongPadding()
    ensures Padded(LONG_TEXT) == (TEXT1 + TEXT2 + TEXT3 + END1) + (Zeros(16) + Zeros(16) + Zeros(16) + END2)
  {
    LongSizes();
    EndOne();
    EndTwo();
    hide LENat, TEXT1, TEXT2, TEXT3, TEXT4, END1, END2, ENDH;
    ZerosSplit(1, 56);
    ZerosSplit(48, 8);
    ZerosSplit(32, 16);
    ZerosSplit(16, 16);
    assert Padded(LONG_TEXT) == LONG_TEXT + [0x80] + (Zeros(1) + (Zeros(48) + Zeros(8))) + LENat(496, 8);
  }

  lemma LongHashing()
    ensures Hashed(LONG_TEXT) == TEXT1 + TEXT2 + TEXT3 + ENDH
  {
    LongSizes();
    EndHashed();
    hide LENat, TEXT1, TEXT2, TEXT3, TEXT4, END1, END2, ENDH;
    assert Tail(LONG_TEXT) == LONG_TEXT;
  }

  // --- The first padded block ---

  const FIRST: seq<bv32> := [
    0x44434241, 0x48474645, 0x4c4b4a49, 0x504f4e4d,
    0x54535251, 0x58575655, 0x62615a59, 0x66656463,
    0x6a696867, 0x6e6d6c6b, 0x7271706f, 0x76757473,
    0x7a797877, 0x33323130, 0x37363534, 0x00803938
  ]

  lemma FirstWords()
    ensures |FIRST| == 16
    ensures FIRST[0] == 0x44434241 && FIRST[1] == 0x48474645 && FIRST[2] == 0x4c4b4a49 && FIRST[3] == 0x504f4e4d
    ensures FIRST[4] == 0x54535251 && FIRST[5] == 0x58575655 && FIRST[6] == 0x62615a59 && FIRST[7] == 0x66656463
    ensures FIRST[8] == 0x6a696867 && FIRST[9] == 0x6e6d6c6b && FIRST[10] == 0x7271706f && FIRST[11] == 0x76757473
    ensures FIRST[12] == 0x7a797877 && FIRST[13] == 0x33323130 && FIRST[14] == 0x37363534 && FIRST[15] == 0x00803938
  {
  }

  lemma FirstRound1(start: Registers)
    requires |FIRST| == 16 && Operations(start, FIRST, 0)
      == Registers(0x67452301, 0xefcdab89, 0x98badcfe, 0x10325476)
    ensures Operations(start, FIRST, 16)
      == Registers(0x3cbdcd45, 0x5d38e690, 0xfa148c8a, 0xb8dec763)
  {
    FirstWords();
    Order1();
    Shifts1();
    Table1();
    hide Operations, T, MessageWord, Shift, FIRST;
    hide T1, T2, T3, T4, ROUND1, ROUND2, ROUND3, ROUND4;
    var r0 := Registers(0x67452301, 0xefcdab89, 0x98badcfe, 0x10325476);
    var r1 := Registers(0xc6c10796, 0x27bce07a, 0x11067980, 0x99a09999); FourOperations(start, FIRST, 0, r0, r1);
    var r2 := Registers(0xf22e6c4e, 0xa4799506, 0xa95a2fc0, 0xb4ac9218); FourOperations(start, FIRST, 4, r1, r2);
    var r3 := Registers(0x1eb3e7c1, 0x8a7612ec, 0xca27520b, 0xa6e70cfe); FourOperations(start, FIRST, 8, r2, r3);
    var r4 := Registers(0x3cbdcd45, 0x5d38e690, 0xfa148c8a, 0xb8dec763); FourOperations(start, FIRST, 12, r3, r4);
  }

  lemma FirstRound2(start: Registers)
    requires |FIRST| == 16 && Operations(start, FIRST, 16)
      == Registers(0x3cbdcd45, 0x5d38e690, 0xfa148c8a, 0xb8dec763)
    ensures Operations(start, FIRST, 32)
      == Registers(0x9b085fa9, 0xdd789ecc, 0x5993248f, 0x4400a9bd)
  {
    FirstWords();
    Order2();
    Shifts2();
    Table2();
    hide Operations, T, MessageWord, Shift, FIRST;
    hide T1, T2, T3, T4, ROUND1, ROUND2, ROUND3, ROUND4;
    var r0 := Registers(0x3cbdcd45, 0x5d38e690, 0xfa148c8a, 0xb8dec763);
    var r1 := Registers(0x04b9d52a, 0x47ae7c81, 0xd3ee3ed1, 0x783002eb); FourOperations(start, FIRST, 16, r0, r1);
    var r2 := Registers(0x2d7d8a3f, 0x75292030, 0x4b534dc3, 0xd1210823); FourOperations(start, FIRST, 20, r1, r2);
    var r3 := Registers(0x9d2a6e33, 0xf2ff6ea0, 0xd473b564, 0x0e8d2e44); FourOperations(start, FIRST, 24, r2, r3);
    var r4 := Registers(0x9b085fa9, 0xdd789ecc, 0x5993248f, 0x4400a9bd); FourOperations(start, FIRST, 28, r3, r4);
  }

  lemma FirstRound3(start: Registers)
    requires |FIRST| == 16 && Operations(start, FIRST, 32)
      == Registers(0x9b085fa9, 0xdd789ecc, 0x5993248f, 0x4400a9bd)
    ensures Operations(start, FIRST, 48)
      == Registers(0x2dbee21d, 0xf166f514, 0xee46e961, 0xe95c3a43)
  {
    FirstWords();
    Order3();
    Shifts3();
    Table3();
    hide Operations, T, MessageWord, Shift, FIRST;
    hide T1, T2, T3, T4, ROUND1, ROUND2, ROUND3, ROUND4;
    var r0 := Registers(0x9b085fa9, 0xdd789ecc, 0x5993248f, 0x4400a9bd);
    var r1 := Registers(0x21c8d2b7, 0x1b9504f8, 0x056ec119, 0x1d55a18e); FourOperations(start, FIRST, 32, r0, r1);
    var r2 := Registers(0x436b7fe9, 0xcf0341ed, 0xf404c2f6, 0x075800c1); FourOperations(start, FIRST, 36, r1, r2);
    var r3 := Registers(0x888e7d8a, 0x047b9419, 0xce620273, 0xbbdaecd8); FourOperations(start, FIRST, 40, r2, r3);
    var r4 := Registers(0x2dbee21d, 0xf166f514, 0xee46e961, 0xe95c3a43); FourOperations(start, FIRST, 44, r3, r4);
  }

  lemma FirstRound4(start: Registers)
    requires |FIRST| == 16 && Operations(start, FIRST, 48)
      == Registers(0x2dbee21d, 0xf166f514, 0xee46e961, 0xe95c3a43)
    ensures Operations(start, FIRST, 64)
      == Registers(0x1cb80f0a, 0xef2e3a46, 0x10f68731, 0xea3d3eb4)
  {
    FirstWords();
    Order4();
    Shifts4();
    Table4();
    hide Operations, T, MessageWord, Shift, FIRST;
    hide T1, T2, T3, T4, ROUND1, ROUND2, ROUND3, ROUND4;
    var r0 := Registers(0x2dbee21d, 0xf166f514, 0xee46e961, 0xe95c3a43);
    var r1 := Registers(0xe47fd4f3, 0x7a13bc5c, 0xf22aedcc, 0xfb887751); FourOperations(start, FIRST, 48, r0, r1);
    var r2 := Registers(0xa691d430, 0xefb0e72f, 0x3fc23df6, 0x528452f2); FourOperations(start, FIRST, 52, r1, r2);
    var r3 := Registers(0x27145703, 0x49d9a5b4, 0x374fbe79, 0x21a11069); FourOperations(start, FIRST, 56, r2, r3);
    var r4 := Registers(0x1cb80f0a, 0xef2e3a46, 0x10f68731, 0xea3d3eb4); FourOperations(start, FIRST, 60, r3, r4);
  }

  lemma FirstCompressed(block: seq<byte>)
    requires |block| == 64 && Words(block) == FIRST
    ensures Compress(Registers(0x67452301, 0xefcdab89, 0x98badcfe, 0x10325476), block)
      == Registers(0x83fd320b, 0xdefbe5cf, 0xa9b1642f, 0xfa6f932a)
  {
    var start := Registers(0x67452301, 0xefcdab89, 0x98badcfe, 0x10325476);
    NoOperation(start, Words(block));
    hide Operations, Words, FIRST;
    FirstRound1(start);
    FirstRound2(start);
    FirstRound3(start);
    FirstRound4(start);
  }

  // --- The second padded block ---

  const SECOND: seq<bv32> := [
    0x00000000, 0x00000000, 0x00000000, 0x00000000,
    0x00000000, 0x00000000, 0x00000000, 0x00000000,
    0x00000000, 0x00000000, 0x00000000, 0x00000000,
    0x00000000, 0x00000000, 0x000001f0, 0x00000000
  ]

  lemma SecondWords()
    ensures |SECOND| == 16
    ensures SECOND[0] == 0x00000000 && SECOND[1] == 0x00000000 && SECOND[2] == 0x00000000 && SECOND[3] == 0x00000000
    ensures SECOND[4] == 0x00000000 && SECOND[5] == 0x00000000 && SECOND[6] == 0x00000000 && SECOND[7] == 0x00000000
    ensures SECOND[8] == 0x00000000 && SECOND[9] == 0x00000000 && SECOND[10] == 0x00000000 && SECOND[11] == 0x00000000
    ensures SECOND[12] == 0x00000000 && SECOND[13] == 0x00000000 && SECOND[14] == 0x000001f0 && SECOND[15] == 0x00000000
  {
  }

  lemma SecondRound1(start: Registers)
    requires |SECOND| == 16 && Operations(start, SECOND, 0)
      == Registers(0x83fd320b, 0xdefbe5cf, 0xa9b1642f, 0xfa6f932a)
    ensures Operations(start, SECOND, 16)
      == Registers(0xa70737da, 0xa36f556f, 0x96f6586e, 0x5473f8a7)
  {
    SecondWords();
    Order1();
    Shifts1();
    Table1();
    hide Operations, T, MessageWord, Shift, SECOND;
    hide T1, T2, T3, T4, ROUND1, ROUND2, ROUND3, ROUND4;
    var r0 := Registers(0x83fd320b, 0xdefbe5cf, 0xa9b1642f, 0xfa6f932a);
    var r1 := Registers(0xeda23ed1, 0xddcf0634, 0x3c307338, 0x989939cf); FourOperations(start, SECOND, 0, r0, r1);
    var r2 := Registers(0x75144433, 0x99b6b699, 0xc783cb60, 0xc8875807); FourOperations(start, SECOND, 4, r1, r2);
    var r3 := Registers(0xa60a3f69, 0x64cc7c5a, 0x64db26e9, 0xaa6630be); FourOperations(start, SECOND, 8, r2, r3);
    var r4 := Registers(0xa70737da, 0xa36f556f, 0x96f6586e, 0x5473f8a7); FourOperations(start, SECOND, 12, r3, r4);
  }

  lemma SecondRound2(start: Registers)
    requires |SECOND| == 16 && Operations(start, SECOND, 16)
      == Registers(0xa70737da, 0xa36f556f, 0x96f6586e, 0x5473f8a7)
    ensures Operations(start, SECOND, 32)
      == Registers(0x24eba695, 0x9c03e2e8, 0x10c42a2f, 0x4bd0378b)
  {
    SecondWords();
    Order2();
    Shifts2();
    Table2();
    hide Operations, T, MessageWord, Shift, SECOND;
    hide T1, T2, T3, T4, ROUND1, ROUND2, ROUND3, ROUND4;
    var r0 := Registers(0xa70737da, 0xa36f556f, 0x96f6586e, 0x5473f8a7);
    var r1 := Registers(0xa5050ad3, 0x82b8827c, 0x27dcd8b4, 0x28776046); FourOperations(start, SECOND, 16, r0, r1);
    var r2 := Registers(0xe04f070c, 0xdf35cb56, 0xc0d22b61, 0x2f3cd2a2); FourOperations(start, SECOND, 20, r1, r2);
    var r3 := Registers(0x242dd210, 0x2291191a, 0x5c295967, 0x576ace33); FourOperations(start, SECOND, 24, r2, r3);
    var r4 := Registers(0x24eba695, 0x9c03e2e8, 0x10c42a2f, 0x4bd0378b); FourOperations(start, SECOND, 28, r3, r4);
  }

  lemma SecondRound3(start: Registers)
    requires |SECOND| == 16 && Operations(start, SECOND, 32)
      == Registers(0x24eba695, 0x9c03e2e8, 0x10c42a2f, 0x4bd0378b)
    ensures Operations(start, SECOND, 48)
      == Registers(0x54c9eb3a, 0x79c0710a, 0x2ec86f72, 0xd4d9c6ac)
  {
    SecondWords();
    Order3();
    Shifts3();
    Table3();
    hide Operations, T, MessageWord, Shift, SECOND;
    hide T1, T2, T3, T4, ROUND1, ROUND2, ROUND3, ROUND4;
    var r0 := Registers(0x24eba695, 0x9c03e2e8, 0x10c42a2f, 0x4bd0378b);
    var r1 := Registers(0x5be1d526, 0xa2448453, 0x9f4a1a7e, 0x9e414279); FourOperations(start, SECOND, 32, r0, r1);
    var r2 := Registers(0xe14e403d, 0xfe314121, 0x60cc183a, 0xe8cfd670); FourOperations(start, SECOND, 36, r1, r2);
    var r3 := Registers(0xfff62809, 0x7c7e974c, 0x8cb5221c, 0xe37209ac); FourOperations(start, SECOND, 40, r2, r3);
    var r4 := Registers(0x54c9eb3a, 0x79c0710a, 0x2ec86f72, 0xd4d9c6ac); FourOperations(start, SECOND, 44, r3, r4);
  }

  lemma SecondRound4(start: Registers)
    requires |SECOND| == 16 && Operations(start, SECOND, 48)
      == Registers(0x54c9eb3a, 0x79c0710a, 0x2ec86f72, 0xd4d9c6ac)
    ensures Operations(start, SECOND, 64)
      == Registers(0x14ae42c6, 0x16dd9203, 0x826afd76, 0xa52dae75)
  {
    SecondWords();
    Order4();
    Shifts4();
    Table4();
    hide Operations, T, MessageWord, Shift, SECOND;
    hide T1, T2, T3, T4, ROUND1, ROUND2, ROUND3, ROUND4;
    var r0 := Registers(0x54c9eb3a, 0x79c0710a, 0x2ec86f72, 0xd4d9c6ac);
    var r1 := Registers(0x02095af1, 0x2ba98e3f, 0xa8dcfe26, 0x13d245fd); FourOperations(start, SECOND, 48, r0, r1);
    var r2 := Registers(0xe126c1aa, 0xfb7bcee0, 0x6f287ff5, 0x96b00fa7); FourOperations(start, SECOND, 52, r1, r2);
    var r3 := Registers(0x452c1099, 0x5ac74608, 0xc197ea8e, 0xca801ba6); FourOperations(start, SECOND, 56, r2, r3);
    var r4 := Registers(0x14ae42c6, 0x16dd9203, 0x826afd76, 0xa52dae75); FourOperations(start, SECOND, 60, r3, r4);
  }

  lemma SecondCompressed(block: seq<byte>)
    requires |block| == 64 && Words(block) == SECOND
    ensures Compress(Registers(0x83fd320b, 0xdefbe5cf, 0xa9b1642f, 0xfa6f932a), block)
      == Registers(0x98ab74d1, 0xf5d977d2, 0x2c1c61a5, 0x9f9d419f)
  {
    var start := Registers(0x83fd320b, 0xdefbe5cf, 0xa9b1642f, 0xfa6f932a);
    NoOperation(start, Words(block));
    hide Operations, Words, SECOND;
    SecondRound1(start);
    SecondRound2(start);
    SecondRound3(start);
    SecondRound4(start);
  }

  // --- The block that the implementation hashes ---

  const ANSWER: seq<bv32> := [
    0x44434241, 0x48474645, 0x4c4b4a49, 0x504f4e4d,
    0x54535251, 0x58575655, 0x62615a59, 0x66656463,
    0x6a696867, 0x6e6d6c6b, 0x7271706f, 0x76757473,
    0x7a797877, 0x33323130, 0x000001f0, 0x00000000
  ]

  lemma AnswerWords()
    ensures |ANSWER| == 16
    ensures ANSWER[0] == 0x44434241 && ANSWER[1] == 0x48474645 && ANSWER[2] == 0x4c4b4a49 && ANSWER[3] == 0x504f4e4d
    ensures ANSWER[4] == 0x54535251 && ANSWER[5] == 0x58575655 && ANSWER[6] == 0x62615a59 && ANSWER[7] == 0x66656463
    ensures ANSWER[8] == 0x6a696867 && ANSWER[9] == 0x6e6d6c6b && ANSWER[10] == 0x7271706f && ANSWER[11] == 0x76757473
    ensures ANSWER[12] == 0x7a797877 && ANSWER[13] == 0x33323130 && ANSWER[14] == 0x000001f0 && ANSWER[15] == 0x00000000
  {
  }

  lemma AnswerRound1(start: Registers)
    requires |ANSWER| == 16 && Operations(start, ANSWER, 0)
      == Registers(0x67452301, 0xefcdab89, 0x98badcfe, 0x10325476)
    ensures Operations(start, ANSWER, 16)
      == Registers(0x3cbdcd45, 0x27305815, 0x938c1e1d, 0xb8dec763)
  {
    AnswerWords();
    Order1();
    Shifts1();
    Table1();
    hide Operations, T, MessageWord, Shift, ANSWER;
    hide T1, T2, T3, T4, ROUND1, ROUND2, ROUND3, ROUND4;
    var r0 := Registers(0x67452301, 0xefcdab89, 0x98badcfe, 0x10325476);
    var r1 := Registers(0xc6c10796, 0x27bce07a, 0x11067980, 0x99a09999); FourOperations(start, ANSWER, 0, r0, r1);
    var r2 := Registers(0xf22e6c4e, 0xa4799506, 0xa95a2fc0, 0xb4ac9218); FourOperations(start, ANSWER, 4, r1, r2);
    var r3 := Registers(0x1eb3e7c1, 0x8a7612ec, 0xca27520b, 0xa6e70cfe); FourOperations(start, ANSWER, 8, r2, r3);
    var r4 := Registers(0x3cbdcd45, 0x27305815, 0x938c1e1d, 0xb8dec763); FourOperations(start, ANSWER, 12, r3, r4);
  }

  lemma AnswerRound2(start: Registers)
    requires |ANSWER| == 16 && Operations(start, ANSWER, 16)
      == Registers(0x3cbdcd45, 0x27305815, 0x938c1e1d, 0xb8dec763)
    ensures Operations(start, ANSWER, 32)
      == Registers(0x71a8d52f, 0xaa9d302e, 0x2dd62848, 0x905a619b)
  {
    AnswerWords();
    Order2();
    Shifts2();
    Table2();
    hide Operations, T, MessageWord, Shift, ANSWER;
    hide T1, T2, T3, T4, ROUND1, ROUND2, ROUND3, ROUND4;
    var r0 := Registers(0x3cbdcd45, 0x27305815, 0x938c1e1d, 0xb8dec763);
    var r1 := Registers(0xeda27948, 0x182852e0, 0xd386c24e, 0x4ffc824a); FourOperations(start, ANSWER, 16, r0, r1);
    var r2 := Registers(0xa28c9ab6, 0xa41c79ba, 0xc0895909, 0x5fbfff54); FourOperations(start, ANSWER, 20, r1, r2);
    var r3 := Registers(0x83263dd0, 0xc7088233, 0x9c39b994, 0x99abd75e); FourOperations(start, ANSWER, 24, r2, r3);
    var r4 := Registers(0x71a8d52f, 0xaa9d302e, 0x2dd62848, 0x905a619b); FourOperations(start, ANSWER, 28, r3, r4);
  }

  lemma AnswerRound3(start: Registers)
    requires |ANSWER| == 16 && Operations(start, ANSWER, 32)
      == Registers(0x71a8d52f, 0xaa9d302e, 0x2dd62848, 0x905a619b)
    ensures Operations(start, ANSWER, 48)
      == Registers(0xdc4569d2, 0x9c0a85f4, 0x43d5b65f, 0x61fb1228)
  {
    AnswerWords();
    Order3();
    Shifts3();
    Table3();
    hide Operations, T, MessageWord, Shift, ANSWER;
    hide T1, T2, T3, T4, ROUND1, ROUND2, ROUND3, ROUND4;
    var r0 := Registers(0x71a8d52f, 0xaa9d302e, 0x2dd62848, 0x905a619b);
    var r1 := Registers(0xbb5b1c6c, 0x3bbc8436, 0x8d789500, 0xe97f8a5e); FourOperations(start, ANSWER, 32, r0, r1);
    var r2 := Registers(0xbd8b0a06, 0x1bbaa82e, 0xc9287f38, 0xc3c74eae); FourOperations(start, ANSWER, 36, r1, r2);
    var r3 := Registers(0xc69fe370, 0x5a3bbc5d, 0x9d0f9d3b, 0x8e0a5ba5); FourOperations(start, ANSWER, 40, r2, r3);
    var r4 := Registers(0xdc4569d2, 0x9c0a85f4, 0x43d5b65f, 0x61fb1228); FourOperations(start, ANSWER, 44, r3, r4);
  }

  lemma AnswerRound4(start: Registers)
    requires |ANSWER| == 16 && Operations(start, ANSWER, 48)
      == Registers(0xdc4569d2, 0x9c0a85f4, 0x43d5b65f, 0x61fb1228)
    ensures Operations(start, ANSWER, 64)
      == Registers(0x6ab7cf17, 0x7841e2af, 0xb2003fd3, 0x5c9241d2)
  {
    AnswerWords();
    Order4();
    Shifts4();
    Table4();
    hide Operations, T, MessageWord, Shift, ANSWER;
    hide T1, T2, T3, T4, ROUND1, ROUND2, ROUND3, ROUND4;
    var r0 := Registers(0xdc4569d2, 0x9c0a85f4, 0x43d5b65f, 0x61fb1228);
    var r1 := Registers(0x3f5505f0, 0xc2abd851, 0xaff842b5, 0x444d9eac); FourOperations(start, ANSWER, 48, r0, r1);
    var r2 := Registers(0x9e10dc6d, 0xf3aac1dd, 0x871e6481, 0x358c016e); FourOperations(start, ANSWER, 52, r1, r2);
    var r3 := Registers(0x35c261da, 0xc748280d, 0x6edf74f2, 0x3e4c28e2); FourOperations(start, ANSWER, 56, r2, r3);
    var r4 := Registers(0x6ab7cf17, 0x7841e2af, 0xb2003fd3, 0x5c9241d2); FourOperations(start, ANSWER, 60, r3, r4);
  }

  lemma AnswerCompressed(block: seq<byte>)
    requires |block| == 64 && Words(block) == ANSWER
    ensures Compress(Registers(0x67452301, 0xefcdab89, 0x98badcfe, 0x10325476), block)
      == Registers(0xd1fcf218, 0x680f8e38, 0x4abb1cd1, 0x6cc49648)
  {
    var start := Registers(0x67452301, 0xefcdab89, 0x98badcfe, 0x10325476);
    NoOperation(start, Words(block));
    hide Operations, Words, ANSWER;
    AnswerRound1(start);
    AnswerRound2(start);
    AnswerRound3(start);
    AnswerRound4(start);
  }

  lemma QuarterWords()
    ensures |TEXT1| == 16 && |TEXT2| == 16 && |TEXT3| == 16 && |END1| == 16 && |END2| == 16 && |ENDH| == 16
    ensures FourWords(TEXT1) == [0x44434241, 0x48474645, 0x4c4b4a49, 0x504f4e4d]
    ensures FourWords(TEXT2) == [0x54535251, 0x58575655, 0x62615a59, 0x66656463]
    ensures FourWords(TEXT3) == [0x6a696867, 0x6e6d6c6b, 0x7271706f, 0x76757473]
    ensures FourWords(END1) == [0x7a797877, 0x33323130, 0x37363534, 0x00803938]
    ensures FourWords(END2) == [0x00000000, 0x00000000, 0x000001f0, 0x00000000]
    ensures FourWords(ENDH) == [0x7a797877, 0x33323130, 0x000001f0, 0x00000000]
    ensures FourWords(Zeros(16)) == [0, 0, 0, 0]
  {
  }

  lemma FirstQuarters()
    ensures |TEXT1| == 16 && |TEXT2| == 16 && |TEXT3| == 16 && |END1| == 16 && |END2| == 16 && |ENDH| == 16
    ensures FIRST == FourWords(TEXT1) + FourWords(TEXT2) + FourWords(TEXT3) + FourWords(END1)
  {
    QuarterWords();
    hide FourWords, TEXT1, TEXT2, TEXT3, END1, END2, ENDH;
  }

  lemma SecondQuarters()
    ensures |TEXT1| == 16 && |TEXT2| == 16 && |TEXT3| == 16 && |END1| == 16 && |END2| == 16 && |ENDH| == 16
    ensures SECOND == FourWords(Zeros(16)) + FourWords(Zeros(16)) + FourWords(Zeros(16)) + FourWords(END2)
  {
    QuarterWords();
    hide FourWords, TEXT1, TEXT2, TEXT3, END1, END2, ENDH;
  }

  lemma AnswerQuarters()
    ensures |TEXT1| == 16 && |TEXT2| == 16 && |TEXT3| == 16 && |END1| == 16 && |END2| == 16 && |ENDH| == 16
    ensures ANSWER == FourWords(TEXT1) + FourWords(TEXT2) + FourWords(TEXT3) + FourWords(ENDH)
  {
    QuarterWords();
    hide FourWords, TEXT1, TEXT2, TEXT3, END1, END2, ENDH;
  }

  lemma SecondOutput()
    ensures Output(Registers(0x98ab74d1, 0xf5d977d2, 0x2c1c61a5, 0x9f9d419f))
      == [0xd1, 0x74, 0xab, 0x98, 0xd2, 0x77, 0xd9, 0xf5,
          0xa5, 0x61, 0x1c, 0x2c, 0x9f, 0x41, 0x9d, 0x9f]
  {
    assert LE32(0x98ab74d1) == [0xd1, 0x74, 0xab, 0x98];
    assert LE32(0xf5d977d2) == [0xd2, 0x77, 0xd9, 0xf5];
    assert LE32(0x2c1c61a5) == [0xa5, 0x61, 0x1c, 0x2c];
    assert LE32(0x9f9d419f) == [0x9f, 0x41, 0x9d, 0x9f];
    hide LE32;
  }

  lemma AnswerOutput()
    ensures Output(Registers(0xd1fcf218, 0x680f8e38, 0x4abb1cd1, 0x6cc49648))
      == [0x18, 0xf2, 0xfc, 0xd1, 0x38, 0x8e, 0x0f, 0x68,
          0xd1, 0x1c, 0xbb, 0x4a, 0x48, 0x96, 0xc4, 0x6c]
  {
    assert LE32(0xd1fcf218) == [0x18, 0xf2, 0xfc, 0xd1];
    assert LE32(0x680f8e38) == [0x38, 0x8e, 0x0f, 0x68];
    assert LE32(0x4abb1cd1) == [0xd1, 0x1c, 0xbb, 0x4a];
    assert LE32(0x6cc49648) == [0x48, 0x96, 0xc4, 0x6c];
    hide LE32;
  }

  /** What RFC 1321 gives for this message. */
  lemma LongDigest()
    ensures Digest(LONG_TEXT)
      == [0xd1, 0x74, 0xab, 0x98, 0xd2, 0x77, 0xd9, 0xf5,
          0xa5, 0x61, 0x1c, 0x2c, 0x9f, 0x41, 0x9d, 0x9f]
  {
    FirstQuarters();
    SecondQuarters();
    hide *;
    LongPadding();
    DigestIs(LONG_TEXT);
    InitialIs();
    var first, second := TEXT1 + TEXT2 + TEXT3 + END1, Zeros(16) + Zeros(16) + Zeros(16) + END2;
    WordsOfQuarters(TEXT1, TEXT2, TEXT3, END1);
    WordsOfQuarters(Zeros(16), Zeros(16), Zeros(16), END2);
    FirstCompressed(first);
    SecondCompressed(second);
    ProcessTwoBlocks(INITIAL, first, second);
    SecondOutput();
  }

  lemma ProcessTwoBlocks(r: Registers, a: seq<byte>, b: seq<byte>)
    requires |a| == 64 && |b| == 64
    ensures Process(r, a + b) == Compress(Compress(r, a), b)
  {
    hide Compress;
    assert (a + b)[..64] == a && (a + b)[64..] == b;
    ProcessOneBlock(Compress(r, a), b);
  }

  /** What the implementation answers for it: not its MD5 digest. */
  lemma LongAnswer()
    ensures Encoded(LONG_TEXT)
      == [0x18, 0xf2, 0xfc, 0xd1, 0x38, 0x8e, 0x0f, 0x68,
          0xd1, 0x1c, 0xbb, 0x4a, 0x48, 0x96, 0xc4, 0x6c]
    ensures Encoded(LONG_TEXT) != Digest(LONG_TEXT)
  {
    AnswerQuarters();
    LongDigest();
    hide *;
    LongHashing();
    DigestIs(LONG_TEXT);
    InitialIs();
    WordsOfQuarters(TEXT1, TEXT2, TEXT3, ENDH);
    AnswerCompressed(TEXT1 + TEXT2 + TEXT3 + ENDH);
    ProcessOneBlock(INITIAL, TEXT1 + TEXT2 + TEXT3 + ENDH);
    AnswerOutput();
    assert Encoded(LONG_TEXT)[0] != Digest(LONG_TEXT)[0];
  }
}
