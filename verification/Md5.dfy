/** MD5 as sections 3.1 to 3.5 of RFC 1321 describe it: sixty-four operations on four named registers. */
module Rfc1321 {
  import opened Bytes

  /** The table of section 3.4, T[1] to T[64] at positions 0 to 63, sixteen for each round. */
  const T1: seq<bv32> := [
    0xd76aa478, 0xe8c7b756, 0x242070db, 0xc1bdceee, 0xf57c0faf, 0x4787c62a, 0xa8304613, 0xfd469501,
    0x698098d8, 0x8b44f7af, 0xffff5bb1, 0x895cd7be, 0x6b901122, 0xfd987193, 0xa679438e, 0x49b40821
  ]
  const T2: seq<bv32> := [
    0xf61e2562, 0xc040b340, 0x265e5a51, 0xe9b6c7aa, 0xd62f105d, 0x02441453, 0xd8a1e681, 0xe7d3fbc8,
    0x21e1cde6, 0xc33707d6, 0xf4d50d87, 0x455a14ed, 0xa9e3e905, 0xfcefa3f8, 0x676f02d9, 0x8d2a4c8a
  ]
  const T3: seq<bv32> := [
    0xfffa3942, 0x8771f681, 0x6d9d6122, 0xfde5380c, 0xa4beea44, 0x4bdecfa9, 0xf6bb4b60, 0xbebfbc70,
    0x289b7ec6, 0xeaa127fa, 0xd4ef3085, 0x04881d05, 0xd9d4d039, 0xe6db99e5, 0x1fa27cf8, 0xc4ac5665
  ]
  const T4: seq<bv32> := [
    0xf4292244, 0x432aff97, 0xab9423a7, 0xfc93a039, 0x655b59c3, 0x8f0ccc92, 0xffeff47d, 0x85845dd1,
    0x6fa87e4f, 0xfe2ce6e0, 0xa3014314, 0x4e0811a1, 0xf7537e82, 0xbd3af235, 0x2ad7d2bb, 0xeb86d391
  ]
  const T: seq<bv32> := T1 + T2 + T3 + T4

  /** Which message word each operation of rounds 1 to 4 reads, in the order they are listed. */
  const ROUND1: seq<nat> := [0, 1, 2, 3, 4, 5, 6, 7, 8, 9, 10, 11, 12, 13, 14, 15]
  const ROUND2: seq<nat> := [1, 6, 11, 0, 5, 10, 15, 4, 9, 14, 3, 8, 13, 2, 7, 12]
  const ROUND3: seq<nat> := [5, 8, 11, 14, 1, 4, 7, 10, 13, 0, 3, 6, 9, 12, 15, 2]
  const ROUND4: seq<nat> := [0, 7, 14, 5, 12, 3, 10, 1, 8, 15, 6, 13, 4, 11, 2, 9]

  /** The rotations each round cycles through. */
  const SHIFT1: seq<bv32> := [7, 12, 17, 22]
  const SHIFT2: seq<bv32> := [5, 9, 14, 20]
  const SHIFT3: seq<bv32> := [4, 11, 16, 23]
  const SHIFT4: seq<bv32> := [6, 10, 15, 21]

  datatype Registers = Registers(a: bv32, b: bv32, c: bv32, d: bv32)

  const INITIAL := Registers(0x67452301, 0xefcdab89, 0x98badcfe, 0x10325476)

  /** Addition modulo 2^32. */
  function Plus(x: bv32, y: bv32): bv32 { x + y }

  function F(x: bv32, y: bv32, z: bv32): bv32 { (x & y) | (!x & z) }

  function G(x: bv32, y: bv32, z: bv32): bv32 { (x & z) | (y & !z) }

  function H(x: bv32, y: bv32, z: bv32): bv32 { x ^ y ^ z }

  function I(x: bv32, y: bv32, z: bv32): bv32 { y ^ (x | !z) }

  function Rotate(x: bv32, n: bv32): bv32
    requires n <= 32
  {
    (x << n) | (x >> (32 - n))
  }

  // --- What these functions do ---

  /** F chooses: the bits of y where x has ones, those of z where it has zeros. */
  lemma FChooses(x: bv32, y: bv32, z: bv32)
    ensures F(x, y, z) & x == y & x
    ensures F(x, y, z) & !x == z & !x
  {
  }

  /** G chooses: the bits of x where z has ones, those of y where it has zeros. */
  lemma GChooses(x: bv32, y: bv32, z: bv32)
    ensures G(x, y, z) & z == x & z
    ensures G(x, y, z) & !z == y & !z
  {
  }

  /** H is the parity: with it, the four words cancel. */
  lemma HParity(x: bv32, y: bv32, z: bv32)
    ensures H(x, y, z) ^ x ^ y ^ z == 0
  {
  }

  /** I is y turned over where x has ones or z has zeros, and y elsewhere. */
  lemma ITurnsOver(x: bv32, y: bv32, z: bv32)
    ensures I(x, y, z) & x == !y & x
    ensures I(x, y, z) & !z == !y & !z
    ensures I(x, y, z) & (!x & z) == y & (!x & z)
  {
  }

  /** The rotation: the bits that stay inside move `n` places up, and the others come in at the bottom. */
  lemma RotateMoves(x: bv32, n: bv32)
    requires n <= 32
    ensures Rotate(x, n) >> n == (x << n) >> n
    ensures Rotate(x, n) & (0xFFFF_FFFF >> (32 - n)) == x >> (32 - n)
  {
    MovedUp(x, n);
    ComeIn(x, n);
    hide Rotate;
  }

  lemma MovedUp(x: bv32, n: bv32)
    requires n <= 32
    ensures Rotate(x, n) >> n == (x << n) >> n
  {
  }

  lemma ComeIn(x: bv32, n: bv32)
    requires n <= 32
    ensures Rotate(x, n) & (0xFFFF_FFFF >> (32 - n)) == x >> (32 - n)
  {
  }

  /** The initial registers are the bytes 01 to ef and back, low-order byte first. */
  lemma InitialBytes()
    ensures Output(INITIAL) == [0x01, 0x23, 0x45, 0x67, 0x89, 0xab, 0xcd, 0xef,
                                0xfe, 0xdc, 0xba, 0x98, 0x76, 0x54, 0x32, 0x10]
  {
    assert LE32(0x67452301) == [0x01, 0x23, 0x45, 0x67] && LE32(0xefcdab89) == [0x89, 0xab, 0xcd, 0xef];
    assert LE32(0x98badcfe) == [0xfe, 0xdc, 0xba, 0x98] && LE32(0x10325476) == [0x76, 0x54, 0x32, 0x10];
    hide LE32;
  }

  /** The four-word auxiliary function of operation `i`'s round. */
  function Auxiliary(i: nat, x: bv32, y: bv32, z: bv32): bv32 {
    if i < 16 then F(x, y, z) else if i < 32 then G(x, y, z) else if i < 48 then H(x, y, z) else I(x, y, z)
  }

  function MessageWord(i: nat): (k: nat)
    requires i < 64
    ensures k < 16
  {
    if i < 16 then ROUND1[i] else if i < 32 then ROUND2[i - 16] else if i < 48 then ROUND3[i - 32] else ROUND4[i - 48]
  }

  function Shift(i: nat): (s: bv32)
    requires i < 64
    ensures s <= 32
  {
    if i < 16 then SHIFT1[i % 4] else if i < 32 then SHIFT2[i % 4] else if i < 48 then SHIFT3[i % 4] else SHIFT4[i % 4]
  }

  /** a := b + ((a + f + x + t) <<< s) */
  function Mix(a: bv32, b: bv32, f: bv32, x: bv32, t: bv32, s: bv32): bv32
    requires s <= 32
  {
    Plus(b, Rotate(Plus(Plus(Plus(a, f), x), t), s))
  }

  /** Operation `i` of section 3.4 on the registers ABCD, DABC, CDAB or BCDA, for `k` from 0 to 3. */
  function OperationOn(r: Registers, x: seq<bv32>, i: nat, k: nat): Registers
    requires |x| == 16 && i < 64
  {
    var w, t, s := x[MessageWord(i)], T[i], Shift(i);
    match k
    case 0 => r.(a := Mix(r.a, r.b, Auxiliary(i, r.b, r.c, r.d), w, t, s))
    case 1 => r.(d := Mix(r.d, r.a, Auxiliary(i, r.a, r.b, r.c), w, t, s))
    case 2 => r.(c := Mix(r.c, r.d, Auxiliary(i, r.d, r.a, r.b), w, t, s))
    case _ => r.(b := Mix(r.b, r.c, Auxiliary(i, r.c, r.d, r.a), w, t, s))
  }

  /** Operation `i`: the four orders take turns. */
  function Operation(r: Registers, x: seq<bv32>, i: nat): Registers
    requires |x| == 16 && i < 64
  {
    OperationOn(r, x, i, i % 4)
  }

  /** The registers after the first `n` operations on one block. */
  function Operations(r: Registers, x: seq<bv32>, n: nat): Registers
    requires |x| == 16 && n <= 64
    decreases n
  {
    if n == 0 then r else Operation(Operations(r, x, n - 1), x, n - 1)
  }

  function AddRegisters(r: Registers, s: Registers): Registers {
    Registers(Plus(r.a, s.a), Plus(r.b, s.b), Plus(r.c, s.c), Plus(r.d, s.d))
  }

  /** The sixteen words of a block, low-order byte first. */
  function Words(block: seq<byte>): (x: seq<bv32>)
    requires |block| == 64
    ensures |x| == 16
  {
    seq(16, i requires 0 <= i < 16 => FromLE32(block[4 * i..4 * i + 4]))
  }

  function Compress(r: Registers, block: seq<byte>): Registers
    requires |block| == 64
  {
    AddRegisters(Operations(r, Words(block), 64), r)
  }

  /** Section 3.4 over a whole number of blocks. */
  function Process(r: Registers, stream: seq<byte>): Registers
    decreases |stream|
  {
    if |stream| < 64 then r else Process(Compress(r, stream[..64]), stream[64..])
  }

  /** Sections 3.1 and 3.2: one bit, zeros up to 448 modulo 512, the length in bits modulo 2^64. */
  function Padded(m: seq<byte>): (p: seq<byte>) {
    m + [0x80] + Zeros((55 - |m|) % 64) + LENat(8 * |m| % Pow256(8), 8)
  }

  lemma PaddedLength(m: seq<byte>)
    ensures |Padded(m)| % 64 == 0
    ensures |Padded(m)| == |m| - |m| % 64 + (if |m| % 64 <= 55 then 64 else 128)
  {
    hide LENat, Pow256;
    var q, u := |m| / 64, |m| % 64;
    assert |m| == 64 * q + u;
    if u <= 55 {
      assert 55 - |m| == 64 * (-q) + (55 - u);
      assert (55 - |m|) % 64 == 55 - u;
    } else {
      assert 55 - |m| == 64 * (-q - 1) + (119 - u);
      assert (55 - |m|) % 64 == 119 - u;
    }
  }

  /** Section 3.5: the registers, low-order byte first. */
  function Output(r: Registers): (s: seq<byte>)
    ensures |s| == 16
  {
    LE32(r.a) + LE32(r.b) + LE32(r.c) + LE32(r.d)
  }

  function Digest(m: seq<byte>): seq<byte> {
    Output(Process(INITIAL, Padded(m)))
  }
}

/** The implementation in server/src/md5.c. */
module Md5 {
  import opened Bytes
  import opened Rfc1321

  /** The rotation table, one row a round. */
  const S1: seq<bv32> := [7, 12, 17, 22, 7, 12, 17, 22, 7, 12, 17, 22, 7, 12, 17, 22]
  const S2: seq<bv32> := [5,  9, 14, 20, 5,  9, 14, 20, 5,  9, 14, 20, 5,  9, 14, 20]
  const S3: seq<bv32> := [4, 11, 16, 23, 4, 11, 16, 23, 4, 11, 16, 23, 4, 11, 16, 23]
  const S4: seq<bv32> := [6, 10, 15, 21, 6, 10, 15, 21, 6, 10, 15, 21, 6, 10, 15, 21]
  const S: seq<bv32> := S1 + S2 + S3 + S4

  /** size_t on the 32-bit target. */
  const SIZE_T: nat := 0x1_0000_0000

  // --- What the implementation hashes ---

  /** The bytes of the last, partial block. */
  function Tail(m: seq<byte>): (t: seq<byte>)
    ensures |t| == |m| % 64
  {
    m[|m| - |m| % 64..]
  }

  /** The single block that ends every message: bytes 56 to 63 are the length, whatever the tail had put there. */
  function LastBlock(m: seq<byte>): (b: seq<byte>)
    ensures |b| == 64
  {
    var t := Tail(m);
    (if |t| <= 55 then t + [0x80] + Zeros(55 - |t|) else t[..56]) + LENat(8 * |m| % SIZE_T, 8)
  }

  function Hashed(m: seq<byte>): seq<byte> {
    m[..|m| - |m| % 64] + LastBlock(m)
  }

  function Encoded(m: seq<byte>): (s: seq<byte>)
    ensures |s| == 16
  {
    Output(Process(INITIAL, Hashed(m)))
  }

  lemma {:induction false} LENatInjective(x: nat, y: nat, k: nat)
    requires x < Pow256(k) && y < Pow256(k) && LENat(x, k) == LENat(y, k)
    ensures x == y
  {
    LENatRoundTrip(x, k);
    LENatRoundTrip(y, k);
  }

  /** The length field is right exactly below 2^29 bytes. */
  lemma LengthField(n: nat)
    requires n < SIZE_T
    ensures LENat(8 * n % SIZE_T, 8) == LENat(8 * n % Pow256(8), 8) <==> n < 0x2000_0000
  {
    assert Pow256(4) == SIZE_T;
    assert Pow256(8) == SIZE_T * SIZE_T;
    hide LENat, Pow256;
    assert 8 * n % Pow256(8) == 8 * n;
    if n < 0x2000_0000 {
      assert 8 * n % SIZE_T == 8 * n;
    } else if LENat(8 * n % SIZE_T, 8) == LENat(8 * n, 8) {
      LENatInjective(8 * n % SIZE_T, 8 * n, 8);
      assert false;
    }
  }

  /**
   The bytes the implementation hashes are the padded message of RFC 1321 exactly when the last block has room for
   the padding and the bit count fits size_t.
   */
  lemma HashedIsPadded(m: seq<byte>)
    requires |m| < SIZE_T
    ensures Hashed(m) == Padded(m) <==> |m| % 64 <= 55 && |m| < 0x2000_0000
  {
    hide LENat, Pow256;
    PaddedLength(m);
    LengthField(|m|);
    var u, n := |m| % 64, |m|;
    if u <= 55 {
      assert (55 - n) % 64 == 55 - u by {
        assert |Padded(m)| == n + 1 + (55 - n) % 64 + 8;
      }
      assert m == m[..n - u] + Tail(m);
      assert Hashed(m) == m + [0x80] + Zeros(55 - u) + LENat(8 * n % SIZE_T, 8);
      if Hashed(m) == Padded(m) {
        assert Hashed(m)[n - u + 56..] == LENat(8 * n % SIZE_T, 8);
        assert Padded(m)[n - u + 56..] == LENat(8 * n % Pow256(8), 8);
      }
    } else {
      assert |Hashed(m)| != |Padded(m)|;
    }
  }

  /** On those lengths the implementation computes MD5. */
  lemma EncodedIsDigest(m: seq<byte>)
    requires |m| % 64 <= 55 && |m| < 0x2000_0000
    ensures Encoded(m) == Digest(m)
  {
    HashedIsPadded(m);
  }

  /** On the other tails it does not look at the bytes past position 56 of the last block. */
  lemma LongTailIgnored(m: seq<byte>, m': seq<byte>)
    requires |m| == |m'| && |m| % 64 >= 56
    requires forall i | 0 <= i < |m| - |m| % 64 + 56 :: m[i] == m'[i]
    ensures Encoded(m) == Encoded(m')
  {
    hide LENat, Process, Output;
    var k := |m| - |m| % 64;
    assert m[..k] == m'[..k];
    assert Tail(m)[..56] == Tail(m')[..56];
  }

  /** So one of two messages that differ only there does not get its digest, unless their digests are the same. */
  lemma LongTailWrong(m: seq<byte>, m': seq<byte>)
    requires |m| == |m'| && |m| % 64 >= 56 && m != m'
    requires forall i | 0 <= i < |m| - |m| % 64 + 56 :: m[i] == m'[i]
    ensures Padded(m) != Padded(m')
    ensures Digest(m) != Digest(m') ==> Encoded(m) != Digest(m) || Encoded(m') != Digest(m')
  {
    LongTailIgnored(m, m');
    PaddedDiffer(m, m');
    hide Encoded, Digest, Padded;
  }

  lemma PaddedDiffer(m: seq<byte>, m': seq<byte>)
    requires |m| == |m'| && m != m'
    ensures Padded(m) != Padded(m')
  {
    hide LENat, Pow256;
    assert Padded(m)[..|m|] == m && Padded(m')[..|m|] == m';
  }

  // --- The rotating registers ---

  /** The registers moved `k` places round. */
  function RotatedBy(r: Registers, k: nat): Registers {
    match k
    case 0 => r
    case 1 => Registers(r.d, r.a, r.b, r.c)
    case 2 => Registers(r.c, r.d, r.a, r.b)
    case _ => Registers(r.b, r.c, r.d, r.a)
  }

  /** How the implementation holds the named registers before operation `i`: one place further round each time. */
  function Rotated(r: Registers, i: nat): Registers {
    RotatedBy(r, i % 4)
  }

  /** One turn of any of the four loops. */
  function Turn(r: Registers, x: seq<bv32>, i: nat): Registers
    requires |x| == 16 && i < 64
  {
    Registers(r.d, Mix(r.a, r.b, Auxiliary(i, r.b, r.c, r.d), x[MessageWord(i)], T[i], Shift(i)), r.b, r.c)
  }

  lemma TurnOn(r: Registers, x: seq<bv32>, i: nat, k: nat)
    requires |x| == 16 && i < 64 && k < 4
    ensures Turn(RotatedBy(r, k), x, i) == RotatedBy(OperationOn(r, x, i, k), if k == 3 then 0 else k + 1)
  {
    hide Mix, Auxiliary, MessageWord, Shift, T;
  }

  /** Rotating the variables instead of the names computes the same operation. */
  lemma TurnIsOperation(r: Registers, x: seq<bv32>, i: nat)
    requires |x| == 16 && i < 64
    ensures Turn(Rotated(r, i), x, i) == Rotated(Operation(r, x, i), i + 1)
  {
    NextResidue(i);
    TurnOn(r, x, i, i % 4);
    hide Turn, RotatedBy, OperationOn;
  }

  lemma NextResidue(i: nat)
    ensures (i + 1) % 4 == if i % 4 == 3 then 0 else i % 4 + 1
  {
  }

  lemma Round1Word(i: nat)
    requires i < 16
    ensures MessageWord(i) == i
  {
  }

  lemma Round2Word(i: nat)
    requires 16 <= i < 32
    ensures MessageWord(i) == (5 * i + 1) % 16
  {
    var j := i - 16;
    assert (5 * i + 1) % 16 == (5 * j + 1) % 16;
    if j < 8 { } else { }
  }

  lemma Round3Word(i: nat)
    requires 32 <= i < 48
    ensures MessageWord(i) == (3 * i + 5) % 16
  {
    var j := i - 32;
    assert (3 * i + 5) % 16 == (3 * j + 5) % 16;
  }

  lemma Round4Word(i: nat)
    requires 48 <= i < 64
    ensures MessageWord(i) == 7 * i % 16
  {
    var j := i - 48;
    assert (7 * i) % 16 == (7 * j) % 16;
  }

  predicate Cycles<A(==)>(row: seq<A>, shifts: seq<A>) {
    |row| == 16 && |shifts| == 4 && forall j | 0 <= j < 16 :: row[j] == shifts[j % 4]
  }

  lemma FourByFour<A>(a: A, b: A, c: A, d: A)
    ensures Cycles([a, b, c, d, a, b, c, d, a, b, c, d, a, b, c, d], [a, b, c, d])
  {
    forall j | 0 <= j < 16
      ensures [a, b, c, d, a, b, c, d, a, b, c, d, a, b, c, d][j] == [a, b, c, d][j % 4]
    {
      assert j % 4 == 0 ==> j == 0 || j == 4 || j == 8 || j == 12;
      assert j % 4 == 1 ==> j == 1 || j == 5 || j == 9 || j == 13;
      assert j % 4 == 2 ==> j == 2 || j == 6 || j == 10 || j == 14;
      assert j % 4 == 3 ==> j == 3 || j == 7 || j == 11 || j == 15;
    }
  }

  lemma FourRows<A>(s1: seq<A>, s2: seq<A>, s3: seq<A>, s4: seq<A>, i: nat)
    requires |s1| == |s2| == |s3| == |s4| == 16 && i < 64
    ensures (s1 + s2 + s3 + s4)[i] == (if i < 16 then s1 else if i < 32 then s2 else if i < 48 then s3 else s4)[i % 16]
  {
  }

  lemma ShiftRows()
    ensures Cycles(S1, SHIFT1) && Cycles(S2, SHIFT2)
    ensures Cycles(S3, SHIFT3) && Cycles(S4, SHIFT4)
  {
    hide Cycles;
    FourByFour<bv32>(7, 12, 17, 22);
    FourByFour<bv32>(5, 9, 14, 20);
    FourByFour<bv32>(4, 11, 16, 23);
    FourByFour<bv32>(6, 10, 15, 21);
  }

  lemma ModSixteenFour(i: nat)
    requires i < 64
    ensures i % 16 % 4 == i % 4
  {
    if i < 16 {
      assert i % 16 == i;
    } else if i < 32 {
      assert i % 16 == i - 16;
    } else if i < 48 {
      assert i % 16 == i - 32;
    } else {
      assert i % 16 == i - 48;
    }
  }

  lemma ShiftTable(i: nat)
    requires i < 64
    ensures |S| == 64 && S[i] == Shift(i)
  {
    hide S1, S2, S3, S4, SHIFT1, SHIFT2, SHIFT3, SHIFT4;
    ShiftRows();
    FourRows(S1, S2, S3, S4, i);
    ModSixteenFour(i);
  }

  // --- The implementation ---

  lemma MixIs(a: bv32, b: bv32, f: bv32, x: bv32, t: bv32, s: bv32)
    requires s <= 32
    ensures Mix(a, b, f, x, t, s) == Plus(b, Rotate(Plus(Plus(Plus(a, f), x), t), s))
  {
    hide Plus, Rotate;
  }

  lemma AuxiliaryIs(i: nat, x: bv32, y: bv32, z: bv32)
    ensures Auxiliary(i, x, y, z)
         == if i < 16 then F(x, y, z) else if i < 32 then G(x, y, z) else if i < 48 then H(x, y, z) else I(x, y, z)
  {
  }

  lemma TableSizes()
    ensures |T| == 64 && |S| == 64
  {
  }

  lemma TurnIs(r: Registers, x: seq<bv32>, i: nat)
    requires |T| == 64 && |x| == 16 && i < 64
    ensures Turn(r, x, i)
         == Registers(r.d, Mix(r.a, r.b, Auxiliary(i, r.b, r.c, r.d), x[MessageWord(i)], T[i], Shift(i)), r.b, r.c)
  {
  }

  lemma NextOperation(r: Registers, x: seq<bv32>, i: nat)
    requires |x| == 16 && i < 64
    ensures Operations(r, x, i + 1) == Operation(Operations(r, x, i), x, i)
  {
    hide Operation;
  }

  /** What one loop iteration leaves in the variables, given the auxiliary value `f` and the word `w` it used. */
  lemma LoopStep(r: Registers, start: Registers, x: seq<bv32>, i: nat, f: bv32, w: bv32)
    requires |T| == 64 && |S| == 64 && |x| == 16 && i < 64
    requires r == Rotated(Operations(start, x, i), i)
    requires f == Auxiliary(i, r.b, r.c, r.d) && w == x[MessageWord(i)]
    ensures S[i] <= 32
    ensures Registers(r.d, Plus(r.b, Rotate(Plus(Plus(Plus(r.a, f), w), T[i]), S[i])), r.b, r.c)
         == Rotated(Operations(start, x, i + 1), i + 1)
  {
    hide *;
    ShiftTable(i);
    TurnIsOperation(Operations(start, x, i), x, i);
    NextOperation(start, x, i);
    TurnIs(r, x, i);
    MixIs(r.a, r.b, f, w, T[i], Shift(i));
  }

  /** The four loops over one block: in registers `r`, with the words already in `x`. */
  method ProcessBlock(r: Registers, x: array<bv32>, ghost block: seq<byte>) returns (result: Registers)
    requires x.Length == 16 && |block| == 64 && x[..] == Words(block)
    ensures result == Compress(r, block)
  {
    hide *;
    TableSizes();
    ghost var words := Words(block);
    var a, b, c, d := r.a, r.b, r.c, r.d;
    RotatedWhole(r, words);

    /* Round 1 */
    var i := 0;
    while i < 16
      invariant 0 <= i <= 16
      invariant Registers(a, b, c, d) == Rotated(Operations(r, words, i), i)
    {
      Round1Word(i);
      AuxiliaryIs(i, b, c, d);
      LoopStep(Registers(a, b, c, d), r, words, i, F(b, c, d), x[i]);
      var temp := Plus(Plus(Plus(a, F(b, c, d)), x[i]), T[i]);
      a := d;
      d := c;
      c := b;
      b := Plus(b, Rotate(temp, S[i]));
      i := i + 1;
    }

    /* Round 2 */
    while i < 32
      invariant 16 <= i <= 32
      invariant Registers(a, b, c, d) == Rotated(Operations(r, words, i), i)
    {
      Round2Word(i);
      AuxiliaryIs(i, b, c, d);
      LoopStep(Registers(a, b, c, d), r, words, i, G(b, c, d), x[(5 * i + 1) % 16]);
      var temp := Plus(Plus(Plus(a, G(b, c, d)), x[(5 * i + 1) % 16]), T[i]);
      a := d;
      d := c;
      c := b;
      b := Plus(b, Rotate(temp, S[i]));
      i := i + 1;
    }

    /* Round 3 */
    while i < 48
      invariant 32 <= i <= 48
      invariant Registers(a, b, c, d) == Rotated(Operations(r, words, i), i)
    {
      Round3Word(i);
      AuxiliaryIs(i, b, c, d);
      LoopStep(Registers(a, b, c, d), r, words, i, H(b, c, d), x[(3 * i + 5) % 16]);
      var temp := Plus(Plus(Plus(a, H(b, c, d)), x[(3 * i + 5) % 16]), T[i]);
      a := d;
      d := c;
      c := b;
      b := Plus(b, Rotate(temp, S[i]));
      i := i + 1;
    }

    /* Round 4 */
    while i < 64
      invariant 48 <= i <= 64
      invariant Registers(a, b, c, d) == Rotated(Operations(r, words, i), i)
    {
      Round4Word(i);
      AuxiliaryIs(i, b, c, d);
      LoopStep(Registers(a, b, c, d), r, words, i, I(b, c, d), x[7 * i % 16]);
      var temp := Plus(Plus(Plus(a, I(b, c, d)), x[7 * i % 16]), T[i]);
      a := d;
      d := c;
      c := b;
      b := Plus(b, Rotate(temp, S[i]));
      i := i + 1;
    }

    RotatedWhole(Operations(r, words, 64), words);
    CompressIs(r, block);
    a, b, c, d := Plus(a, r.a), Plus(b, r.b), Plus(c, r.c), Plus(d, r.d);
    result := Registers(a, b, c, d);
  }

  lemma CompressIs(r: Registers, block: seq<byte>)
    requires |block| == 64
    ensures var o := Operations(r, Words(block), 64);
      Compress(r, block) == AddRegisters(o, r)
        == Registers(Plus(o.a, r.a), Plus(o.b, r.b), Plus(o.c, r.c), Plus(o.d, r.d))
  {
    hide Operations, Words, Plus;
  }

  lemma RotatedWhole(r: Registers, x: seq<bv32>)
    requires |x| == 16
    ensures Rotated(r, 0) == r && Rotated(r, 64) == r && Operations(r, x, 0) == r
  {
  }

  /** Fills the word buffer from 64 bytes, low-order byte first. */
  method LoadWords(x: array<bv32>, block: seq<byte>)
    requires x.Length == 16 && |block| == 64
    modifies x
    ensures x[..] == Words(block)
  {
    hide FromLE32;
    var i := 0;
    while i < 16
      invariant 0 <= i <= 16
      invariant forall k | 0 <= k < i :: x[k] == FromLE32(block[4 * k..4 * k + 4])
    {
      x[i] := FromLE32(block[4 * i..4 * i + 4]);
      i := i + 1;
    }
  }

  lemma HashedBlock(m: seq<byte>, offset: nat)
    requires offset % 64 == 0 && offset + 64 <= |m|
    ensures offset + 64 <= |Hashed(m)| && Hashed(m)[offset..][..64] == m[offset..offset + 64]
    ensures Hashed(m)[offset..][64..] == Hashed(m)[offset + 64..]
  {
    hide LastBlock;
    var q := offset / 64;
    assert |m| == 64 * (|m| / 64) + |m| % 64 && offset == 64 * q;
    assert q + 1 <= |m| / 64;
  }

  /** `md5_encode`: sixteen bytes of digest into `output`. */
  method Md5Encode(input: seq<byte>, output: array<byte>)
    requires |input| < SIZE_T && output.Length >= 16
    modifies output
    ensures output[..] == Overwrite(old(output[..]), 0, Encoded(input))
  {
    hide Compress, LastBlock, Words, LE32, LENat, Output, Overwrite, Tail;
    var x := new bv32[16];
    var buffer := new byte[64];
    var r := INITIAL;
    var offset := 0;
    while offset + 64 <= |input|
      invariant offset % 64 == 0 && offset <= |input|
      invariant Process(INITIAL, Hashed(input)) == Process(r, Hashed(input)[offset..])
      invariant output[..] == old(output[..])
    {
      LoadWords(x, input[offset..offset + 64]);
      HashedBlock(input, offset);
      r := ProcessBlock(r, x, input[offset..offset + 64]);
      offset := offset + 64;
    }
    LastOffset(|input|, offset);

    FillLastBlock(buffer, input, offset);
    LoadWords(x, buffer[..]);
    assert Hashed(input)[offset..] == LastBlock(input);
    ProcessOneBlock(r, LastBlock(input));
    r := ProcessBlock(r, x, buffer[..]);

    ghost var before := output[..];
    Store(output, 0, LE32(r.a));
    Store(output, 4, LE32(r.b));
    Store(output, 8, LE32(r.c));
    Store(output, 12, LE32(r.d));
    FourStores(before, r);
  }

  lemma ProcessOneBlock(r: Registers, block: seq<byte>)
    requires |block| == 64
    ensures Process(r, block) == Compress(r, block)
  {
    hide Compress;
    assert block[..64] == block && block[64..] == [];
  }

  lemma LastOffset(n: nat, offset: nat)
    requires offset % 64 == 0 && offset <= n < offset + 64
    ensures offset == n - n % 64
  {
  }

  lemma FourStores(b: seq<byte>, r: Registers)
    requires |b| >= 16
    ensures Overwrite(Overwrite(Overwrite(Overwrite(b, 0, LE32(r.a)), 4, LE32(r.b)), 8, LE32(r.c)), 12, LE32(r.d))
         == Overwrite(b, 0, Output(r))
  {
    hide LE32;
  }

  /** The padding as the code writes it, in place in the block buffer. */
  method FillLastBlock(buffer: array<byte>, input: seq<byte>, offset: nat)
    requires buffer.Length == 64 && offset == |input| - |input| % 64
    modifies buffer
    ensures buffer[..] == LastBlock(input)
  {
    hide LENat;
    var used := |input| % 64;
    Store(buffer, 0, input[offset..]);
    buffer[used] := 0x80;
    used := used + 1;

    if used > 56 {
      Store(buffer, used, Zeros(64 - used));
      used := 64;
    }

    if used < 56 {
      Store(buffer, used, Zeros(56 - used));
      used := 56;
    }

    var bitLen := 8 * |input| % SIZE_T;
    Store(buffer, 56, LENat(bitLen, 8));
  }

  // --- Hexadecimal form ---

  function HexDigit(n: nat): char
    requires n < 16
  {
    "0123456789abcdef"[n]
  }

  function Hex(s: seq<byte>): (h: string)
    ensures |h| == 2 * |s|
  {
    if s == [] then [] else [HexDigit(ByteValue(s[0]) / 16), HexDigit(ByteValue(s[0]) % 16)] + Hex(s[1..])
  }

  function Md5Hex(m: seq<byte>): (h: string)
    ensures |h| == 32
  {
    Hex(Encoded(m))
  }

  /** Digit `n` is `0` to `9` and then `a` to `f`, by their codes. */
  lemma HexDigitIs(n: nat)
    requires n < 16
    ensures HexDigit(n) as int == if n < 10 then 0x30 + n else 0x61 + (n - 10)
  {
  }

  /** Two digits for each byte, the high one first. */
  lemma {:induction false} HexAt(s: seq<byte>, i: nat)
    requires i < |s|
    ensures var v := s[i] as int;
      && Hex(s)[2 * i] as int == (if v / 16 < 10 then 0x30 + v / 16 else 0x61 + (v / 16 - 10))
      && Hex(s)[2 * i + 1] as int == (if v % 16 < 10 then 0x30 + v % 16 else 0x61 + (v % 16 - 10))
    decreases i
  {
    if i == 0 {
      HexDigitIs(ByteValue(s[0]) / 16);
      HexDigitIs(ByteValue(s[0]) % 16);
      hide HexDigit;
    } else {
      hide HexDigit;
      HexAt(s[1..], i - 1);
      assert Hex(s)[2..] == Hex(s[1..]);
    }
  }

  lemma HexDigitsDiffer(i: nat, j: nat)
    requires i < 16 && j < 16 && HexDigit(i) == HexDigit(j)
    ensures i == j
  {
  }

  lemma ByteValuesDiffer(a: byte, b: byte)
    requires ByteValue(a) == ByteValue(b)
    ensures a == b
  {
  }

  /** The text form loses nothing: two digests with the same text are the same. */
  lemma {:induction false} HexInjective(s: seq<byte>, t: seq<byte>)
    requires |s| == |t| && Hex(s) == Hex(t)
    ensures s == t
    decreases |s|
  {
    hide HexDigit, ByteValue;
    if s != [] {
      var x, y := ByteValue(s[0]), ByteValue(t[0]);
      assert HexDigit(x / 16) == Hex(s)[0] == Hex(t)[0] == HexDigit(y / 16);
      assert HexDigit(x % 16) == Hex(s)[1] == Hex(t)[1] == HexDigit(y % 16);
      HexDigitsDiffer(x / 16, y / 16);
      HexDigitsDiffer(x % 16, y % 16);
      ByteValuesDiffer(s[0], t[0]);
      assert Hex(s)[2..] == Hex(s[1..]) && Hex(t)[2..] == Hex(t[1..]);
      HexInjective(s[1..], t[1..]);
    }
  }

  /** `md5_hex_string`: two lower-case digits a byte. */
  method Md5HexString(data: seq<byte>) returns (hex: string)
    requires |data| < SIZE_T
    ensures hex == Md5Hex(data)
  {
    hide Encoded, HexDigit, ByteValue, Overwrite;
    var hash := new byte[16];
    ghost var before := hash[..];
    Md5Encode(data, hash);
    WholeOverwrite(before, Encoded(data));
    hex := "";
    var i := 0;
    while i < 16
      invariant 0 <= i <= 16
      invariant hex + Hex(hash[i..]) == Md5Hex(data)
    {
      assert hash[i..][1..] == hash[i + 1..];
      hex := hex + [HexDigit(ByteValue(hash[i]) / 16), HexDigit(ByteValue(hash[i]) % 16)];
      i := i + 1;
    }
    assert hash[i..] == [];
  }
}
