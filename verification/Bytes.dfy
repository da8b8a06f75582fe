/** Bytes, little-endian fields and bitwise helpers shared by the codec, the digest and the file list. */
module Bytes {

  type byte = bv8

  const UINT32_SIZE: nat := 0x1_0000_0000

  datatype Option<+T> = None | Some(value: T)

  function ByteValue(b: byte): (v: nat)
    ensures v < 256
  {
    b as nat
  }

  /** The `n` bytes of zero that a memset or a resize produces. */
  function Zeros(n: nat): (s: seq<byte>)
    ensures |s| == n
    ensures forall i | 0 <= i < n :: s[i] == 0
  {
    seq(n, _ => 0)
  }

  /** Little-endian image of a 16-bit field. */
  function LE16(x: bv16): (s: seq<byte>)
    ensures |s| == 2
  {
    [(x & 0xFF) as byte, (x >> 8) as byte]
  }

  /** Little-endian image of a 32-bit field held as a machine word. */
  function LE32(x: bv32): (s: seq<byte>)
    ensures |s| == 4
  {
    [(x & 0xFF) as byte, ((x >> 8) & 0xFF) as byte, ((x >> 16) & 0xFF) as byte, (x >> 24) as byte]
  }

  function FromLE16(s: seq<byte>): bv16
    requires |s| == 2
  {
    (s[0] as bv16) | (s[1] as bv16 << 8)
  }

  function FromLE32(s: seq<byte>): bv32
    requires |s| == 4
  {
    (s[0] as bv32) | (s[1] as bv32 << 8) | (s[2] as bv32 << 16) | (s[3] as bv32 << 24)
  }

  /** Little-endian image, in `k` bytes, of a number that is used as a count. */
  function LENat(n: nat, k: nat): (s: seq<byte>)
    ensures |s| == k
  {
    if k == 0 then [] else [(n % 256) as byte] + LENat(n / 256, k - 1)
  }

  function FromLENat(s: seq<byte>): nat {
    if s == [] then 0 else (s[0] as nat) + 256 * FromLENat(s[1..])
  }

  function Pow256(k: nat): (p: nat)
    ensures p > 0
  {
    if k == 0 then 1 else 256 * Pow256(k - 1)
  }

  lemma LE16RoundTrip(x: bv16)
    ensures FromLE16(LE16(x)) == x
  {
  }

  lemma LE32RoundTrip(x: bv32)
    ensures FromLE32(LE32(x)) == x
  {
  }

  lemma DoubleByte(x: byte, b: byte)
    requires x < 128 && b <= 1
    ensures ((x << 1) ^ b) as nat == 2 * (x as nat) + (b as nat)
  {
    assert (x << 1) as nat == 2 * (x as nat);
    if b == 1 {
      assert ((x << 1) ^ 1) as nat == 2 * (x as nat) + 1;
    }
  }

  /** Every number below 256 is the value of some byte: built bit by bit. */
  lemma {:induction false} ByteWithValue(n: nat) returns (w: byte)
    requires n < 256
    ensures w as nat == n
  {
    if n == 0 {
      w := 0;
    } else {
      var x := ByteWithValue(n / 2);
      var b: byte := if n % 2 == 1 then 1 else 0;
      DoubleByte(x, b);
      w := (x << 1) ^ b;
    }
  }

  lemma ByteOfNat(n: nat)
    requires n < 256
    ensures (n as byte) as nat == n
  {
    var w := ByteWithValue(n);
    assert (w as nat) as byte == w;
  }

  /** The byte that holds a small count. */
  function ToByte(n: nat): (b: byte)
    requires n < 256
    ensures ByteValue(b) == n
  {
    ByteOfNat(n);
    n as byte
  }

  /** Every count that fits in `k` bytes survives the trip through them. */
  lemma {:induction false} LENatRoundTrip(n: nat, k: nat)
    requires n < Pow256(k)
    ensures FromLENat(LENat(n, k)) == n
  {
    if k > 0 {
      assert LENat(n, k)[1..] == LENat(n / 256, k - 1);
      ByteOfNat(n % 256);
      LENatRoundTrip(n / 256, k - 1);
    }
  }

  /** `b` with `s` copied over it at `pos`. */
  function Overwrite(b: seq<byte>, pos: nat, s: seq<byte>): (r: seq<byte>)
    requires pos + |s| <= |b|
    ensures |r| == |b|
    ensures forall i | 0 <= i < |b| :: r[i] == if pos <= i < pos + |s| then s[i - pos] else b[i]
  {
    b[..pos] + s + b[pos + |s|..]
  }

  lemma WholeOverwrite(b: seq<byte>, s: seq<byte>)
    requires |b| == |s|
    ensures Overwrite(b, 0, s) == s
  {
  }

  /** memcpy into a buffer. */
  method Store(a: array<byte>, pos: nat, s: seq<byte>)
    requires pos + |s| <= a.Length
    modifies a
    ensures a[..] == Overwrite(old(a[..]), pos, s)
  {
    var i := 0;
    while i < |s|
      invariant 0 <= i <= |s|
      invariant forall k | 0 <= k < a.Length :: a[k] == if pos <= k < pos + i then s[k - pos] else old(a[..])[k]
    {
      a[pos + i] := s[i];
      i := i + 1;
    }
  }
}
