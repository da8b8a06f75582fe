/** The frame codec: the server's pack and unpack over caller buffers, the client's over byte arrays. */
module Frame {
  import opened Bytes
  import opened Crc32

  const MAGIC: bv32 := 0x46545053
  const VERSION: bv16 := 1
  const MAX_PAYLOAD_SIZE: nat := 16384
  const HEADER_SIZE: nat := 20
  const DATA_HEADER: nat := 12        // sizeof(transfer_data_t)

  type uint32 = n: nat | n < UINT32_SIZE

  /** The packed frame header: 4 + 2 + 2 + 4 + 4 + 4 bytes. */
  datatype Header = Header(magic: bv32, version: bv16, cmd: bv16, seqNo: bv32, length: uint32, checksum: bv32)

  datatype Message = Message(header: Header, payload: seq<byte>)

  /** A caller-owned header structure that a decoder fills in. */
  class HeaderSlot {
    var header: Header

    constructor (h: Header)
      ensures header == h
    {
      header := h;
    }
  }

  // --- Layout ---

  function HeaderBytes(h: Header): (s: seq<byte>)
    ensures |s| == HEADER_SIZE
  {
    LE32(h.magic) + LE16(h.version) + LE16(h.cmd) + LE32(h.seqNo) + LENat(h.length, 4) + LE32(h.checksum)
  }

  lemma {:induction false} FromLENatBound(s: seq<byte>)
    ensures FromLENat(s) < Pow256(|s|)
    decreases |s|
  {
    if s != [] {
      FromLENatBound(s[1..]);
      assert s[0] as nat < 256;
    }
  }

  function FieldLength(s: seq<byte>): uint32
    requires |s| == 4
  {
    FromLENatBound(s);
    assert Pow256(4) == UINT32_SIZE;
    FromLENat(s)
  }

  function ParseHeader(b: seq<byte>): Header
    requires |b| >= HEADER_SIZE
  {
    Header(FromLE32(b[0..4]), FromLE16(b[4..6]), FromLE16(b[6..8]), FromLE32(b[8..12]), FieldLength(b[12..16]),
           FromLE32(b[16..20]))
  }

  /** The header that announces `payload`. */
  function HeaderFor(cmd: bv16, seqNo: bv32, payload: seq<byte>): Header
    requires |payload| < UINT32_SIZE
  {
    Header(MAGIC, VERSION, cmd, seqNo, |payload|, Checksum(payload))
  }

  function FrameBytes(cmd: bv16, seqNo: bv32, payload: seq<byte>): (s: seq<byte>)
    requires |payload| < UINT32_SIZE
    ensures |s| == HEADER_SIZE + |payload|
  {
    HeaderBytes(HeaderFor(cmd, seqNo, payload)) + payload
  }

  /** The middle of three sequences, found by its length. */
  lemma Middle(before: seq<byte>, field: seq<byte>, after: seq<byte>, lo: nat, hi: nat)
    requires lo == |before| && hi == lo + |field|
    ensures hi <= |before + field + after| && (before + field + after)[lo..hi] == field
  {
  }

  /** Each field lies where the layout says, given the six images in a row. */
  lemma FieldSlices(m: seq<byte>, v: seq<byte>, c: seq<byte>, q: seq<byte>, n: seq<byte>, k: seq<byte>, rest: seq<byte>)
    requires |m| == 4 && |v| == 2 && |c| == 2 && |q| == 4 && |n| == 4 && |k| == 4
    ensures var b := m + v + c + q + n + k + rest;
      |b| >= 20 && b[0..4] == m && b[4..6] == v && b[6..8] == c && b[8..12] == q && b[12..16] == n && b[16..20] == k
  {
    var b := m + v + c + q + n + k + rest;
    assert b[0..4] == m by {
      assert b == [] + m + (v + c + q + n + k + rest);
      Middle([], m, v + c + q + n + k + rest, 0, 4);
    }
    assert b[4..6] == v by { assert b == m + v + (c + q + n + k + rest); Middle(m, v, c + q + n + k + rest, 4, 6); }
    assert b[6..8] == c by { assert b == (m + v) + c + (q + n + k + rest); Middle(m + v, c, q + n + k + rest, 6, 8); }
    assert b[8..12] == q by { assert b == (m + v + c) + q + (n + k + rest); Middle(m + v + c, q, n + k + rest, 8, 12); }
    assert b[12..16] == n by {
      assert b == (m + v + c + q) + n + (k + rest);
      Middle(m + v + c + q, n, k + rest, 12, 16);
    }
    assert b[16..20] == k by { Middle(m + v + c + q + n, k, rest, 16, 20); }
  }

  lemma HeaderSlices(h: Header, rest: seq<byte>)
    ensures var b := HeaderBytes(h) + rest;
      && b[0..4] == LE32(h.magic) && b[4..6] == LE16(h.version) && b[6..8] == LE16(h.cmd)
      && b[8..12] == LE32(h.seqNo) && b[12..16] == LENat(h.length, 4) && b[16..20] == LE32(h.checksum)
  {
    hide LE32, LE16, LENat;
    FieldSlices(LE32(h.magic), LE16(h.version), LE16(h.cmd), LE32(h.seqNo), LENat(h.length, 4), LE32(h.checksum), rest);
  }

  /** Parsing a header gives back every field that was written. */
  lemma ParseOfBytes(h: Header, rest: seq<byte>)
    ensures ParseHeader(HeaderBytes(h) + rest) == h
  {
    hide LE32, LE16, LENat, FromLE32, FromLE16, FromLENat;
    HeaderSlices(h, rest);
    LE32RoundTrip(h.magic);
    LE16RoundTrip(h.version);
    LE16RoundTrip(h.cmd);
    LE32RoundTrip(h.seqNo);
    LE32RoundTrip(h.checksum);
    assert Pow256(4) == UINT32_SIZE;
    LENatRoundTrip(h.length, 4);
  }

  /** The bytes of a frame on the wire, one by one: every field low-order byte first. */
  lemma FrameLayout(cmd: bv16, seqNo: bv32, payload: seq<byte>)
    requires |payload| < 0x1_0000_0000
    ensures var b, n, crc := FrameBytes(cmd, seqNo, payload), |payload|, Checksum(payload);
      && |b| == 20 + n && b[20..] == payload
      && b[0..4] == [0x53, 0x50, 0x54, 0x46] && b[4..6] == [1, 0]
      && b[6..8] == [(cmd & 0xFF) as byte, (cmd >> 8) as byte]
      && b[8..12] == [(seqNo & 0xFF) as byte, ((seqNo >> 8) & 0xFF) as byte, ((seqNo >> 16) & 0xFF) as byte,
                      (seqNo >> 24) as byte]
      && ByteValue(b[12]) == n % 256 && ByteValue(b[13]) == n / 256 % 256
      && ByteValue(b[14]) == n / 65536 % 256 && ByteValue(b[15]) == n / 16777216
      && b[16..20] == [(crc & 0xFF) as byte, ((crc >> 8) & 0xFF) as byte, ((crc >> 16) & 0xFF) as byte,
                       (crc >> 24) as byte]
  {
    HeaderSlices(HeaderFor(cmd, seqNo, payload), payload);
    var b := FrameBytes(cmd, seqNo, payload);
    LengthField(b, |payload|);
    MagicBytes();
    hide HeaderBytes, Checksum, LENat, ByteValue;
  }

  lemma MagicBytes()
    ensures LE32(MAGIC) == [0x53, 0x50, 0x54, 0x46] && LE16(VERSION) == [1, 0]
  {
  }

  lemma LengthField(b: seq<byte>, n: nat)
    requires n < 0x1_0000_0000 && |b| >= 16 && b[12..16] == LENat(n, 4)
    ensures ByteValue(b[12]) == n % 256 && ByteValue(b[13]) == n / 256 % 256
    ensures ByteValue(b[14]) == n / 65536 % 256 && ByteValue(b[15]) == n / 16777216
  {
    FourBytes(n);
    assert b[12] == b[12..16][0] && b[13] == b[12..16][1] && b[14] == b[12..16][2] && b[15] == b[12..16][3];
    hide LENat, ByteValue;
  }

  lemma FourBytes(n: nat)
    requires n < 0x1_0000_0000
    ensures ByteValue(LENat(n, 4)[0]) == n % 256 && ByteValue(LENat(n, 4)[1]) == n / 256 % 256
    ensures ByteValue(LENat(n, 4)[2]) == n / 65536 % 256 && ByteValue(LENat(n, 4)[3]) == n / 16777216
  {
    hide *;
    var n1, n2, n3 := n / 256, n / 65536, n / 16777216;
    Divided(n);
    FirstByte(n, 4);
    FirstByte(n1, 3);
    FirstByte(n2, 2);
    FirstByte(n3, 1);
    var s := LENat(n, 4);
    assert s[1] == s[1..][0] && s[2] == s[1..][1..][0] && s[3] == s[1..][1..][1..][0];
  }

  lemma Divided(n: nat)
    requires n < 0x1_0000_0000
    ensures n / 256 / 256 == n / 65536 && n / 65536 / 256 == n / 16777216
    ensures n / 16777216 % 256 == n / 16777216
  {
  }

  lemma FirstByte(n: nat, k: nat)
    requires k > 0
    ensures ByteValue(LENat(n, k)[0]) == n % 256 && LENat(n, k)[1..] == LENat(n / 256, k - 1)
  {
    ByteOfNat(n % 256);
  }

  // --- What the two decoders accept ---

  /** `protocol_unpack`: `room` is the payload buffer's size, None for a null payload pointer. */
  predicate ServerAccepts(b: seq<byte>, room: Option<nat>) {
    && |b| >= HEADER_SIZE
    && var h := ParseHeader(b);
      && h.magic == MAGIC
      && h.length <= MAX_PAYLOAD_SIZE
      && HEADER_SIZE + h.length <= |b|
      && (room.Some? && room.value >= h.length && h.length > 0 ==>
            Checksum(b[HEADER_SIZE..HEADER_SIZE + h.length]) == h.checksum)
  }

  /** The 32-bit sum of header size and announced length, as the client computes it. */
  function Consumed(h: Header): uint32 {
    (HEADER_SIZE + h.length) % UINT32_SIZE
  }

  /** The payload the client cuts out: at most what the buffer holds. */
  function ClientPayload(b: seq<byte>, h: Header): seq<byte>
    requires |b| >= HEADER_SIZE
  {
    if HEADER_SIZE + h.length <= |b| then b[HEADER_SIZE..HEADER_SIZE + h.length] else b[HEADER_SIZE..]
  }

  /** `unpackFrame`: no limit on the length, and the checksum is compared for empty payloads too. */
  function ClientDecode(b: seq<byte>): Option<Message> {
    if |b| < HEADER_SIZE then None else
      var h := ParseHeader(b);
      if h.magic != MAGIC || Consumed(h) > |b| then None
      else if Checksum(ClientPayload(b, h)) != h.checksum then None
      else Some(Message(h, ClientPayload(b, h)))
  }

  lemma EmptyChecksum()
    ensures Checksum([]) == 0
  {
    AddCancels(ONES, ONES);
  }

  /** Each decoder recovers header and payload from an encoded frame, whatever follows it in the buffer. */
  lemma DecodersRecover(cmd: bv16, seqNo: bv32, payload: seq<byte>, rest: seq<byte>, room: Option<nat>)
    requires |payload| < UINT32_SIZE - HEADER_SIZE
    ensures var h, b := HeaderFor(cmd, seqNo, payload), FrameBytes(cmd, seqNo, payload) + rest;
      && ParseHeader(b) == h
      && b[HEADER_SIZE..HEADER_SIZE + |payload|] == payload
      && ClientDecode(b) == Some(Message(h, payload))
      && (ServerAccepts(b, room) <==> |payload| <= MAX_PAYLOAD_SIZE)
  {
    hide Checksum, ParseHeader, HeaderBytes;
    var h, b := HeaderFor(cmd, seqNo, payload), FrameBytes(cmd, seqNo, payload) + rest;
    assert b == HeaderBytes(h) + (payload + rest);
    ParseOfBytes(h, payload + rest);
    assert b[HEADER_SIZE..HEADER_SIZE + |payload|] == payload;
  }

  /** The payload is there, but its checksum is not the announced one. */
  predicate Corrupt(b: seq<byte>) {
    && |b| >= HEADER_SIZE
    && HEADER_SIZE + ParseHeader(b).length <= |b|
    && Checksum(b[HEADER_SIZE..HEADER_SIZE + ParseHeader(b).length]) != ParseHeader(b).checksum
  }

  /**
   Where the decoders differ, on any bytes and for any payload buffer, a null one included. Only the server accepts a
   corrupt frame whose payload it does not copy out, because it then skips the checksum; only the client accepts a
   frame above the limit of the server.
   */
  lemma DecodersAgree(b: seq<byte>, room: Option<nat>)
    ensures ServerAccepts(b, room) && ClientDecode(b).None? <==>
      && Corrupt(b) && ParseHeader(b).magic == MAGIC && ParseHeader(b).length <= MAX_PAYLOAD_SIZE
      && (ParseHeader(b).length == 0 || room.None? || room.value < ParseHeader(b).length)
    ensures ClientDecode(b).Some? && !ServerAccepts(b, room) <==>
      ClientDecode(b).Some? && ParseHeader(b).length > MAX_PAYLOAD_SIZE
  {
    hide ParseHeader, Checksum;
  }

  /**
   A frame whose payload was hit by a burst of at most 32 bits: the client rejects it, and the server does exactly when
   it has a buffer that takes the payload.
   */
  lemma BurstRejected(cmd: bv16, seqNo: bv32, sent: seq<byte>, received: seq<byte>, k: nat, rest: seq<byte>,
                      room: Option<nat>)
    requires 1 <= |sent| <= MAX_PAYLOAD_SIZE
    requires BurstAt(sent, received, k)
    ensures var b := HeaderBytes(HeaderFor(cmd, seqNo, sent)) + received + rest;
      && ClientDecode(b) == None
      && (!ServerAccepts(b, room) <==> room.Some? && room.value >= |sent|)
  {
    BurstDetected(sent, received, k);
    assert |sent| == |received|;
    CorruptFrame(HeaderFor(cmd, seqNo, sent), received, rest);
    hide *;
    assert HeaderFor(cmd, seqNo, sent) == Header(MAGIC, VERSION, cmd, seqNo, |sent|, Checksum(sent));
    DecodersAgree(HeaderBytes(HeaderFor(cmd, seqNo, sent)) + received + rest, room);
  }

  /** A frame that announces another checksum than that of the bytes behind its header. */
  lemma CorruptFrame(h: Header, received: seq<byte>, rest: seq<byte>)
    requires h.magic == MAGIC && h.length == |received| <= MAX_PAYLOAD_SIZE && h.checksum != Checksum(received)
    ensures var b := HeaderBytes(h) + received + rest;
      |b| >= HEADER_SIZE && ParseHeader(b) == h && Corrupt(b) && ClientDecode(b) == None
  {
    hide Checksum, ParseHeader, HeaderBytes;
    var b := HeaderBytes(h) + received + rest;
    assert b == HeaderBytes(h) + (received + rest);
    ParseOfBytes(h, received + rest);
    assert b[HEADER_SIZE..HEADER_SIZE + h.length] == received;
  }

  // --- The server's encoder and decoder ---

  lemma PackedHeader(b: seq<byte>, h: Header)
    requires |b| >= HEADER_SIZE
    ensures var b1 := Overwrite(b, 0, LE32(h.magic));
            var b2 := Overwrite(b1, 4, LE16(h.version));
            var b3 := Overwrite(b2, 6, LE16(h.cmd));
            var b4 := Overwrite(b3, 8, LE32(h.seqNo));
            var b5 := Overwrite(b4, 12, LENat(h.length, 4));
            Overwrite(b5, 16, LE32(h.checksum)) == HeaderBytes(h) + b[HEADER_SIZE..]
  {
    hide LE32, LE16, LENat;
  }

  /** Lays the six header fields into a buffer. */
  method StoreHeader(a: array<byte>, h: Header)
    requires a.Length >= HEADER_SIZE
    modifies a
    ensures a[..] == HeaderBytes(h) + old(a[..])[HEADER_SIZE..]
  {
    hide HeaderBytes, LE32, LE16, LENat, Overwrite;
    ghost var b := a[..];
    Store(a, 0, LE32(h.magic));
    Store(a, 4, LE16(h.version));
    Store(a, 6, LE16(h.cmd));
    Store(a, 8, LE32(h.seqNo));
    Store(a, 12, LENat(h.length, 4));
    Store(a, 16, LE32(h.checksum));
    PackedHeader(b, h);
  }

  /** A payload laid in behind the header's place. */
  lemma BehindHeader(b: seq<byte>, payload: seq<byte>)
    requires HEADER_SIZE + |payload| <= |b|
    ensures Overwrite(b, HEADER_SIZE, payload)[HEADER_SIZE..] == payload + b[HEADER_SIZE + |payload|..]
  {
  }

  /**
   `protocol_pack`. With a null `data` the header still announces `dataLen` bytes, checksum 0, and the payload area
   keeps what the buffer held.
   */
  method ProtocolPack(cmd: bv16, seqNo: bv32, data: array?<byte>, dataLen: nat, outBuf: array?<byte>, outSize: nat)
    returns (ret: int)
    requires data != null ==> dataLen <= data.Length && data != outBuf
    requires outBuf != null ==> outSize <= outBuf.Length
    modifies if outBuf == null then {} else {outBuf}
    ensures ret == 0 || ret == -1
    ensures ret == 0 <==> outBuf != null && dataLen <= 16384 && 20 + dataLen <= outSize
    ensures ret == -1 && outBuf != null ==> outBuf[..] == old(outBuf[..])
    ensures ret == 0 && data != null ==>
      outBuf[..] == FrameBytes(cmd, seqNo, data[..dataLen]) + old(outBuf[..])[HEADER_SIZE + dataLen..]
    ensures ret == 0 && data == null ==>
      outBuf[..] == HeaderBytes(Header(MAGIC, VERSION, cmd, seqNo, dataLen, 0)) + old(outBuf[..])[HEADER_SIZE..]
  {
    hide HeaderBytes, Checksum, Overwrite;
    if outBuf == null { return -1; }
    if dataLen > MAX_PAYLOAD_SIZE { return -1; }
    if outSize < HEADER_SIZE + dataLen { return -1; }

    if data != null && dataLen > 0 {
      BehindHeader(outBuf[..], data[..dataLen]);
      Store(outBuf, HEADER_SIZE, data[..dataLen]);
      var checksum := ComputeCrc32(data[..dataLen]);
      StoreHeader(outBuf, Header(MAGIC, VERSION, cmd, seqNo, dataLen, checksum));
    } else {
      StoreHeader(outBuf, Header(MAGIC, VERSION, cmd, seqNo, dataLen, 0));
      if data != null {
        EmptyChecksum();
        assert data[..dataLen] == [];
      }
    }
    return 0;
  }

  /**
   The payload is copied out: magic and length are right and the payload buffer takes it. The checksum comes after.
   */
  predicate Copies(b: seq<byte>, room: nat) {
    && |b| >= HEADER_SIZE
    && var h := ParseHeader(b);
      h.magic == MAGIC && h.length <= MAX_PAYLOAD_SIZE && HEADER_SIZE + h.length <= |b|
        && room >= h.length && h.length > 0
  }

  /**
   `protocol_unpack`. The header slot is written once the magic matches and the payload buffer once the lengths
   match, so a rejected frame can leave both of them changed.
   */
  method ProtocolUnpack(buf: array?<byte>, len: nat, frame: HeaderSlot?, payload: array?<byte>, payloadSize: nat)
    returns (ret: int)
    requires buf != null ==> len <= buf.Length && payload != buf
    requires payload != null ==> payloadSize <= payload.Length
    modifies if frame == null then {} else {frame}
    modifies if payload == null then {} else {payload}
    ensures ret == 0 || ret == -1
    ensures ret == 0 <==>
      buf != null && frame != null && ServerAccepts(buf[..len], if payload == null then None else Some(payloadSize))
    ensures frame != null ==>
      var copied := buf != null && len >= HEADER_SIZE && ParseHeader(buf[..len]).magic == MAGIC;
      frame.header == if copied then ParseHeader(buf[..len]) else old(frame.header)
    ensures payload != null && buf != null && frame != null && Copies(buf[..len], payloadSize) ==>
      var n := ParseHeader(buf[..len]).length;
      payload[..] == buf[HEADER_SIZE..HEADER_SIZE + n] + old(payload[..])[n..]
    ensures payload != null && !(buf != null && frame != null && Copies(buf[..len], payloadSize)) ==>
      payload[..] == old(payload[..])
  {
    hide ParseHeader, Checksum;
    if buf == null || frame == null { return -1; }
    if len < HEADER_SIZE { return -1; }

    ghost var b := buf[..len];
    var h := ParseHeader(buf[..len]);
    if h.magic != MAGIC { return -1; }

    frame.header := h;

    if h.length > MAX_PAYLOAD_SIZE { return -1; }
    if HEADER_SIZE + h.length > len { return -1; }

    if payload != null && payloadSize >= h.length && h.length > 0 {
      Store(payload, 0, buf[HEADER_SIZE..HEADER_SIZE + h.length]);
      assert payload[..h.length] == b[HEADER_SIZE..HEADER_SIZE + h.length];
      var calcChecksum := ComputeCrc32(payload[..h.length]);
      if calcChecksum != h.checksum { return -1; }
    }
    return 0;
  }

  // --- The server's side of a connection ---

  /** One whole frame of at most 16 KB: a header and exactly the bytes it announces. */
  predicate Whole(b: seq<byte>) {
    |b| >= HEADER_SIZE && ParseHeader(b).length <= MAX_PAYLOAD_SIZE && |b| == HEADER_SIZE + ParseHeader(b).length
  }

  /** The buffer of `recv_frame` after its reads: where they delivered nothing it holds what the stack held. */
  function Buffered(stack: seq<byte>, first: seq<byte>, second: seq<byte>): (b: seq<byte>)
    requires |first| + |second| <= |stack|
    ensures |b| == |stack|
  {
    first + second + stack[|first| + |second|..]
  }

  /**
   `recv_frame`: one read for the header and one for the rest, neither of them repeated when it falls short. The
   checksum is compared for the empty body too, and the version handed on is always 1. Returns -1 when the session is
   to end.
   */
  method RecvFrame(stack: seq<byte>, first: seq<byte>, second: seq<byte>, frame: HeaderSlot, payload: array<byte>)
    returns (ret: int)
    requires |stack| == MAX_PAYLOAD_SIZE + HEADER_SIZE && |first| <= HEADER_SIZE && payload.Length == MAX_PAYLOAD_SIZE
    requires var h := ParseHeader(Buffered(stack, first, []));
      h.length <= MAX_PAYLOAD_SIZE && |first| + |second| <= HEADER_SIZE + h.length
    modifies frame, payload
    ensures ret == 0 || ret == -1
    ensures var h := ParseHeader(Buffered(stack, first, []));
      var body := Buffered(stack, first, second)[HEADER_SIZE..HEADER_SIZE + h.length];
      var read := first != [] && (second != [] || |first| == 20 + h.length);
      && (ret == 0 <==> read && ClientDecode(HeaderBytes(h) + body) == Some(Message(h, body)))
      && frame.header == (if read && h.magic == MAGIC then h.(version := 1) else old(frame.header))
      && payload[..] == if ret == 0 then body + old(payload[..])[|body|..] else old(payload[..])
  {
    hide ParseHeader, Checksum, HeaderBytes, ClientDecode;
    hide Buffered, Overwrite;
    if first == [] { return -1; }
    var buf := new byte[MAX_PAYLOAD_SIZE + HEADER_SIZE];
    WholeOverwrite(buf[..], stack);
    Store(buf, 0, stack);
    StoredReads(stack, first, second);
    Store(buf, 0, first);
    var h := ParseHeader(buf[..]);
    OneFrame(h, Buffered(stack, first, second)[HEADER_SIZE..HEADER_SIZE + h.length]);
    if h.magic != MAGIC { return -1; }
    if HEADER_SIZE + h.length > |first| {
      if second == [] { return -1; }
      Store(buf, |first|, second);
    }
    frame.header := h.(version := VERSION);
    var body := buf[..][HEADER_SIZE..HEADER_SIZE + h.length];
    var calcChecksum := ComputeCrc32(body);
    if calcChecksum != h.checksum { return -1; }
    CopiedOut(payload[..], body);
    Store(payload, 0, body);
    return 0;
  }

  lemma StoredReads(stack: seq<byte>, first: seq<byte>, second: seq<byte>)
    requires |first| + |second| <= |stack|
    ensures Overwrite(stack, 0, first) == Buffered(stack, first, [])
    ensures Overwrite(Buffered(stack, first, []), |first|, second) == Buffered(stack, first, second)
  {
  }

  lemma CopiedOut(was: seq<byte>, body: seq<byte>)
    requires |body| <= |was|
    ensures Overwrite(was, 0, body) == body + was[|body|..]
  {
  }

  lemma OneFrame(h: Header, body: seq<byte>)
    requires h.length == |body| <= MAX_PAYLOAD_SIZE
    ensures ClientDecode(HeaderBytes(h) + body) == Some(Message(h, body)) <==>
      h.magic == MAGIC && Checksum(body) == h.checksum
  {
    hide ParseHeader, Checksum, HeaderBytes;
    ParseOfBytes(h, body);
    assert ClientPayload(HeaderBytes(h) + body, h) == body;
  }

  /** What the reads saw of a whole frame that they delivered in full: that frame. */
  lemma WholeRead(stack: seq<byte>, b: seq<byte>)
    requires |stack| == MAX_PAYLOAD_SIZE + HEADER_SIZE && Whole(b)
    ensures var first, second := b[..HEADER_SIZE], b[HEADER_SIZE..];
      var h := ParseHeader(Buffered(stack, first, []));
      && h == ParseHeader(b) && |second| == h.length <= MAX_PAYLOAD_SIZE
      && Buffered(stack, first, second)[HEADER_SIZE..HEADER_SIZE + h.length] == second
      && first != [] && (second != [] || |first| == 20 + h.length)
      && (ClientDecode(HeaderBytes(h) + second) == Some(Message(h, second)) <==>
            ClientDecode(b) == Some(Message(h, second)))
      && (ClientDecode(b).Some? ==> ClientDecode(b) == Some(Message(h, second)))
  {
    hide ParseHeader, Checksum, HeaderBytes;
    var first, second := b[..HEADER_SIZE], b[HEADER_SIZE..];
    var h := ParseHeader(b);
    assert b == first + second;
    ParseExtends(first, second);
    ParseExtends(first, stack[HEADER_SIZE..]);
    assert Buffered(stack, first, []) == first + stack[HEADER_SIZE..];
    OneFrame(h, second);
    assert ClientPayload(b, h) == second;
  }

  /** The header is read from the first twenty bytes alone. */
  lemma ParseExtends(a: seq<byte>, b: seq<byte>)
    requires |a| >= HEADER_SIZE
    ensures ParseHeader(a + b) == ParseHeader(a)
  {
    hide FromLE32, FromLE16, FieldLength;
    assert (a + b)[0..4] == a[0..4] && (a + b)[4..6] == a[4..6] && (a + b)[6..8] == a[6..8];
    assert (a + b)[8..12] == a[8..12] && (a + b)[12..16] == a[12..16] && (a + b)[16..20] == a[16..20];
  }

  /** What `send_response` puts on the wire: nothing when the payload is over the limit. */
  function Response(cmd: bv16, seqNo: bv16, payload: seq<byte>): Option<seq<byte>> {
    if |payload| <= MAX_PAYLOAD_SIZE then Some(FrameBytes(cmd, seqNo as bv32, payload)) else None
  }

  /** `send_response`: the data, or status and message when there is none. The sequence number has 16 bits. */
  method SendResponse(cmd: bv16, seqNo: bv16, status: byte, message: seq<byte>, data: array?<byte>)
    returns (sent: Option<seq<byte>>)
    requires |message| == 64
    ensures sent == Response(cmd, seqNo, if data != null && data.Length > 0 then data[..] else [status] + message)
  {
    hide FrameBytes;
    var buf := new byte[MAX_PAYLOAD_SIZE + HEADER_SIZE];
    var resp := new byte[65];
    Store(resp, 0, [status] + message);
    var payload := if data != null && data.Length > 0 then data else resp;
    assert resp[..] == [status] + message;
    ghost var bytes := payload[..];
    assert payload[..payload.Length] == bytes;
    var ret := ProtocolPack(cmd, seqNo as bv32, payload, payload.Length, buf, buf.Length);
    if ret != 0 { return None; }
    assert buf[..HEADER_SIZE + payload.Length] == FrameBytes(cmd, seqNo as bv32, bytes);
    return Some(buf[..HEADER_SIZE + payload.Length]);
  }

  // --- The client's encoder and decoder ---

  /** `packFrame`: twenty header bytes laid into a scratch buffer, then the data appended. */
  method PackFrame(cmd: bv16, seqNo: bv32, data: seq<byte>) returns (frame: seq<byte>)
    requires |data| < UINT32_SIZE
    ensures frame == FrameBytes(cmd, seqNo, data)
  {
    hide HeaderBytes, Checksum;
    var checksum := ComputeCrc32(data);
    var buf := new byte[20];
    StoreHeader(buf, Header(MAGIC, VERSION, cmd, seqNo, |data|, checksum));

    frame := [];
    frame := frame + buf[..];
    frame := frame + data;
  }

  /** `unpackFrame`: the header and payload of the frame at the front of `data`, or None. */
  method UnpackFrame(data: seq<byte>) returns (r: Option<Message>)
    ensures r == ClientDecode(data)
  {
    hide ParseHeader, Checksum;
    if |data| < HEADER_SIZE { return None; }
    var h := ParseHeader(data);
    if h.magic != MAGIC { return None; }
    if Consumed(h) > |data| { return None; }
    var payload := ClientPayload(data, h);
    var calcChecksum := ComputeCrc32(payload);
    if calcChecksum != h.checksum { return None; }
    return Some(Message(h, payload));
  }
}
