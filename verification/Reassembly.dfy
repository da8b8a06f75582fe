/** The client's receive buffer: frames come out whole and in order however the stream was cut. */
module Reassembly {
  import opened Bytes
  import opened Crc32
  import opened Frame

  // --- What draining a buffer means ---

  /** The buffer after `remove(0, 20 + length)`. */
  function Remove(buf: seq<byte>, n: nat): (r: seq<byte>)
    ensures |r| == if n <= |buf| then |buf| - n else 0
  {
    if n <= |buf| then buf[n..] else []
  }

  /**
   The loop ends on `buf`. It cannot when a decoded frame announces 2^32 - 20 bytes: the removed length wraps to
   zero and the same frame is decoded for ever.
   */
  ghost predicate Terminates(buf: seq<byte>)
    decreases |buf|
  {
    match ClientDecode(buf)
    case None => true
    case Some(m) => Consumed(m.header) > 0 && Terminates(Remove(buf, Consumed(m.header)))
  }

  /** The messages at the front of `buf`, in order. */
  ghost function Messages(buf: seq<byte>): seq<Message>
    requires Terminates(buf)
    decreases |buf|
  {
    match ClientDecode(buf)
    case None => []
    case Some(m) => [m] + Messages(Remove(buf, Consumed(m.header)))
  }

  /** What stays in the buffer behind them. */
  ghost function Leftover(buf: seq<byte>): seq<byte>
    requires Terminates(buf)
    decreases |buf|
  {
    match ClientDecode(buf)
    case None => buf
    case Some(m) => Leftover(Remove(buf, Consumed(m.header)))
  }

  lemma ConsumedNothing(h: Header)
    ensures Consumed(h) == 0 <==> h.length == UINT32_SIZE - HEADER_SIZE
  {
  }

  // --- When the loop ends ---

  /** The buffer after one turn of the loop; a turn that decodes nothing leaves the loop. */
  ghost function Turn(buf: seq<byte>): seq<byte> {
    match ClientDecode(buf)
    case None => buf
    case Some(m) => Remove(buf, Consumed(m.header))
  }

  ghost function Turns(buf: seq<byte>, n: nat): seq<byte> {
    if n == 0 then buf else Turns(Turn(buf), n - 1)
  }

  /** Some turn of the loop decodes nothing, so the loop ends. */
  ghost predicate Ends(buf: seq<byte>) {
    exists n: nat :: ClientDecode(Turns(buf, n)).None?
  }

  /** No frame that comes to the head of the buffer announces 2^32 - 20 bytes. */
  ghost predicate NoneWraps(buf: seq<byte>) {
    forall n: nat :: !Wraps(Turns(buf, n))
  }

  /** The buffer starts with a frame that is decoded and announces 2^32 - 20 bytes. */
  ghost predicate Wraps(buf: seq<byte>) {
    ClientDecode(buf).Some? && ClientDecode(buf).value.header.length == UINT32_SIZE - HEADER_SIZE
  }

  lemma TurnFirst(buf: seq<byte>, n: nat)
    ensures n > 0 ==> Turns(buf, n) == Turns(Turn(buf), n - 1)
    ensures Turns(buf, 0) == buf
  {
  }

  lemma TurnIs(buf: seq<byte>)
    ensures ClientDecode(buf).Some? ==> Turn(buf) == Remove(buf, Consumed(ClientDecode(buf).value.header))
    ensures ClientDecode(buf).None? ==> Turn(buf) == buf
  {
  }

  lemma WrapTurn(buf: seq<byte>)
    requires Wraps(buf)
    ensures Turn(buf) == buf
  {
    ConsumedNothing(ClientDecode(buf).value.header);
    TurnIs(buf);
    hide ClientDecode, Turn, Consumed;
  }

  /** A head frame that wraps: every turn leaves the buffer as it was and decodes the same frame again. */
  lemma {:induction false} WrapSpins(buf: seq<byte>, n: nat)
    requires Wraps(buf)
    ensures Turns(buf, n) == buf
    decreases n
  {
    hide *;
    WrapTurn(buf);
    TurnFirst(buf, n);
    if n > 0 { WrapSpins(buf, n - 1); }
  }

  /** What the next turn leaves decides. */
  lemma NextTurn(buf: seq<byte>)
    requires ClientDecode(buf).Some?
    ensures Ends(buf) <==> Ends(Turn(buf))
    ensures NoneWraps(buf) <==> !Wraps(buf) && NoneWraps(Turn(buf))
  {
    hide ClientDecode, Turn, Turns, Wraps;
    TurnFirst(buf, 0);
    if Ends(buf) {
      var n: nat :| ClientDecode(Turns(buf, n)).None?;
      TurnFirst(buf, n);
      assert ClientDecode(Turns(Turn(buf), n - 1)).None?;
    }
    if Ends(Turn(buf)) {
      var n: nat :| ClientDecode(Turns(Turn(buf), n)).None?;
      TurnFirst(buf, n + 1);
      assert ClientDecode(Turns(buf, n + 1)).None?;
    }
    forall n: nat ensures Turns(buf, n + 1) == Turns(Turn(buf), n) { TurnFirst(buf, n + 1); }
    if NoneWraps(buf) {
      assert !Wraps(Turns(buf, 0));
      forall n: nat ensures !Wraps(Turns(Turn(buf), n)) { assert !Wraps(Turns(buf, n + 1)); }
    }
    if !Wraps(buf) && NoneWraps(Turn(buf)) {
      forall n: nat ensures !Wraps(Turns(buf, n)) {
        if n > 0 { assert !Wraps(Turns(Turn(buf), n - 1)); }
      }
    }
  }

  lemma NothingToTurn(buf: seq<byte>)
    requires ClientDecode(buf).None?
    ensures Ends(buf) && NoneWraps(buf)
  {
    TurnFirst(buf, 0);
    forall n: nat ensures Turns(buf, n) == buf { Idle(buf, n); }
    hide ClientDecode;
    assert ClientDecode(Turns(buf, 0)).None?;
  }

  lemma {:induction false} Idle(buf: seq<byte>, n: nat)
    requires ClientDecode(buf).None?
    ensures Turns(buf, n) == buf
    decreases n
  {
    TurnIs(buf);
    hide ClientDecode, Turn;
    if n > 0 { Idle(buf, n - 1); }
  }

  lemma WrapNeverEnds(buf: seq<byte>)
    requires Wraps(buf)
    ensures !Ends(buf) && !NoneWraps(buf)
  {
    forall n: nat ensures Turns(buf, n) == buf { WrapSpins(buf, n); }
    hide ClientDecode, Turns;
    assert Wraps(Turns(buf, 0));
  }

  /**
   For every buffer: the loop ends, and `Terminates` says so, exactly when no frame that comes to its head announces
   2^32 - 20 bytes.
   */
  lemma {:induction false} EndsExactly(buf: seq<byte>)
    ensures Terminates(buf) <==> Ends(buf)
    ensures Terminates(buf) <==> NoneWraps(buf)
    decreases |buf|
  {
    DecodeNeedsHeader(buf);
    hide ClientDecode, Ends, NoneWraps;
    if ClientDecode(buf).None? {
      NothingToTurn(buf);
    } else {
      var h := ClientDecode(buf).value.header;
      ConsumedNothing(h);
      TurnIs(buf);
      if Wraps(buf) {
        WrapNeverEnds(buf);
      } else {
        NextTurn(buf);
        EndsExactly(Turn(buf));
      }
    }
  }

  /** Such a frame exists: over any bytes, header `h` makes every turn leave the buffer as it was. */
  lemma WrappedHeaderSpins(h: Header, rest: seq<byte>, n: nat)
    requires |rest| < UINT32_SIZE - HEADER_SIZE
    requires h.magic == MAGIC && h.length == UINT32_SIZE - HEADER_SIZE && h.checksum == Checksum(rest)
    ensures var buf := HeaderBytes(h) + rest;
      Turns(buf, n) == buf && ClientDecode(buf) == Some(Message(h, rest)) && !Ends(buf)
  {
    var buf := HeaderBytes(h) + rest;
    hide Checksum, ParseHeader, HeaderBytes, Turns, Ends;
    ParseOfBytes(h, rest);
    ConsumedNothing(h);
    assert ClientPayload(buf, h) == rest;
    hide Consumed;
    assert ClientDecode(buf) == Some(Message(h, rest));
    WrapSpins(buf, n);
    WrapNeverEnds(buf);
  }

  // --- The receiver ---

  /** `dispatched` is what was handed to `processResponse`, which then drops the messages with an empty payload. */
  class Receiver {
    var recvBuffer: seq<byte>
    var dispatched: seq<Message>

    constructor ()
      ensures recvBuffer == [] && dispatched == []
    {
      recvBuffer := [];
      dispatched := [];
    }

    /** `onReadyRead` with the bytes the socket had ready. */
    method OnReadyRead(newData: seq<byte>)
      requires NoneWraps(recvBuffer + newData)
      modifies this
      ensures Terminates(old(recvBuffer) + newData)
      ensures dispatched == old(dispatched) + Messages(old(recvBuffer) + newData)
      ensures recvBuffer == Leftover(old(recvBuffer) + newData)
    {
      EndsExactly(recvBuffer + newData);
      hide ClientDecode, ParseHeader, Consumed, Remove, NoneWraps, Ends;
      recvBuffer := recvBuffer + newData;
      while |recvBuffer| >= HEADER_SIZE
        invariant Terminates(recvBuffer)
        invariant dispatched + Messages(recvBuffer) == old(dispatched) + Messages(old(recvBuffer) + newData)
        invariant Leftover(recvBuffer) == Leftover(old(recvBuffer) + newData)
        decreases |recvBuffer|
      {
        var r := UnpackFrame(recvBuffer);
        if r.None? {
          return;
        }
        DecodeNeedsHeader(recvBuffer);
        recvBuffer := Remove(recvBuffer, Consumed(r.value.header));
        dispatched := dispatched + [r.value];
      }
      DecodeNeedsHeader(recvBuffer);
    }
  }

  lemma DecodeNeedsHeader(buf: seq<byte>)
    ensures ClientDecode(buf).Some? ==> |buf| >= HEADER_SIZE && ClientDecode(buf).value.header == ParseHeader(buf)
  {
  }

  // --- Independence from how the stream is cut ---

  /** Every message has the payload its header announces; one decoded from a wrapped length may have less. */
  ghost predicate AllComplete(ms: seq<Message>) {
    forall i | 0 <= i < |ms| :: |ms[i].payload| == ms[i].header.length
  }

  /** Draining after each of two arrivals comes to the same as draining once after both. */
  ghost predicate SameInPieces(a: seq<byte>, b: seq<byte>)
    requires Terminates(a)
  {
    && Terminates(a + b) && Terminates(Leftover(a) + b)
    && Messages(a + b) == Messages(a) + Messages(Leftover(a) + b)
    && Leftover(a + b) == Leftover(Leftover(a) + b)
  }

  /** A frame that is decoded: what it takes from the buffer is there, and its payload is cut where the buffer ends. */
  lemma DecodedFrame(b: seq<byte>)
    requires ClientDecode(b).Some?
    ensures var m := ClientDecode(b).value;
      && |b| >= HEADER_SIZE && m.header == ParseHeader(b) && Consumed(m.header) <= |b|
      && |m.payload| == if HEADER_SIZE + m.header.length <= |b| then m.header.length else |b| - HEADER_SIZE
  {
    hide ParseHeader, Checksum, Consumed;
  }

  /** A complete frame depends only on its own bytes: more bytes behind it change nothing. */
  lemma DecodeExtends(a: seq<byte>, b: seq<byte>)
    requires ClientDecode(a).Some? && |ClientDecode(a).value.payload| == ClientDecode(a).value.header.length
    ensures ClientDecode(a + b) == ClientDecode(a)
  {
    hide ParseHeader, Checksum, Consumed;
    DecodedFrame(a);
    ParseExtends(a, b);
    assert ClientPayload(a + b, ParseHeader(a)) == ClientPayload(a, ParseHeader(a));
  }

  /** A frame cut short by the end of the buffer is another one, or none, as soon as more bytes are there. */
  lemma CutShortChanges(a: seq<byte>, b: seq<byte>)
    requires ClientDecode(a).Some? && |ClientDecode(a).value.payload| != ClientDecode(a).value.header.length
    requires b != []
    ensures ClientDecode(a + b) != ClientDecode(a)
  {
    DecodedFrame(a);
    ParseExtends(a, b);
    if ClientDecode(a + b).Some? { DecodedFrame(a + b); }
    hide ClientDecode, ParseHeader;
  }

  /** What the first decoded frame contributes. */
  lemma DrainHead(buf: seq<byte>, m: Message, rest: seq<byte>)
    requires ClientDecode(buf) == Some(m) && rest == Remove(buf, Consumed(m.header))
    ensures Terminates(buf) <==> Consumed(m.header) > 0 && Terminates(rest)
    ensures Terminates(buf) ==> Messages(buf) == [m] + Messages(rest) && Leftover(buf) == Leftover(rest)
    ensures Consumed(m.header) > 0 ==> |rest| < |buf|
  {
    DecodedFrame(buf);
    hide ClientDecode, Consumed, ParseHeader;
  }

  lemma RemoveExtends(a: seq<byte>, b: seq<byte>, n: nat)
    requires n <= |a|
    ensures Remove(a + b, n) == Remove(a, n) + b
  {
  }

  /**
   When it makes no difference where the bytes were cut, for any bytes: exactly when every message found in the first
   arrival is complete.
   */
  lemma {:induction false} DrainInPieces(a: seq<byte>, b: seq<byte>)
    requires Terminates(a)
    ensures SameInPieces(a, b) <==> Terminates(a + b) && (b == [] || AllComplete(Messages(a)))
    decreases |a|
  {
    hide *;
    if ClientDecode(a).Some? {
      var m := ClientDecode(a).value;
      var rest := Remove(a, Consumed(m.header));
      DrainHead(a, m, rest);
      if |m.payload| == m.header.length {
        DecodeExtends(a, b);
        DecodedFrame(a);
        RemoveExtends(a, b, Consumed(m.header));
        DrainHead(a + b, m, rest + b);
        DrainInPieces(rest, b);
        HeadInPieces(a, b, m, rest);
      } else if b != [] {
        HeadCutShort(a, b, m, rest);
      } else {
        NoMore(a, b);
      }
    } else {
      NothingDecoded(a);
      NothingFirst(a, b);
    }
  }

  /** Told by the headers alone: in a buffer below 4 GB the complete messages are those whose length does not wrap. */
  lemma {:induction false} CompleteByHeader(buf: seq<byte>)
    requires Terminates(buf) && |buf| < UINT32_SIZE
    ensures AllComplete(Messages(buf)) <==>
      forall i | 0 <= i < |Messages(buf)| :: Messages(buf)[i].header.length < UINT32_SIZE - HEADER_SIZE
    decreases |buf|
  {
    hide *;
    if ClientDecode(buf).Some? {
      var m := ClientDecode(buf).value;
      var rest := Remove(buf, Consumed(m.header));
      CompleteHead(buf);
      DrainHead(buf, m, rest);
      CompleteByHeader(rest);
      CompleteCons(m, Messages(rest));
    } else {
      NothingDecoded(buf);
      assert AllComplete([]) by { CompleteNone(); }
    }
  }

  lemma CompleteHead(buf: seq<byte>)
    requires ClientDecode(buf).Some? && |buf| < UINT32_SIZE
    ensures var m := ClientDecode(buf).value;
      |m.payload| == m.header.length <==> m.header.length < UINT32_SIZE - HEADER_SIZE
  {
    DecodedFrame(buf);
    hide ClientDecode, ParseHeader;
  }

  lemma CompleteNone()
    ensures AllComplete([])
  {
  }

  lemma CompleteCons(m: Message, ms: seq<Message>)
    requires |m.payload| == m.header.length <==> m.header.length < UINT32_SIZE - HEADER_SIZE
    requires AllComplete(ms) <==> forall i | 0 <= i < |ms| :: ms[i].header.length < UINT32_SIZE - HEADER_SIZE
    ensures AllComplete([m] + ms) <==>
      forall i | 0 <= i < |[m] + ms| :: ([m] + ms)[i].header.length < UINT32_SIZE - HEADER_SIZE
  {
    var all := [m] + ms;
    assert all[0] == m && forall i | 0 <= i < |ms| :: all[i + 1] == ms[i];
    assert forall i | 1 <= i < |all| :: all[i] == ms[i - 1];
  }

  lemma HeadInPieces(a: seq<byte>, b: seq<byte>, m: Message, rest: seq<byte>)
    requires |m.payload| == m.header.length
    requires Terminates(a) && Terminates(rest) && Messages(a) == [m] + Messages(rest) && Leftover(a) == Leftover(rest)
    requires Terminates(a + b) <==> Terminates(rest + b)
    requires Terminates(a + b) ==>
      Messages(a + b) == [m] + Messages(rest + b) && Leftover(a + b) == Leftover(rest + b)
    ensures SameInPieces(a, b) <==> SameInPieces(rest, b)
    ensures AllComplete(Messages(a)) <==> AllComplete(Messages(rest))
  {
    hide Terminates, Messages, Leftover;
    assert forall i | 0 <= i < |Messages(rest)| :: Messages(a)[i + 1] == Messages(rest)[i];
    if Terminates(a + b) && Terminates(Leftover(a) + b) {
      var now := Messages(Leftover(a) + b);
      assert [m] + Messages(rest) + now == [m] + (Messages(rest) + now);
      assert ([m] + Messages(rest + b))[1..] == Messages(rest + b);
      assert ([m] + (Messages(rest) + now))[1..] == Messages(rest) + now;
    }
  }

  lemma HeadCutShort(a: seq<byte>, b: seq<byte>, m: Message, rest: seq<byte>)
    requires ClientDecode(a) == Some(m) && |m.payload| != m.header.length && b != []
    requires Terminates(a) && Terminates(rest) && Messages(a) == [m] + Messages(rest)
    ensures !SameInPieces(a, b) && !AllComplete(Messages(a))
  {
    CutShortChanges(a, b);
    assert Messages(a)[0] == m;
    if ClientDecode(a + b).Some? {
      var m' := ClientDecode(a + b).value;
      DrainHead(a + b, m', Remove(a + b, Consumed(m'.header)));
      hide ClientDecode, Consumed, Remove, Terminates, Messages, Leftover;
      assert Terminates(a + b) ==> Messages(a + b)[0] == m';
    } else {
      NothingDecoded(a + b);
      hide ClientDecode, Terminates, Messages, Leftover;
    }
  }

  lemma NoMore(a: seq<byte>, b: seq<byte>)
    requires Terminates(a) && b == []
    ensures SameInPieces(a, b) && Terminates(a + b)
  {
    LeftoverIsDrained(a);
    NothingDecoded(Leftover(a));
    assert a + b == a && Leftover(a) + b == Leftover(a);
    hide ClientDecode, Terminates, Messages, Leftover;
  }

  lemma NothingFirst(a: seq<byte>, b: seq<byte>)
    requires Terminates(a) && Messages(a) == [] && Leftover(a) == a
    ensures SameInPieces(a, b) <==> Terminates(a + b)
    ensures AllComplete(Messages(a))
  {
    hide Terminates, Messages, Leftover;
    if Terminates(a + b) { assert [] + Messages(a + b) == Messages(a + b); }
  }

  /**
   A frame for which it does make a difference: announcing 2^32 - 1 bytes and the checksum of nothing, it is a message
   when its header arrives alone, and none once one more byte is there.
   */
  lemma CutMatters(h: Header) returns (x: byte)
    requires h.magic == MAGIC && h.length == UINT32_SIZE - 1 && h.checksum == 0
    ensures ClientDecode(HeaderBytes(h)) == Some(Message(h, []))
    ensures ClientDecode(HeaderBytes(h) + [x]) == None
  {
    x := NonzeroChecksum();
    EmptyChecksum();
    hide Checksum, ParseHeader, HeaderBytes;
    assert HeaderBytes(h) + [] == HeaderBytes(h);
    ParseOfBytes(h, []);
    ParseOfBytes(h, [x]);
    assert ClientPayload(HeaderBytes(h), h) == [] && ClientPayload(HeaderBytes(h) + [x], h) == [x];
  }

  lemma NonzeroChecksum() returns (x: byte)
    ensures Checksum([x]) != 0
  {
    assert |Bits([0])| == 8 && |Bits([1])| == 8;
    hide Checksum, Bits;
    assert [0 as byte][0] != [1 as byte][0];
    BurstDetected([0], [1], 0);
    x := if Checksum([0]) != 0 then 0 else 1;
  }

  function Concat(chunks: seq<seq<byte>>): seq<byte> {
    if chunks == [] then [] else chunks[0] + Concat(chunks[1..])
  }

  lemma {:induction false} LeftoverIsDrained(buf: seq<byte>)
    requires Terminates(buf)
    ensures ClientDecode(Leftover(buf)) == None
    decreases |buf|
  {
    hide ClientDecode;
    DecodeNeedsHeader(buf);
    if ClientDecode(buf).Some? {
      LeftoverIsDrained(Remove(buf, Consumed(ClientDecode(buf).value.header)));
    }
  }

  // --- Streams of encoded frames ---

  datatype Outgoing = Outgoing(cmd: bv16, seqNo: bv32, payload: seq<byte>)

  ghost predicate AllValid(fs: seq<Outgoing>) {
    forall i | 0 <= i < |fs| :: |fs[i].payload| <= MAX_PAYLOAD_SIZE
  }

  function Encode(f: Outgoing): (s: seq<byte>)
    requires |f.payload| <= MAX_PAYLOAD_SIZE
    ensures |s| == HEADER_SIZE + |f.payload|
  {
    FrameBytes(f.cmd, f.seqNo, f.payload)
  }

  function Decoded(f: Outgoing): Message
    requires |f.payload| <= MAX_PAYLOAD_SIZE
  {
    Message(HeaderFor(f.cmd, f.seqNo, f.payload), f.payload)
  }

  ghost function Stream(fs: seq<Outgoing>): seq<byte>
    requires AllValid(fs)
  {
    if fs == [] then [] else Encode(fs[0]) + Stream(fs[1..])
  }

  ghost function DecodedAll(fs: seq<Outgoing>): (ms: seq<Message>)
    requires AllValid(fs)
    ensures |ms| == |fs|
    ensures forall i | 0 <= i < |fs| :: ms[i] == Decoded(fs[i])
  {
    seq(|fs|, i requires 0 <= i < |fs| && |fs[i].payload| <= MAX_PAYLOAD_SIZE => Decoded(fs[i]))
  }

  /** So many bytes of the stream have arrived, and they are the first ones. */
  ghost predicate IsPrefix(arrived: seq<byte>, whole: seq<byte>) {
    |arrived| <= |whole| && arrived == whole[..|arrived|]
  }

  lemma HeadFrame(f: Outgoing, rest: seq<byte>)
    requires |f.payload| <= MAX_PAYLOAD_SIZE
    ensures ClientDecode(Encode(f) + rest) == Some(Decoded(f))
    ensures ParseHeader(Encode(f) + rest) == Decoded(f).header
    ensures Remove(Encode(f) + rest, Consumed(Decoded(f).header)) == rest
  {
    assert Encode(f) == FrameBytes(f.cmd, f.seqNo, f.payload);
    assert Decoded(f) == Message(HeaderFor(f.cmd, f.seqNo, f.payload), f.payload);
    assert Consumed(Decoded(f).header) == |Encode(f)|;
    assert Remove(Encode(f) + rest, |Encode(f)|) == rest;
    hide *;
    DecodersRecover(f.cmd, f.seqNo, f.payload, rest, None);
  }

  lemma SplitAt(s: seq<byte>, k: nat)
    requires k <= |s|
    ensures s == s[..k] + s[k..]
  {
  }

  lemma EncodedHeader(f: Outgoing)
    requires |f.payload| <= MAX_PAYLOAD_SIZE
    ensures ParseHeader(Encode(f)).length == |f.payload|
  {
    assert Encode(f) + [] == Encode(f) && Decoded(f).header.length == |f.payload|;
    hide *;
    HeadFrame(f, []);
  }

  lemma PartialHeader(f: Outgoing, p: seq<byte>)
    requires |f.payload| <= MAX_PAYLOAD_SIZE
    requires HEADER_SIZE <= |p| < |Encode(f)| && p == Encode(f)[..|p|]
    ensures ParseHeader(p).length == |f.payload|
  {
    hide *;
    EncodedHeader(f);
    SplitAt(Encode(f), |p|);
    ParseExtends(p, Encode(f)[|p|..]);
  }

  /** A frame whose last bytes have not arrived is not decoded. */
  lemma PartialFrame(f: Outgoing, p: seq<byte>)
    requires |f.payload| <= MAX_PAYLOAD_SIZE
    requires |p| < |Encode(f)| && p == Encode(f)[..|p|]
    ensures ClientDecode(p) == None
  {
    hide ParseHeader, Checksum, FrameBytes, ClientDecode, Encode;
    if |p| >= HEADER_SIZE {
      PartialHeader(f, p);
      NotYet(p);
    } else {
      DecodeNeedsHeader(p);
    }
  }

  lemma NotYet(p: seq<byte>)
    requires |p| >= HEADER_SIZE && |p| < HEADER_SIZE + ParseHeader(p).length < UINT32_SIZE
    ensures ClientDecode(p) == None
  {
    hide ParseHeader, Checksum;
  }

  lemma NothingDecoded(p: seq<byte>)
    requires |p| < HEADER_SIZE || ClientDecode(p) == None
    ensures Terminates(p) && Messages(p) == [] && Leftover(p) == p
  {
    DecodeNeedsHeader(p);
    hide ClientDecode, ParseHeader;
  }

  /**
   What has arrived of a stream of valid frames: exactly the frames that are complete are decoded, in order, and the
   buffer holds exactly the bytes behind them.
   */
  lemma {:induction false} PrefixDrains(fs: seq<Outgoing>, p: seq<byte>) returns (k: nat)
    requires AllValid(fs)
    requires IsPrefix(p, Stream(fs))
    ensures k <= |fs|
    ensures Terminates(p)
    ensures Messages(p) == DecodedAll(fs)[..k]
    ensures |Stream(fs[..k])| <= |p| && Leftover(p) == p[|Stream(fs[..k])|..]
    ensures k < |fs| ==> |p| < |Stream(fs[..k + 1])|
    decreases |fs|
  {
    hide ClientDecode, ParseHeader, Encode, Decoded, Terminates, Messages, Leftover;
    if fs == [] {
      k := 0;
      NothingDecoded(p);
    } else if |p| < |Encode(fs[0])| {
      k := 0;
      assert p == Encode(fs[0])[..|p|];
      PartialFrame(fs[0], p);
      NothingDecoded(p);
      assert fs[..1] == [fs[0]] && Stream(fs[..1]) == Encode(fs[0]) + Stream(fs[..1][1..]);
    } else {
      var n := |Encode(fs[0])|;
      TailPrefix(fs, p);
      var j := PrefixDrains(fs[1..], p[n..]);
      k := j + 1;
      PrefixMore(fs, p, j);
    }
  }

  lemma TailPrefix(fs: seq<Outgoing>, p: seq<byte>)
    requires AllValid(fs) && fs != [] && IsPrefix(p, Stream(fs)) && |Encode(fs[0])| <= |p|
    ensures IsPrefix(p[|Encode(fs[0])|..], Stream(fs[1..])) && p[..|Encode(fs[0])|] == Encode(fs[0])
  {
    hide Encode;
  }

  /** From what the tail of the stream leaves to what the stream leaves. */
  lemma PrefixMore(fs: seq<Outgoing>, p: seq<byte>, j: nat)
    requires AllValid(fs) && fs != [] && j < |fs| && |Encode(fs[0])| <= |p| && p[..|Encode(fs[0])|] == Encode(fs[0])
    requires var q := p[|Encode(fs[0])|..];
      && Terminates(q)
      && Messages(q) == DecodedAll(fs[1..])[..j]
      && |Stream(fs[1..][..j])| <= |q| && Leftover(q) == q[|Stream(fs[1..][..j])|..]
      && (j < |fs| - 1 ==> |q| < |Stream(fs[1..][..j + 1])|)
    ensures Terminates(p)
    ensures Messages(p) == DecodedAll(fs)[..j + 1]
    ensures |Stream(fs[..j + 1])| <= |p| && Leftover(p) == p[|Stream(fs[..j + 1])|..]
    ensures j + 1 < |fs| ==> |p| < |Stream(fs[..j + 2])|
  {
    hide ClientDecode, ParseHeader, Encode, Decoded, Terminates, Messages, Leftover, Stream, DecodedAll;
    PrefixStep(fs, j);
    PrefixHead(fs[0], p);
    var n, m := |Encode(fs[0])|, |Stream(fs[1..][..j])|;
    assert p[n..][m..] == p[n + m..];
  }

  lemma PrefixHead(f: Outgoing, p: seq<byte>)
    requires |f.payload| <= MAX_PAYLOAD_SIZE
    requires |Encode(f)| <= |p| && p[..|Encode(f)|] == Encode(f)
    requires Terminates(p[|Encode(f)|..])
    ensures Terminates(p)
    ensures Messages(p) == [Decoded(f)] + Messages(p[|Encode(f)|..])
    ensures Leftover(p) == Leftover(p[|Encode(f)|..])
  {
    hide ClientDecode, ParseHeader, Encode;
    var rest := p[|Encode(f)|..];
    assert p == Encode(f) + rest;
    HeadFrame(f, rest);
    assert |p| >= HEADER_SIZE;
  }

  lemma PrefixStep(fs: seq<Outgoing>, j: nat)
    requires AllValid(fs) && fs != [] && j < |fs|
    ensures |Stream(fs[..j + 1])| == |Encode(fs[0])| + |Stream(fs[1..][..j])|
    ensures j + 1 < |fs| ==> |Stream(fs[..j + 2])| == |Encode(fs[0])| + |Stream(fs[1..][..j + 1])|
    ensures DecodedAll(fs)[..j + 1] == [Decoded(fs[0])] + DecodedAll(fs[1..])[..j]
  {
    hide Encode, Decoded;
    assert fs[..j + 1][1..] == fs[1..][..j];
    if j + 1 < |fs| {
      assert fs[..j + 2][1..] == fs[1..][..j + 1];
    }
  }

  lemma {:induction false} StreamMonotone(fs: seq<Outgoing>, k: nat)
    requires AllValid(fs) && k <= |fs|
    ensures |Stream(fs[..k])| <= |Stream(fs)|
    decreases k
  {
    if k > 0 {
      assert fs[..k][1..] == fs[1..][..k - 1];
      StreamMonotone(fs[1..], k - 1);
    }
  }

  /** A whole stream of valid frames drains to exactly those frames and nothing else. */
  lemma StreamDrains(fs: seq<Outgoing>)
    requires AllValid(fs)
    ensures Terminates(Stream(fs))
    ensures Messages(Stream(fs)) == DecodedAll(fs) && Leftover(Stream(fs)) == []
  {
    hide ClientDecode, ParseHeader, Encode, Decoded, Terminates, Messages, Leftover;
    var k := PrefixDrains(fs, Stream(fs));
    if k < |fs| {
      StreamMonotone(fs, k + 1);
      assert false;
    }
    assert fs[..|fs|] == fs && DecodedAll(fs)[..|fs|] == DecodedAll(fs);
  }

  /** A frame hit by a burst stays at the head of the buffer: it is never dispatched, nor is anything behind it. */
  lemma BurstBlocksStream(f: Outgoing, received: seq<byte>, k: nat, rest: seq<byte>)
    requires 1 <= |f.payload| <= MAX_PAYLOAD_SIZE
    requires BurstAt(f.payload, received, k)
    ensures var buf := HeaderBytes(HeaderFor(f.cmd, f.seqNo, f.payload)) + received + rest;
      Terminates(buf) && Messages(buf) == [] && Leftover(buf) == buf
  {
    BurstRejected(f.cmd, f.seqNo, f.payload, received, k, rest, None);
    hide ClientDecode, BurstAt, Bits, Checksum, HeaderBytes;
  }

  // --- The receiver over a whole connection ---

  lemma Associate(a: seq<Message>, b: seq<Message>, c: seq<Message>)
    ensures a + (b + c) == a + b + c
  {
  }

  /** After `arrived` has come in, in whatever pieces: what drains from it is dispatched and the rest is held. */
  ghost predicate Holds(buf: seq<byte>, start: seq<Message>, done: seq<Message>, arrived: seq<byte>) {
    Terminates(arrived) && buf == Leftover(arrived) && done == start + Messages(arrived)
  }

  lemma HoldsNothing(done: seq<Message>)
    ensures Holds([], done, done, [])
  {
    DecodeNeedsHeader([]);
    hide ClientDecode;
    assert done + [] == done;
  }

  lemma HoldsNext(buf: seq<byte>, start: seq<Message>, done: seq<Message>, arrived: seq<byte>, chunk: seq<byte>)
    requires Holds(buf, start, done, arrived) && Terminates(arrived + chunk) && AllComplete(Messages(arrived))
    ensures Terminates(buf + chunk) && NoneWraps(buf + chunk)
    ensures Holds(Leftover(buf + chunk), start, done + Messages(buf + chunk), arrived + chunk)
  {
    hide ClientDecode, ParseHeader, AllComplete, Messages, Leftover, Terminates, NoneWraps, Ends;
    DrainInPieces(arrived, chunk);
    EndsExactly(buf + chunk);
    Associate(start, Messages(arrived), Messages(buf + chunk));
  }

  lemma {:induction false} ConcatSnoc(chunks: seq<seq<byte>>, i: nat)
    requires i < |chunks|
    ensures Concat(chunks[..i + 1]) == Concat(chunks[..i]) + chunks[i]
    decreases i
  {
    if i > 0 {
      assert chunks[..i + 1][1..] == chunks[1..][..i] && chunks[..i][1..] == chunks[1..][..i - 1];
      ConcatSnoc(chunks[1..], i - 1);
      var before := Concat(chunks[1..][..i - 1]);
      assert chunks[0] + (before + chunks[i]) == chunks[0] + before + chunks[i];
    } else {
      assert chunks[..1][1..] == [] && chunks[..0] == [];
    }
  }

  lemma {:induction false} ConcatPrefix(chunks: seq<seq<byte>>, i: nat)
    requires i <= |chunks|
    ensures |Concat(chunks[..i])| <= |Concat(chunks)| && Concat(chunks[..i]) == Concat(chunks)[..|Concat(chunks[..i])|]
    decreases |chunks| - i
  {
    if i == |chunks| {
      assert chunks[..i] == chunks;
    } else {
      ConcatSnoc(chunks, i);
      ConcatPrefix(chunks, i + 1);
    }
  }

  lemma ArrivedWhole(fs: seq<Outgoing>, chunks: seq<seq<byte>>, i: nat)
    requires AllValid(fs) && IsPrefix(Concat(chunks), Stream(fs)) && i <= |chunks|
    ensures Terminates(Concat(chunks[..i])) && AllComplete(Messages(Concat(chunks[..i])))
  {
    hide Terminates, Messages, Leftover, Concat, Stream;
    ConcatPrefix(chunks, i);
    var k := PrefixDrains(fs, Concat(chunks[..i]));
  }

  /**
   The receiver itself, called once an arrival, whatever the arrivals are and wherever they stop: it has dispatched the
   `k` frames that are complete, in order, and holds exactly the bytes of the next one that have come.
   */
  method ReceiveStream(r: Receiver, ghost fs: seq<Outgoing>, chunks: seq<seq<byte>>) returns (ghost k: nat)
    requires r.recvBuffer == []
    requires AllValid(fs) && IsPrefix(Concat(chunks), Stream(fs))
    modifies r
    ensures k <= |fs| && r.dispatched == old(r.dispatched) + DecodedAll(fs)[..k]
    ensures |Stream(fs[..k])| <= |Concat(chunks)| && r.recvBuffer == Concat(chunks)[|Stream(fs[..k])|..]
    ensures k < |fs| ==> |Concat(chunks)| < |Stream(fs[..k + 1])|
    ensures Concat(chunks) == Stream(fs) ==> k == |fs| && r.recvBuffer == []
  {
    hide *;
    ghost var start := r.dispatched;
    HoldsNothing(start);
    ConcatNone(chunks);
    var i := 0;
    while i < |chunks|
      invariant 0 <= i <= |chunks|
      invariant Holds(r.recvBuffer, start, r.dispatched, Concat(chunks[..i]))
    {
      ArrivedWhole(fs, chunks, i);
      ArrivedWhole(fs, chunks, i + 1);
      ConcatSnoc(chunks, i);
      HoldsNext(r.recvBuffer, start, r.dispatched, Concat(chunks[..i]), chunks[i]);
      r.OnReadyRead(chunks[i]);
      i := i + 1;
    }
    assert chunks[..i] == chunks;
    k := Arrived(r.recvBuffer, start, r.dispatched, fs, Concat(chunks));
  }

  lemma ConcatNone(chunks: seq<seq<byte>>)
    ensures Concat(chunks[..0]) == []
  {
  }

  /** What the receiver holds, in terms of the frames that were sent. */
  lemma Arrived(buf: seq<byte>, start: seq<Message>, done: seq<Message>, fs: seq<Outgoing>, arrived: seq<byte>)
    returns (k: nat)
    requires AllValid(fs) && IsPrefix(arrived, Stream(fs)) && Holds(buf, start, done, arrived)
    ensures k <= |fs| && done == start + DecodedAll(fs)[..k]
    ensures |Stream(fs[..k])| <= |arrived| && buf == arrived[|Stream(fs[..k])|..]
    ensures k < |fs| ==> |arrived| < |Stream(fs[..k + 1])|
    ensures arrived == Stream(fs) ==> k == |fs| && buf == []
  {
    hide Terminates, Messages, Leftover, Stream, DecodedAll;
    k := PrefixDrains(fs, arrived);
    if arrived == Stream(fs) {
      if k < |fs| {
        StreamMonotone(fs, k + 1);
        assert false;
      }
      assert fs[..k] == fs;
    }
  }
}
