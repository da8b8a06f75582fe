/** Pieces of a file written in any order, and the client loop that cuts a file into them. */
module Pieces {
  import opened Bytes
  import opened Storage
  import opened Frame
  import Crc32

  datatype Piece = Piece(offset: nat, data: seq<byte>)

  /** The pieces written one after the other. */
  function Written(content: seq<byte>, pieces: seq<Piece>): seq<byte> {
    if pieces == [] then content
    else var p := pieces[|pieces| - 1]; WriteAt(Written(content, pieces[..|pieces| - 1]), p.offset, p.data)
  }

  function Total(pieces: seq<Piece>): nat {
    if pieces == [] then 0 else Total(pieces[..|pieces| - 1]) + |pieces[|pieces| - 1].data|
  }

  predicate In(p: Piece, i: int) {
    p.offset <= i < p.offset + |p.data|
  }

  ghost predicate Covered(pieces: seq<Piece>, i: int) {
    exists k :: 0 <= k < |pieces| && In(pieces[k], i)
  }

  predicate CutFrom(p: Piece, source: seq<byte>) {
    p.offset + |p.data| <= |source| && p.data == source[p.offset..p.offset + |p.data|]
  }

  ghost predicate AllCutFrom(pieces: seq<Piece>, source: seq<byte>) {
    forall k | 0 <= k < |pieces| :: CutFrom(pieces[k], source)
  }

  /** Cut from the source, covering all of it, none overlapping another. */
  ghost predicate Tiles(pieces: seq<Piece>, source: seq<byte>) {
    && AllCutFrom(pieces, source)
    && (forall i | 0 <= i < |source| :: Covered(pieces, i))
    && (forall j, k, i | 0 <= j < k < |pieces| :: !(In(pieces[j], i) && In(pieces[k], i)))
  }

  // --- Content ---

  lemma CoveredSnoc(pieces: seq<Piece>, p: Piece, i: int)
    ensures Covered(pieces + [p], i) <==> Covered(pieces, i) || In(p, i)
  {
    if Covered(pieces, i) {
      var k :| 0 <= k < |pieces| && In(pieces[k], i);
      assert (pieces + [p])[k] == pieces[k];
    }
    if In(p, i) {
      assert (pieces + [p])[|pieces|] == p;
    }
  }

  /**
   Every byte of what was written: the source's where a piece covers it, else zero; it ends at the last covered byte.
   */
  lemma {:induction false} WrittenBytes(pieces: seq<Piece>, source: seq<byte>)
    requires AllCutFrom(pieces, source)
    ensures var r := Written([], pieces);
      && |r| <= |source|
      && (forall i | 0 <= i < |r| :: r[i] == if Covered(pieces, i) then source[i] else 0)
      && (forall i | |r| <= i :: !Covered(pieces, i))
      && (r != [] ==> Covered(pieces, |r| - 1))
  {
    if pieces != [] {
      var rest, p := pieces[..|pieces| - 1], pieces[|pieces| - 1];
      assert pieces == rest + [p];
      WrittenBytes(rest, source);
      assert CutFrom(p, source);
      var before, r := Written([], rest), Written([], pieces);
      assert r == WriteAt(before, p.offset, p.data);
      hide Written, Covered, AllCutFrom;
      forall i: int ensures Covered(pieces, i) <==> Covered(rest, i) || In(p, i) {
        CoveredSnoc(rest, p, i);
      }
    }
  }

  /** Exactly when the pieces add up to the source: its last byte is covered, and whatever is not covered is zero. */
  lemma WrittenIsSource(pieces: seq<Piece>, source: seq<byte>)
    requires AllCutFrom(pieces, source)
    ensures Written([], pieces) == source <==>
      && (source != [] ==> Covered(pieces, |source| - 1))
      && (forall i | 0 <= i < |source| && !Covered(pieces, i) :: source[i] == 0)
  {
    WrittenBytes(pieces, source);
  }

  /** The byte the last piece over position `i` puts there. */
  function LastOver(pieces: seq<Piece>, i: nat): Option<byte> {
    if pieces == [] then None
    else
      var p := pieces[|pieces| - 1];
      if In(p, i) then Some(p.data[i - p.offset]) else LastOver(pieces[..|pieces| - 1], i)
  }

  /** Where the furthest piece that has any data ends. */
  function Reach(pieces: seq<Piece>): nat {
    if pieces == [] then 0
    else
      var p, before := pieces[|pieces| - 1], Reach(pieces[..|pieces| - 1]);
      if p.data == [] || p.offset + |p.data| <= before then before else p.offset + |p.data|
  }

  /**
   Each byte of the source is what the last piece over it says, or zero under none, and the pieces reach just as far.
   */
  ghost predicate Spell(pieces: seq<Piece>, source: seq<byte>) {
    && Reach(pieces) == |source|
    && forall i | 0 <= i < |source| :: source[i] == match LastOver(pieces, i) { case None => 0 case Some(b) => b }
  }

  /** For any pieces at all, cut from the source or not: what was written is the source exactly when they spell it. */
  lemma {:induction false} WrittenExactly(pieces: seq<Piece>, source: seq<byte>)
    ensures Written([], pieces) == source <==> Spell(pieces, source)
  {
    WrittenSpells(pieces);
    hide Written, Reach, LastOver;
  }

  lemma {:induction false} WrittenSpells(pieces: seq<Piece>)
    ensures Spell(pieces, Written([], pieces))
    decreases |pieces|
  {
    if pieces != [] {
      var rest, p := pieces[..|pieces| - 1], pieces[|pieces| - 1];
      WrittenSpells(rest);
      var before, r := Written([], rest), Written([], pieces);
      assert r == WriteAt(before, p.offset, p.data);
      hide Written;
      assert Reach(pieces) == |r|;
      hide Reach;
      forall i | 0 <= i < |r| ensures r[i] == match LastOver(pieces, i) { case None => 0 case Some(b) => b } {
        if |before| <= i { NothingOver(rest, i); }
      }
    }
  }

  lemma {:induction false} NothingOver(pieces: seq<Piece>, i: nat)
    requires i >= Reach(pieces)
    ensures LastOver(pieces, i).None?
  {
    if pieces != [] { NothingOver(pieces[..|pieces| - 1], i); }
  }

  /** Order and repetition of the pieces make no difference. */
  lemma OrderIrrelevant(pieces: seq<Piece>, others: seq<Piece>, source: seq<byte>)
    requires AllCutFrom(pieces, source) && forall p :: p in pieces <==> p in others
    ensures Written([], pieces) == Written([], others)
  {
    forall k | 0 <= k < |others| ensures CutFrom(others[k], source) {
      assert others[k] in pieces;
    }
    forall i: int ensures Covered(pieces, i) <==> Covered(others, i) {
      SameCover(pieces, others, i);
      SameCover(others, pieces, i);
    }
    WrittenBytes(pieces, source);
    WrittenBytes(others, source);
    hide Covered;
    var r, r' := Written([], pieces), Written([], others);
    assert |r| == |r'|;
  }

  lemma SameCover(pieces: seq<Piece>, others: seq<Piece>, i: int)
    requires forall p :: p in pieces <==> p in others
    ensures Covered(pieces, i) ==> Covered(others, i)
  {
    if Covered(pieces, i) {
      var k :| 0 <= k < |pieces| && In(pieces[k], i);
      assert pieces[k] in others;
    }
  }

  // --- Count ---

  function Interval(lo: int, n: nat): (s: set<int>)
    ensures |s| == n && forall i :: i in s <==> lo <= i < lo + n
  {
    if n == 0 then {} else Interval(lo, n - 1) + {lo + n - 1}
  }

  ghost function CoveredSet(pieces: seq<Piece>): set<int> {
    if pieces == [] then {}
    else var p := pieces[|pieces| - 1]; CoveredSet(pieces[..|pieces| - 1]) + Interval(p.offset, |p.data|)
  }

  lemma {:induction false} CoveredSetIs(pieces: seq<Piece>, i: int)
    ensures i in CoveredSet(pieces) <==> Covered(pieces, i)
  {
    if pieces != [] {
      var rest, p := pieces[..|pieces| - 1], pieces[|pieces| - 1];
      assert pieces == rest + [p];
      CoveredSetIs(rest, i);
      CoveredSnoc(rest, p, i);
    }
  }

  lemma {:induction false} DisjointTotal(pieces: seq<Piece>)
    requires forall j, k, i | 0 <= j < k < |pieces| :: !(In(pieces[j], i) && In(pieces[k], i))
    ensures Total(pieces) == |CoveredSet(pieces)|
  {
    if pieces != [] {
      var rest, p := pieces[..|pieces| - 1], pieces[|pieces| - 1];
      DisjointTotal(rest);
      forall i ensures i in CoveredSet(rest) ==> !In(p, i) {
        CoveredSetIs(rest, i);
        if Covered(rest, i) {
          var k :| 0 <= k < |rest| && In(rest[k], i);
          assert pieces[k] == rest[k];
        }
      }
      assert CoveredSet(rest) !! Interval(p.offset, |p.data|);
    }
  }

  /** A tiling, in any order: the content is the source and the bytes counted are its length. */
  lemma TilesWritten(pieces: seq<Piece>, source: seq<byte>)
    requires Tiles(pieces, source)
    ensures Written([], pieces) == source && Total(pieces) == |source|
  {
    WrittenIsSource(pieces, source);
    DisjointTotal(pieces);
    forall i ensures i in CoveredSet(pieces) <==> i in Interval(0, |source|) {
      CoveredSetIs(pieces, i);
    }
    assert CoveredSet(pieces) == Interval(0, |source|);
  }

  // --- The client's loop ---

  const CHUNK_SIZE: nat := 8192
  const UPLOAD_DATA: bv16 := 0x0303

  /** The payload of an upload data frame: task id, offset and length, then the data. */
  function EncodeData(id: nat, p: Piece): (s: seq<byte>)
    ensures |s| == DATA_HEADER + |p.data|
  {
    LENat(id, 4) + LENat(p.offset, 4) + LENat(|p.data|, 4) + p.data
  }

  /** What the server reads from it. */
  function DecodeData(s: seq<byte>): (nat, Piece)
    requires |s| >= DATA_HEADER
  {
    var n := FromLENat(s[8..12]);
    var data := if DATA_HEADER + n <= |s| then s[DATA_HEADER..DATA_HEADER + n] else s[DATA_HEADER..];
    (FromLENat(s[0..4]), Piece(FromLENat(s[4..8]), data))
  }

  lemma DataRoundTrip(id: nat, p: Piece)
    requires id < UINT32_SIZE && p.offset < UINT32_SIZE && |p.data| < UINT32_SIZE
    ensures DecodeData(EncodeData(id, p)) == (id, p)
  {
    var s := EncodeData(id, p);
    assert Pow256(4) == UINT32_SIZE;
    LENatRoundTrip(id, 4);
    LENatRoundTrip(p.offset, 4);
    LENatRoundTrip(|p.data|, 4);
    hide LENat, FromLENat;
    assert s[0..4] == LENat(id, 4) && s[4..8] == LENat(p.offset, 4) && s[8..12] == LENat(|p.data|, 4);
    assert s[DATA_HEADER..DATA_HEADER + |p.data|] == p.data;
  }

  /** A whole frame that `RecvFrame` accepts and that holds the given piece for the given task. */
  ghost predicate Carries(frame: seq<byte>, id: nat, p: Piece) {
    Whole(frame) && match ClientDecode(frame) {
      case None => false
      case Some(m) => m.header.cmd == 0x0303 && |m.payload| >= DATA_HEADER && DecodeData(m.payload) == (id, p)
    }
  }

  lemma FrameCarries(seqNo: bv32, id: nat, p: Piece)
    requires id < UINT32_SIZE && p.offset < UINT32_SIZE && |p.data| <= MAX_PAYLOAD_SIZE - DATA_HEADER
    ensures Carries(FrameBytes(UPLOAD_DATA, seqNo, EncodeData(id, p)), id, p)
  {
    var payload := EncodeData(id, p);
    var frame := FrameBytes(UPLOAD_DATA, seqNo, payload);
    assert frame + [] == frame;
    DecodersRecover(UPLOAD_DATA, seqNo, payload, [], None);
    DataRoundTrip(id, p);
    hide EncodeData, DecodeData, FrameBytes, ParseHeader, ClientDecode, Crc32.Checksum;
  }

  /** The pieces tile the first `n` bytes of the source. */
  ghost predicate TilesUpTo(pieces: seq<Piece>, source: seq<byte>, n: nat) {
    && AllCutFrom(pieces, source)
    && (forall i :: Covered(pieces, i) <==> 0 <= i < n)
    && (forall j, k, i | 0 <= j < k < |pieces| :: !(In(pieces[j], i) && In(pieces[k], i)))
  }

  lemma NextTile(pieces: seq<Piece>, source: seq<byte>, p: Piece)
    requires TilesUpTo(pieces, source, p.offset) && CutFrom(p, source)
    ensures TilesUpTo(pieces + [p], source, p.offset + |p.data|)
  {
    forall i: int ensures Covered(pieces + [p], i) <==> Covered(pieces, i) || In(p, i) {
      CoveredSnoc(pieces, p, i);
    }
    forall j, i | 0 <= j < |pieces| ensures !(In(pieces[j], i) && In(p, i)) {
      assert In(pieces[j], i) ==> Covered(pieces, i);
    }
    hide Covered, CutFrom;
  }

  /** Frame `k` carries a non-empty piece of task `id` that starts where `k` full chunks end. */
  ghost predicate IsChunk(frame: seq<byte>, p: Piece, id: nat, k: nat) {
    Carries(frame, id, p) && 0 < |p.data| <= 8192 && p.offset == 8192 * k
  }

  ghost predicate InStep(frames: seq<seq<byte>>, pieces: seq<Piece>, id: nat) {
    |frames| == |pieces| && forall k | 0 <= k < |frames| :: IsChunk(frames[k], pieces[k], id, k)
  }

  lemma ChunkFrame(id: nat, seqNo: bv32, p: Piece, k: nat)
    requires id < UINT32_SIZE && 0 < |p.data| <= CHUNK_SIZE && p.offset == k * CHUNK_SIZE < UINT32_SIZE
    ensures IsChunk(FrameBytes(UPLOAD_DATA, seqNo, EncodeData(id, p)), p, id, k)
  {
    FrameCarries(seqNo, id, p);
    hide Carries, FrameBytes, EncodeData;
  }

  lemma NextInStep(frames: seq<seq<byte>>, pieces: seq<Piece>, id: nat, seqNo: bv32, p: Piece)
    requires id < UINT32_SIZE && InStep(frames, pieces, id)
    requires 0 < |p.data| <= CHUNK_SIZE && p.offset == |pieces| * CHUNK_SIZE < UINT32_SIZE
    ensures InStep(frames + [FrameBytes(UPLOAD_DATA, seqNo, EncodeData(id, p))], pieces + [p], id)
  {
    ChunkFrame(id, seqNo, p, |pieces|);
    hide *;
    SameNumber(frames, pieces, id);
    InStepSnoc(frames, pieces, id, FrameBytes(UPLOAD_DATA, seqNo, EncodeData(id, p)), p);
  }

  lemma InStepSnoc(frames: seq<seq<byte>>, pieces: seq<Piece>, id: nat, frame: seq<byte>, p: Piece)
    requires InStep(frames, pieces, id) && IsChunk(frame, p, id, |frames|)
    ensures InStep(frames + [frame], pieces + [p], id)
  {
    hide IsChunk;
    forall k | 0 <= k < |frames| + 1 ensures IsChunk((frames + [frame])[k], (pieces + [p])[k], id, k) {
    }
  }

  /** The sequence number `k` frames after the first, through 32 bits. */
  function SeqAt(first: bv32, k: nat): bv32 {
    if k == 0 then first else SeqAt(first, k - 1) + 1
  }

  /** The frames byte for byte: the data requests of the pieces, with sequence numbers that go up by one. */
  ghost predicate Numbered(frames: seq<seq<byte>>, pieces: seq<Piece>, id: nat, first: bv32) {
    && |frames| == |pieces|
    && forall k | 0 <= k < |frames| ::
      |pieces[k].data| <= 8192 && frames[k] == FrameBytes(0x0303, SeqAt(first, k), EncodeData(id, pieces[k]))
  }

  lemma NumberedNext(frames: seq<seq<byte>>, pieces: seq<Piece>, id: nat, first: bv32, p: Piece)
    requires Numbered(frames, pieces, id, first) && |p.data| <= 8192
    ensures Numbered(frames + [FrameBytes(0x0303, SeqAt(first, |frames|), EncodeData(id, p))], pieces + [p], id, first)
  {
    hide FrameBytes, EncodeData, SeqAt;
  }

  lemma NumberedNone(id: nat, first: bv32)
    ensures Numbered([], [], id, first) && SeqAt(first, 0) == first
  {
  }

  lemma NextSeq(first: bv32, k: nat)
    ensures SeqAt(first, k + 1) == Next(SeqAt(first, k))
  {
  }

  /** The size over the chunk size, rounded up. */
  function Chunks(size: nat): nat {
    (size + CHUNK_SIZE - 1) / CHUNK_SIZE
  }

  /** How many bytes chunk `k` asks for. */
  function Asked(size: nat, k: nat): nat
    requires k * CHUNK_SIZE < size
  {
    if size - k * CHUNK_SIZE < CHUNK_SIZE then size - k * CHUNK_SIZE else CHUNK_SIZE
  }

  /** The first `n` reads of the local file return all that was asked for. */
  ghost predicate FullReads(size: nat, gives: nat -> nat, n: nat) {
    forall k: nat | k < n && k * CHUNK_SIZE < size :: gives(k) >= Asked(size, k)
  }

  /** How far the loop is: tiled so far, or a read fell short and fewer bytes than `offset` were sent. */
  ghost predicate Progressed(pieces: seq<Piece>, source: seq<byte>, full: bool, cursor: nat, offset: nat) {
    && Total(pieces) == cursor
    && (if full then cursor == offset && TilesUpTo(pieces, source, offset) else cursor < offset)
  }

  /**
   The state at the loop's test: `frames` are sent, `cursor` bytes are read, and `full` says if all reads were full.
   */
  ghost predicate Sending(source: seq<byte>, id: nat, gives: nat -> nat, frames: seq<seq<byte>>, pieces: seq<Piece>,
                          full: bool, cursor: nat, offset: nat) {
    && InStep(frames, pieces, id)
    && Progressed(pieces, source, full, cursor, offset)
    && (full <==> FullReads(|source|, gives, |frames|))
    && cursor <= offset <= |source|
    && offset == (if |frames| * CHUNK_SIZE < |source| then |frames| * CHUNK_SIZE else |source|)
    && (|frames| == 0 || (|frames| - 1) * CHUNK_SIZE < |source|)
  }

  lemma SendingFirst(source: seq<byte>, id: nat, gives: nat -> nat)
    ensures Sending(source, id, gives, [], [], true, 0, 0)
  {
    assert TilesUpTo([], source, 0);
  }

  lemma SendingNext(source: seq<byte>, id: nat, gives: nat -> nat, frames: seq<seq<byte>>, pieces: seq<Piece>,
                    full: bool, cursor: nat, offset: nat, seqNo: bv32, p: Piece)
    requires id < UINT32_SIZE && |source| < UINT32_SIZE
    requires Sending(source, id, gives, frames, pieces, full, cursor, offset) && offset < |source|
    requires p.offset == offset && p.data != []
    requires |p.data| == Given(|source|, gives, |frames|) && cursor + |p.data| <= |source|
    requires p.data == source[cursor..cursor + |p.data|]
    ensures Sending(source, id, gives, frames + [FrameBytes(UPLOAD_DATA, seqNo, EncodeData(id, p))], pieces + [p],
                    full && |p.data| == Asked(|source|, |frames|),
                    cursor + |p.data|, offset + Asked(|source|, |frames|))
  {
    hide TilesUpTo, InStep, EncodeData, FrameBytes, FullReads;
    assert full ==> CutFrom(p, source);
    OnePiece(pieces, source, full, cursor, offset, p, Asked(|source|, |frames|));
    hide Progressed, CutFrom;
    assert offset == |pieces| * CHUNK_SIZE by { assert |frames| == |pieces| by { SameNumber(frames, pieces, id); } }
    NextInStep(frames, pieces, id, seqNo, p);
    OneMoreRead(|source|, gives, |frames|);
  }

  lemma SameNumber(frames: seq<seq<byte>>, pieces: seq<Piece>, id: nat)
    requires InStep(frames, pieces, id)
    ensures |frames| == |pieces|
  {
  }

  /** How many bytes the read for chunk `k` returns. */
  function Given(size: nat, gives: nat -> nat, k: nat): nat
    requires k * CHUNK_SIZE < size
  {
    if gives(k) < Asked(size, k) then gives(k) else Asked(size, k)
  }

  /** The loop is over: everything was asked for, or the last read gave nothing. */
  lemma SendingLast(source: seq<byte>, id: nat, gives: nat -> nat, frames: seq<seq<byte>>, pieces: seq<Piece>,
                    full: bool, cursor: nat, offset: nat)
    requires Sending(source, id, gives, frames, pieces, full, cursor, offset)
    requires offset < |source| ==> gives(|frames|) == 0
    ensures InStep(frames, pieces, id) && |frames| <= Chunks(|source|)
    ensures Tiles(pieces, source) <==> FullReads(|source|, gives, Chunks(|source|))
    ensures Tiles(pieces, source) ==> |frames| == Chunks(|source|)
  {
    hide InStep, Tiles, Progressed, Chunks, FullReads;
    ChunksMade(|source|, |frames|);
    TiledOrNot(pieces, source, full, cursor, offset);
    if offset < |source| { EmptyRead(|source|, gives, |frames|); }
  }

  lemma EmptyRead(size: nat, gives: nat -> nat, k: nat)
    requires k * CHUNK_SIZE < size && gives(k) == 0
    ensures !FullReads(size, gives, Chunks(size))
  {
    assert gives(k) < Asked(size, k);
  }

  lemma OnePiece(pieces: seq<Piece>, source: seq<byte>, full: bool, cursor: nat, offset: nat, p: Piece, asked: nat)
    requires Progressed(pieces, source, full, cursor, offset) && p.offset == offset && |p.data| <= asked
    requires full ==> CutFrom(p, source)
    ensures Progressed(pieces + [p], source, full && |p.data| == asked, cursor + |p.data|, offset + asked)
  {
    assert (pieces + [p])[..|pieces|] == pieces;
    hide CutFrom, TilesUpTo;
    if full { NextTile(pieces, source, p); }
  }

  lemma TiledOrNot(pieces: seq<Piece>, source: seq<byte>, full: bool, cursor: nat, offset: nat)
    requires Progressed(pieces, source, full, cursor, offset) && offset <= |source|
    ensures Tiles(pieces, source) <==> full && offset == |source|
  {
    if full && offset == |source| {
      AllTiled(pieces, source);
    } else if Tiles(pieces, source) {
      TilesWritten(pieces, source);
      assert false;
    }
  }

  /** `file.read`: the next bytes, up to what was asked for and what the device gives at once. */
  method ReadFile(file: seq<byte>, cursor: nat, asked: nat, gives: nat) returns (data: seq<byte>)
    requires cursor + asked <= |file|
    ensures |data| == (if gives < asked then gives else asked) && data == file[cursor..cursor + |data|]
  {
    data := file[cursor..cursor + if gives < asked then gives else asked];
  }

  /** `sendFileUploadData`: the bytes put on the socket. */
  method SendData(id: nat, offset: nat, data: seq<byte>, seqNo: bv32) returns (frame: seq<byte>)
    requires |data| <= CHUNK_SIZE
    ensures frame == FrameBytes(UPLOAD_DATA, seqNo, EncodeData(id, Piece(offset, data)))
  {
    frame := PackFrame(UPLOAD_DATA, seqNo, EncodeData(id, Piece(offset, data)));
  }

  /**
   `uploadFileChunked`; read `k` of the local file gives up to `gives(k)` bytes. Each chunk is sent at the offset of a
   full one whatever the read gave, so the pieces tile the file, its size taken through 32 bits, exactly when every read
   was full.
   */
  method UploadFileChunked(file: seq<byte>, id: nat, firstSeq: bv32, gives: nat -> nat)
    returns (size: nat, ghost pieces: seq<Piece>, frames: seq<seq<byte>>)
    requires id < UINT32_SIZE
    ensures size == |file| % UINT32_SIZE && size <= |file|
    ensures InStep(frames, pieces, id) && Numbered(frames, pieces, id, firstSeq) && |frames| <= Chunks(size)
    ensures Tiles(pieces, file[..size]) <==> FullReads(size, gives, Chunks(size))
    ensures Tiles(pieces, file[..size]) ==> |frames| == Chunks(size)
  {
    hide *;
    size := |file| % UINT32_SIZE;
    pieces, frames := [], [];
    var seqNo := firstSeq;
    var offset, cursor: nat := 0, 0;
    ghost var source, full := file[..size], true;
    SendingFirst(source, id, gives);
    NumberedNone(id, firstSeq);
    while offset < size
      invariant Numbered(frames, pieces, id, firstSeq) && seqNo == SeqAt(firstSeq, |frames|)
      invariant Sending(source, id, gives, frames, pieces, full, cursor, offset)
      decreases size - offset
    {
      SendingBounds(source, id, gives, frames, pieces, full, cursor, offset);
      var remaining := size - offset;
      var chunkSize := if remaining < CHUNK_SIZE then remaining else CHUNK_SIZE;
      assert chunkSize == Asked(size, |frames|);
      var data := ReadFile(file, cursor, chunkSize, gives(|frames|));
      if data == [] { break; }
      Sliced(file, size, cursor, cursor + |data|);
      SendingNext(source, id, gives, frames, pieces, full, cursor, offset, seqNo, Piece(offset, data));
      AtMostChunk(size, |frames|);
      NumberedNext(frames, pieces, id, firstSeq, Piece(offset, data));
      NextSeq(firstSeq, |frames|);
      full := full && |data| == chunkSize;
      var frame := SendData(id, offset, data, seqNo);
      frames := frames + [frame];
      pieces := pieces + [Piece(offset, data)];
      seqNo := Next(seqNo);
      offset, cursor := offset + chunkSize, cursor + |data|;
    }
    SendingLast(source, id, gives, frames, pieces, full, cursor, offset);
  }

  lemma AtMostChunk(size: nat, k: nat)
    requires k * CHUNK_SIZE < size
    ensures Asked(size, k) <= 8192 && UPLOAD_DATA == 0x0303
  {
  }

  lemma Sliced(file: seq<byte>, size: nat, lo: nat, hi: nat)
    requires lo <= hi <= size <= |file|
    ensures file[..size][lo..hi] == file[lo..hi]
  {
  }

  lemma SendingBounds(source: seq<byte>, id: nat, gives: nat -> nat, frames: seq<seq<byte>>, pieces: seq<Piece>,
                      full: bool, cursor: nat, offset: nat)
    requires Sending(source, id, gives, frames, pieces, full, cursor, offset) && offset < |source|
    ensures cursor <= offset && offset == |frames| * CHUNK_SIZE && Asked(|source|, |frames|) > 0
    ensures Asked(|source|, |frames|) == if |source| - offset < CHUNK_SIZE then |source| - offset else CHUNK_SIZE
    ensures Given(|source|, gives, |frames|)
      == if gives(|frames|) < Asked(|source|, |frames|) then gives(|frames|) else Asked(|source|, |frames|)
  {
  }

  lemma ChunksMade(size: nat, k: nat)
    requires k == 0 || (k - 1) * CHUNK_SIZE < size
    ensures k <= Chunks(size)
    ensures k * CHUNK_SIZE >= size ==> k == Chunks(size)
  {
  }

  lemma OneMoreRead(size: nat, gives: nat -> nat, n: nat)
    requires n * CHUNK_SIZE < size
    ensures FullReads(size, gives, n + 1) <==> FullReads(size, gives, n) && gives(n) >= Asked(size, n)
  {
  }

  /** `++m_seq` */
  function Next(seqNo: bv32): bv32 {
    seqNo + 1
  }

  lemma AllTiled(pieces: seq<Piece>, source: seq<byte>)
    requires TilesUpTo(pieces, source, |source|)
    ensures Tiles(pieces, source)
  {
  }
}
