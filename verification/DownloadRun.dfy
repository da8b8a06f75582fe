/** What a client gets out of a download task over a whole run. */
module DownloadRun {
  import opened Bytes
  import opened Storage
  import opened SessionModel
  import opened SessionSafety
  import opened SessionHistory
  import opened TaskProgress
  import Codec = Frame

  // --- The course of a download, by file size and buffer size alone ---

  /** Where chunk `i` starts in a file of `n` bytes: the 32-bit count of bytes read before it. */
  function Mark(n: nat, bs: nat, i: nat): (m: nat)
    ensures m < UINT32_SIZE
    decreases i, 0
  {
    if i == 0 then 0 else (Mark(n, bs, i - 1) + Length(n, bs, i - 1)) % UINT32_SIZE
  }

  function Length(n: nat, bs: nat, i: nat): (k: nat)
    ensures k <= bs
    ensures k > 0 ==> Mark(n, bs, i) + k <= n
    decreases i, 1
  {
    var m := Mark(n, bs, i);
    if n <= m then 0 else if bs <= n - m then bs else n - m
  }

  function SumOfLengths(n: nat, bs: nat, i: nat): nat {
    if i == 0 then 0 else SumOfLengths(n, bs, i - 1) + Length(n, bs, i - 1)
  }

  /** Below 4 GB the count never wraps. */
  lemma {:induction false} MarksChain(n: nat, bs: nat, i: nat)
    requires n < UINT32_SIZE
    ensures Mark(n, bs, i) == SumOfLengths(n, bs, i) <= n
  {
    if i > 0 { MarksChain(n, bs, i - 1); }
  }

  /** As long as it has not wrapped, full chunks come first. */
  lemma {:induction false} SumIs(n: nat, bs: nat, i: nat)
    requires forall j | 0 <= j <= i :: Mark(n, bs, j) == SumOfLengths(n, bs, j)
    ensures SumOfLengths(n, bs, i) == if i * bs <= n then i * bs else n
  {
    if i > 0 {
      SumIs(n, bs, i - 1);
      assert i * bs == (i - 1) * bs + bs;
    }
  }

  /** Each chunk starts where the ones before it end, for all requests, exactly for files below 4 GB. */
  lemma ChainExactly(n: nat, bs: nat)
    requires bs > 0
    ensures (forall i: nat :: Mark(n, bs, i) == SumOfLengths(n, bs, i)) <==> n < UINT32_SIZE
  {
    if n < UINT32_SIZE {
      forall i: nat ensures Mark(n, bs, i) == SumOfLengths(n, bs, i) { MarksChain(n, bs, i); }
    } else {
      var i := WrapsAt(n, bs, UINT32_SIZE);
      assert Mark(n, bs, i) != SumOfLengths(n, bs, i);
    }
  }

  lemma WrapsAt(n: nat, bs: nat, last: nat) returns (i: nat)
    requires bs > 0 && last == UINT32_SIZE <= n
    ensures Mark(n, bs, i) != SumOfLengths(n, bs, i)
  {
    if j :| 0 <= j <= last && Mark(n, bs, j) != SumOfLengths(n, bs, j) {
      i := j;
    } else {
      SumIs(n, bs, last);
      Monotone(1, bs, last);
      i := last;
    }
  }

  /** The size over the buffer size, rounded up. */
  function ChunkCount(n: nat, bs: nat): nat
    requires bs > 0
  {
    (n + bs - 1) / bs
  }

  /** There are exactly that many non-empty chunks, and they come first. */
  lemma NonEmptyChunks(n: nat, bs: nat, i: nat)
    requires n < UINT32_SIZE && bs > 0
    ensures Length(n, bs, i) > 0 <==> i < ChunkCount(n, bs)
    ensures i >= ChunkCount(n, bs) ==> Mark(n, bs, i) == n
  {
    MarksChain(n, bs, i);
    forall j | 0 <= j <= i ensures Mark(n, bs, j) == SumOfLengths(n, bs, j) { MarksChain(n, bs, j); }
    SumIs(n, bs, i);
    RoundUp(n, bs, i);
  }

  lemma RoundUp(n: nat, bs: nat, i: nat)
    requires bs > 0
    ensures i * bs < n <==> i < ChunkCount(n, bs)
  {
    var q := ChunkCount(n, bs);
    assert q * bs <= n + bs - 1 < q * bs + bs;
    if i < q { assert i * bs + bs <= q * bs by { Monotone(i + 1, q, bs); } }
    else { Monotone(q, i, bs); }
  }

  lemma Monotone(a: nat, b: nat, bs: nat)
    requires a <= b
    ensures a * bs <= b * bs
  {
  }

  // --- What the log shows ---

  /** Chunk `i` of `content`. */
  function Chunk(content: seq<byte>, bs: nat, i: nat): (r: seq<byte>)
    ensures |r| == Length(|content|, bs, i)
  {
    var m, k := Mark(|content|, bs, i), Length(|content|, bs, i);
    if k == 0 then [] else content[m..m + k]
  }

  predicate IsServed(e: Logged, id: nat) {
    e.command == DownloadData(id) && e.reply.Data?
  }

  /** The data replies for task `id`, in order. */
  function Served(log: seq<Logged>, id: nat): seq<Reply> {
    if log == [] then []
    else var e := log[|log| - 1]; Served(log[..|log| - 1], id) + (if IsServed(e, id) then [e.reply] else [])
  }

  /** The bytes that reach the client: a reply over 16 KB is not sent. */
  function Received(replies: seq<Reply>): seq<byte> {
    if replies == [] then []
    else var r := replies[|replies| - 1];
      Received(replies[..|replies| - 1]) + (if r.Data? && Sent(r) then r.bytes else [])
  }

  /** Replies `0..` are the chunks of `content` in order, each with the offset it starts at. */
  ghost predicate InOrder(replies: seq<Reply>, id: nat, content: seq<byte>, bs: nat) {
    forall i | 0 <= i < |replies| :: replies[i] == Data(id, Mark(|content|, bs, i), Chunk(content, bs, i))
  }

  predicate Fits(content: seq<byte>, bs: nat) {
    bs <= 16372 || |content| <= 16372
  }

  /** Chunk `i` runs from one mark to the next. */
  lemma BetweenMarks(content: seq<byte>, bs: nat, i: nat)
    requires |content| < UINT32_SIZE
    ensures Mark(|content|, bs, i) <= Mark(|content|, bs, i + 1) <= |content|
    ensures Chunk(content, bs, i) == content[Mark(|content|, bs, i)..Mark(|content|, bs, i + 1)]
  {
    MarksChain(|content|, bs, i);
    MarksChain(|content|, bs, i + 1);
    assert SumOfLengths(|content|, bs, i + 1) == SumOfLengths(|content|, bs, i) + Length(|content|, bs, i);
    hide Mark, SumOfLengths;
  }

  lemma ReceivedSnoc(replies: seq<Reply>, id: nat, offset: nat, bytes: seq<byte>)
    ensures Received(replies + [Data(id, offset, bytes)])
      == Received(replies) + (if Codec.DATA_HEADER + |bytes| <= Codec.MAX_PAYLOAD_SIZE then bytes else [])
  {
    assert (replies + [Data(id, offset, bytes)])[..|replies|] == replies;
  }

  lemma ChunkFits(content: seq<byte>, bs: nat, i: nat)
    requires Fits(content, bs)
    ensures Codec.DATA_HEADER + |Chunk(content, bs, i)| <= Codec.MAX_PAYLOAD_SIZE
  {
  }

  lemma Joined(content: seq<byte>, m: nat, n: nat)
    requires m <= n <= |content|
    ensures content[..m] + content[m..n] == content[..n]
  {
  }

  lemma {:induction false} AllReceived(replies: seq<Reply>, id: nat, content: seq<byte>, bs: nat)
    requires InOrder(replies, id, content, bs) && |content| < UINT32_SIZE && Fits(content, bs)
    ensures Mark(|content|, bs, |replies|) <= |content|
    ensures Received(replies) == content[..Mark(|content|, bs, |replies|)]
  {
    hide Mark, Chunk, Sent, Fits;
    MarksChain(|content|, bs, |replies|);
    if replies == [] {
      MarksChain(|content|, bs, 0);
    } else {
      var rest, k := replies[..|replies| - 1], |replies| - 1;
      assert replies == rest + [Data(id, Mark(|content|, bs, k), Chunk(content, bs, k))];
      AllReceived(rest, id, content, bs);
      hide *;
      BetweenMarks(content, bs, k);
      ChunkFits(content, bs, k);
      ReceivedSnoc(rest, id, Mark(|content|, bs, k), Chunk(content, bs, k));
      Joined(content, Mark(|content|, bs, k), Mark(|content|, bs, k + 1));
    }
  }

  lemma FirstTooLong(content: seq<byte>, bs: nat)
    requires !Fits(content, bs)
    ensures Codec.DATA_HEADER + |Chunk(content, bs, 0)| > Codec.MAX_PAYLOAD_SIZE && Chunk(content, bs, 0) != []
  {
    assert Mark(|content|, bs, 0) == 0;
  }

  /** One more chunk: what it adds to the bytes received and to the count. */
  lemma OneMore(replies: seq<Reply>, id: nat, content: seq<byte>, bs: nat)
    requires InOrder(replies, id, content, bs) && |content| < UINT32_SIZE && replies != []
    ensures var k := |replies| - 1;
      && InOrder(replies[..k], id, content, bs)
      && Mark(|content|, bs, k + 1) == Mark(|content|, bs, k) + |Chunk(content, bs, k)|
      && |Received(replies)| <= |Received(replies[..k])| + |Chunk(content, bs, k)|
      && (Codec.DATA_HEADER + |Chunk(content, bs, k)| > Codec.MAX_PAYLOAD_SIZE ==>
            |Received(replies)| == |Received(replies[..k])|)
  {
    var rest, k := replies[..|replies| - 1], |replies| - 1;
    assert replies == rest + [Data(id, Mark(|content|, bs, k), Chunk(content, bs, k))];
    hide Chunk, Mark;
    BetweenMarks(content, bs, k);
    ReceivedSnoc(rest, id, Mark(|content|, bs, k), Chunk(content, bs, k));
    hide Received;
  }

  lemma {:induction false} FirstLost(replies: seq<Reply>, id: nat, content: seq<byte>, bs: nat)
    requires InOrder(replies, id, content, bs) && |content| < UINT32_SIZE && !Fits(content, bs) && replies != []
    ensures |Received(replies)| < Mark(|content|, bs, |replies|)
  {
    OneMore(replies, id, content, bs);
    if |replies| == 1 {
      FirstTooLong(content, bs);
    } else {
      hide *;
      FirstLost(replies[..|replies| - 1], id, content, bs);
    }
  }

  /** Nothing is lost exactly when a full chunk, or the whole file, fits into one reply. */
  lemma ReceivedExactly(replies: seq<Reply>, id: nat, content: seq<byte>, bs: nat)
    requires InOrder(replies, id, content, bs) && |content| < UINT32_SIZE && replies != []
    ensures Mark(|content|, bs, |replies|) <= |content|
    ensures Received(replies) == content[..Mark(|content|, bs, |replies|)] <==> Fits(content, bs)
  {
    MarksChain(|content|, bs, |replies|);
    if Fits(content, bs) { AllReceived(replies, id, content, bs); } else { FirstLost(replies, id, content, bs); }
  }

  // --- Runs ---

  /** Task `id` reads `content` from `file`, and what it has served are the chunks in order. */
  ghost predicate Downloading(cfg: Limits, c: Connection, id: nat, file: nat, content: seq<byte>) {
    && Inv(cfg, c.world, c.session)
    && c.live
    && Listed(c.session.tasks, id)
    && var t := Get(c.session.tasks, id);
      && t.direction.Download? && t.file.Some? && t.file.value in c.world.files.open
      && c.world.files.open[t.file.value].file == file
      && Content(c.world.files, file) == content
      && t.transferred == Mark(|content|, cfg.bufferSize, |Served(c.log, id)|)
      && InOrder(Served(c.log, id), id, content, cfg.bufferSize)
  }

  /** The command is upload data that this session would write to the file. */
  ghost predicate Overwrites(w: World, tasks: seq<Task>, c: Command, file: nat) {
    c.UploadData? && Listed(tasks, c.id) && WritesTo(w, Get(tasks, c.id), file)
  }

  /** The event changes neither the file nor ends the task. */
  ghost predicate Leaves(cfg: Limits, c: Connection, e: Event, id: nat, file: nat) {
    match e
    case Others(w) =>
      Rely(c.world, w, Handles(c.session.tasks)) && Content(w.files, file) == Content(c.world.files, file)
    case NoFrame => false
    case Frame(command, running) =>
      && running
      && !Aims(cfg, c.world, c.session, command, file)
      && !Overwrites(c.world, c.session.tasks, command, file)
      && !command.Logout? && command != End(id)
  }

  ghost predicate Unchanged(cfg: Limits, c: Connection, events: seq<Event>, id: nat, file: nat)
    decreases |events|
  {
    events != [] ==>
      Leaves(cfg, c, events[0], id, file) && Unchanged(cfg, Step(cfg, c, events[0]), events[1..], id, file)
  }

  lemma ServedSnoc(log: seq<Logged>, e: Logged, id: nat)
    ensures Served(log + [e], id) == Served(log, id) + (if IsServed(e, id) then [e.reply] else [])
  {
    assert (log + [e])[..|log|] == log;
  }

  /** A data request is answered with the next chunk exactly when the task is running; while paused nothing moves. */
  lemma NextChunk(cfg: Limits, w: World, s: Session, id: nat, file: nat, i: nat)
    requires Inv(cfg, w, s) && Listed(s.tasks, id) && Get(s.tasks, id).direction.Download?
    requires Get(s.tasks, id).file.Some? && Get(s.tasks, id).file.value in w.files.open
    requires w.files.open[Get(s.tasks, id).file.value].file == file
    requires Get(s.tasks, id).transferred == Mark(|Content(w.files, file)|, cfg.bufferSize, i)
    ensures var o, content := Dispatch(cfg, w, s, DownloadData(id)), Content(w.files, file);
      && (o.reply.Data? <==> Get(s.tasks, id).status.Running?)
      && (o.reply.Data? ==> o.reply == Data(id, Mark(|content|, cfg.bufferSize, i), Chunk(content, cfg.bufferSize, i)))
      && (o.reply.Data? ==>
            Advanced(Get(s.tasks, id), DownloadData(id), o.reply) == Mark(|content|, cfg.bufferSize, i + 1))
      && (!o.reply.Data? ==> o == Outcome(w, s, Refused(TransferAborted), []))
  {
    assert TaskOk(w.files.open, Get(s.tasks, id));
    hide ListOk, Position, Put;
  }

  lemma ChunkLogged(log: seq<Logged>, e: Logged, id: nat, content: seq<byte>, bs: nat)
    requires InOrder(Served(log, id), id, content, bs) && e.command == DownloadData(id)
    requires e.reply.Data? ==>
      e.reply == Data(id, Mark(|content|, bs, |Served(log, id)|), Chunk(content, bs, |Served(log, id)|))
    ensures InOrder(Served(log + [e], id), id, content, bs)
    ensures |Served(log + [e], id)| == |Served(log, id)| + (if e.reply.Data? then 1 else 0)
  {
    ServedSnoc(log, e, id);
    hide Served, Mark, Chunk;
  }

  /** The log and the mark after one more data request of the task. */
  lemma ChunkCounted(log: seq<Logged>, e: Logged, id: nat, content: seq<byte>, bs: nat, before: nat, after: nat)
    requires InOrder(Served(log, id), id, content, bs) && e.command == DownloadData(id)
    requires before == Mark(|content|, bs, |Served(log, id)|)
    requires e.reply.Data? ==>
      && e.reply == Data(id, before, Chunk(content, bs, |Served(log, id)|))
      && after == Mark(|content|, bs, |Served(log, id)| + 1)
    requires !e.reply.Data? ==> after == before
    ensures InOrder(Served(log + [e], id), id, content, bs)
    ensures after == Mark(|content|, bs, |Served(log + [e], id)|)
  {
    hide Served, Mark, Chunk, InOrder;
    ChunkLogged(log, e, id, content, bs);
  }

  lemma OwnChunk(cfg: Limits, c: Connection, id: nat, file: nat, content: seq<byte>)
    requires Downloading(cfg, c, id, file, content)
    ensures var c' := Process(cfg, c, DownloadData(id));
      && Listed(c'.session.tasks, id)
      && Get(c'.session.tasks, id).transferred == Mark(|content|, cfg.bufferSize, |Served(c'.log, id)|)
      && InOrder(Served(c'.log, id), id, content, cfg.bufferSize)
  {
    var w, s := c.world, c.session;
    var o := Dispatch(cfg, w, s, DownloadData(id));
    hide Dispatch, Inv, Served, Content, Mark, Chunk, Length, InOrder, Listed, Get, Advanced;
    NextChunk(cfg, w, s, id, file, |Served(c.log, id)|);
    TaskAfter(cfg, w, s, DownloadData(id), id);
    NothingServed(Get(s.tasks, id), id, o.reply);
    ChunkCounted(c.log, Logged(DownloadData(id), o.reply, o.effects), id, content, cfg.bufferSize,
                 Get(s.tasks, id).transferred, Advanced(Get(s.tasks, id), DownloadData(id), o.reply));
  }

  lemma NothingServed(t: Task, id: nat, reply: Reply)
    ensures !reply.Data? ==> Advanced(t, DownloadData(id), reply) == t.transferred
  {
  }

  lemma OtherRequest(cfg: Limits, c: Connection, command: Command, id: nat, file: nat, content: seq<byte>)
    requires Downloading(cfg, c, id, file, content) && Leaves(cfg, c, Frame(command, true), id, file)
    requires command != DownloadData(id)
    ensures var c' := Process(cfg, c, command);
      && Listed(c'.session.tasks, id)
      && Get(c'.session.tasks, id).transferred == Mark(|content|, cfg.bufferSize, |Served(c'.log, id)|)
      && InOrder(Served(c'.log, id), id, content, cfg.bufferSize)
  {
    var w, s := c.world, c.session;
    var o := Dispatch(cfg, w, s, command);
    TaskAfter(cfg, w, s, command, id);
    NothingWritten(cfg, w, s, command, id);
    ServedSnoc(c.log, Logged(command, o.reply, o.effects), id);
    assert Served(c.log, id) + [] == Served(c.log, id);
    hide Dispatch, Inv, Served, Content, Listed, Get, Mark, Chunk, Length, Aims;
  }

  /** Upload data sent to a download task writes nothing and moves nothing. */
  lemma NothingWritten(cfg: Limits, w: World, s: Session, c: Command, id: nat)
    requires Inv(cfg, w, s) && Listed(s.tasks, id) && Get(s.tasks, id).direction.Download?
    requires Get(s.tasks, id).transferred < UINT32_SIZE && c != DownloadData(id)
    ensures Advanced(Get(s.tasks, id), c, Dispatch(cfg, w, s, c).reply) == Get(s.tasks, id).transferred
  {
    assert TaskOk(w.files.open, Get(s.tasks, id));
    if c.UploadData? && c.id == id {
      hide Inv, Position, Put;
    } else {
      hide Dispatch, Inv, Position;
    }
  }

  lemma FileLeft(cfg: Limits, w: World, s: Session, c: Command, file: nat)
    requires Inv(cfg, w, s) && !Aims(cfg, w, s, c, file) && !Overwrites(w, s.tasks, c, file)
    ensures Content(Dispatch(cfg, w, s, c).world.files, file) == Content(w.files, file)
  {
    if c.UploadData? && Listed(s.tasks, c.id) {
      assert TaskOk(w.files.open, Get(s.tasks, c.id));
    }
    hide Dispatch, Aims, ListOk, Position;
    ContentKept(cfg, w, s, c, file);
  }

  lemma DownloadStep(cfg: Limits, c: Connection, e: Event, id: nat, file: nat, content: seq<byte>)
    requires Downloading(cfg, c, id, file, content) && Leaves(cfg, c, e, id, file)
    ensures Downloading(cfg, Step(cfg, c, e), id, file, content)
  {
    var t := Get(c.session.tasks, id);
    if e.Others? {
      RelyKeeps(cfg, c.world, e.world, c.session);
      assert t.file.value in Handles(c.session.tasks);
      hide Inv, Served, InOrder, Mark, Get, Listed;
    } else {
      var command := e.command;
      var w, s := c.world, c.session;
      var o := Dispatch(cfg, w, s, command);
      DispatchGood(cfg, w, s, command);
      TaskAfter(cfg, w, s, command, id);
      FileLeft(cfg, w, s, command, file);
      if command == DownloadData(id) {
        OwnChunk(cfg, c, id, file, content);
      } else {
        OtherRequest(cfg, c, command, id, file, content);
      }
      assert TaskOk(o.world.files.open, Get(o.session.tasks, id));
      HandlesKept(cfg, w, s, command, t.file.value);
      assert o.session.authenticated;
      hide Dispatch, Inv, Served, InOrder, Mark, Get, Listed, Content, Good, Aims;
    }
  }

  lemma {:induction false} DownloadKeeps(cfg: Limits, c: Connection, events: seq<Event>, id: nat, file: nat,
                                         content: seq<byte>)
    requires Downloading(cfg, c, id, file, content) && Unchanged(cfg, c, events, id, file)
    ensures Downloading(cfg, Run(cfg, c, events), id, file, content)
    decreases |events|
  {
    if events != [] {
      DownloadStep(cfg, c, events[0], id, file, content);
      DownloadKeeps(cfg, Step(cfg, c, events[0]), events[1..], id, file, content);
    }
  }

  // --- From start on ---

  lemma {:induction false} NoneServed(log: seq<Logged>, id: nat)
    requires forall i | 0 <= i < |log| :: !IsServed(log[i], id)
    ensures Served(log, id) == []
  {
    if log != [] { NoneServed(log[..|log| - 1], id); }
  }

  lemma DownloadBegins(cfg: Limits, c: Connection, path: string, opens: bool)
    requires Sound(cfg, c) && c.live && IdsGivenOut(c)
    requires Dispatch(cfg, c.world, c.session, DownloadStart(path, opens)).reply.Started?
    ensures path in c.world.files.names
    ensures var file := c.world.files.names[path];
      var content := Content(c.world.files, file);
      && Dispatch(cfg, c.world, c.session, DownloadStart(path, opens)).reply
         == Started(c.world.nextTask, |content| % UINT32_SIZE)
      && Downloading(cfg, Step(cfg, c, Frame(DownloadStart(path, opens), true)), c.world.nextTask, file, content)
  {
    var w, s, command := c.world, c.session, DownloadStart(path, opens);
    var id, h := w.nextTask, w.files.nextHandle;
    var o := Dispatch(cfg, w, s, command);
    DispatchGood(cfg, w, s, command);
    hide Unsafe, Sound, Inv, Good;
    var file := w.files.names[path];
    var content := Content(w.files, file);
    var log := c.log + [Logged(command, o.reply, o.effects)];
    assert o.session.authenticated && s.authenticated && o.reply.size == |content| % UINT32_SIZE;
    assert o.session.tasks[0] == Task(id, Option.Some(h), |content| % UINT32_SIZE, 0, Download, Running);
    assert Content(o.world.files, file) == content && o.world.files.open[h] == Handle(file, Reading);
    GoodInv(cfg, w, s, o.world, o.session);
    hide Dispatch, Content;
    NoneServed(log, id);
  }

  /**
   Below 4 GB: the bytes received are the file up to the count exactly when no reply is too long, and the whole file
   once there were as many replies as chunks.
   */
  ghost predicate Adds(replies: seq<Reply>, content: seq<byte>, bs: nat) {
    var n := |content|;
    && (n < UINT32_SIZE && replies != [] ==>
          && Mark(n, bs, |replies|) <= n
          && (Received(replies) == content[..Mark(n, bs, |replies|)] <==> Fits(content, bs)))
    && (n < UINT32_SIZE && bs > 0 && |replies| >= ChunkCount(n, bs) && Fits(content, bs) ==>
          Received(replies) == content)
  }

  /**
   A whole download. After any history (`c0`), a download starts; then come data requests, pauses, resumes and any
   other requests in any order, while the file stays as it is. The replies are the chunks of the file in order, and
   below 4 GB they add up to it.
   */
  lemma DownloadDelivers(cfg: Limits, w: World, before: seq<Event>, c0: Connection, path: string, opens: bool,
                         c1: Connection, during: seq<Event>, c2: Connection, file: nat, content: seq<byte>)
    requires WellFormed(w.files) && Fair(cfg, Connect(w), before)
    requires c0 == Run(cfg, Connect(w), before) && c0.live
    requires Dispatch(cfg, c0.world, c0.session, DownloadStart(path, opens)).reply.Started?
    requires file == Target(c0.world.files, path) && content == Content(c0.world.files, file)
    requires c1 == Step(cfg, c0, Frame(DownloadStart(path, opens), true))
    requires Unchanged(cfg, c1, during, c0.world.nextTask, file)
    requires c2 == Run(cfg, c1, during)
    ensures var id, n, bs := c0.world.nextTask, |content|, cfg.bufferSize;
      var replies := Served(c2.log, id);
      && Dispatch(cfg, c0.world, c0.session, DownloadStart(path, opens)).reply == Started(id, n % UINT32_SIZE)
      && Listed(c2.session.tasks, id) && Get(c2.session.tasks, id).transferred == Mark(n, bs, |replies|)
      && InOrder(replies, id, content, bs)
      && Adds(replies, content, bs)
  {
    var id, n, bs := c0.world.nextTask, |content|, cfg.bufferSize;
    var replies := Served(c2.log, id);
    DownloadRuns(cfg, w, before, c0, path, opens, c1, during, c2);
    hide *;
    DownloadAdds(replies, id, content, bs);
  }

  lemma DownloadRuns(cfg: Limits, w: World, before: seq<Event>, c0: Connection, path: string, opens: bool,
                     c1: Connection, during: seq<Event>, c2: Connection)
    requires WellFormed(w.files) && Fair(cfg, Connect(w), before)
    requires c0 == Run(cfg, Connect(w), before) && c0.live
    requires Dispatch(cfg, c0.world, c0.session, DownloadStart(path, opens)).reply.Started?
    requires c1 == Step(cfg, c0, Frame(DownloadStart(path, opens), true))
    requires Unchanged(cfg, c1, during, c0.world.nextTask, Target(c0.world.files, path))
    requires c2 == Run(cfg, c1, during)
    ensures var id, file := c0.world.nextTask, Target(c0.world.files, path);
      var content := Content(c0.world.files, file);
      && Dispatch(cfg, c0.world, c0.session, DownloadStart(path, opens)).reply == Started(id, |content| % UINT32_SIZE)
      && Listed(c2.session.tasks, id)
      && Get(c2.session.tasks, id).transferred == Mark(|content|, cfg.bufferSize, |Served(c2.log, id)|)
      && InOrder(Served(c2.log, id), id, content, cfg.bufferSize)
  {
    ConnectSound(cfg, w);
    RunSound(cfg, Connect(w), before);
    RunGivesOut(cfg, Connect(w), before);
    DownloadBegins(cfg, c0, path, opens);
    var file := Target(c0.world.files, path);
    assert file == c0.world.files.names[path];
    DownloadKeeps(cfg, c1, during, c0.world.nextTask, file, Content(c0.world.files, file));
    assert Downloading(cfg, c2, c0.world.nextTask, file, Content(c0.world.files, file));
    hide Sound, Unchanged, Fair, Run, Step, Dispatch, Inv, InOrder, Mark, Served, Get, Listed, IdsGivenOut, Content;
  }

  lemma DownloadAdds(replies: seq<Reply>, id: nat, content: seq<byte>, bs: nat)
    requires InOrder(replies, id, content, bs)
    ensures Adds(replies, content, bs)
  {
    var n := |content|;
    hide InOrder, Mark, Length, Received, Fits, Chunk, ChunkCount;
    if n < UINT32_SIZE && replies != [] {
      ReceivedExactly(replies, id, content, bs);
    }
    if n < UINT32_SIZE && bs > 0 && |replies| >= ChunkCount(n, bs) && Fits(content, bs) {
      AllReceived(replies, id, content, bs);
      NonEmptyChunks(n, bs, |replies|);
    }
  }
}
