/** What a whole run leaves in an uploaded file. */
module UploadRun {
  import opened Bytes
  import opened Storage
  import opened SessionModel
  import opened SessionSafety
  import opened SessionHistory
  import opened TaskProgress
  import opened Pieces
  import Codec = Frame

  predicate IsAccepted(e: Logged, id: nat) {
    e.command.UploadData? && e.command.id == id && e.reply.Progress?
  }

  /** The pieces of task `id` that were answered with success, in order. */
  function Accepted(log: seq<Logged>, id: nat): seq<Piece> {
    if log == [] then []
    else
      var e := log[|log| - 1];
      Accepted(log[..|log| - 1], id) + (if IsAccepted(e, id) then [Piece(e.command.offset, e.command.data)] else [])
  }

  /** Upload data for task `id` of which the log says that some bytes were written. */
  predicate IsApplied(e: Logged, id: nat) {
    && e.command.UploadData? && e.command.id == id
    && |e.effects| == 1 && e.effects[0].Wrote? && e.effects[0].count <= |e.command.data|
  }

  /** What was written for task `id`, in order: accepted pieces whole, refused ones as far as the device took them. */
  function Applied(log: seq<Logged>, id: nat): seq<Piece> {
    if log == [] then []
    else
      var e := log[|log| - 1];
      Applied(log[..|log| - 1], id)
      + (if IsApplied(e, id) then [Piece(e.command.offset, e.command.data[..e.effects[0].count])] else [])
  }

  /** Everything the client sent as data of task `id` since entry `from` of the log, accepted or not. */
  function Offered(log: seq<Logged>, id: nat, from: nat): seq<Piece> {
    if |log| <= from then []
    else
      var e := log[|log| - 1];
      Offered(log[..|log| - 1], id, from)
      + (if e.command.UploadData? && e.command.id == id then [Piece(e.command.offset, e.command.data)] else [])
  }

  /** Each accepted piece that has any data was written whole. */
  ghost predicate AcceptedApplied(log: seq<Logged>, id: nat) {
    forall p | p in Accepted(log, id) && p.data != [] :: p in Applied(log, id)
  }

  /** Task `id` uploads to `file`, and no other upload of this session does. */
  ghost predicate SoleWriter(w: World, tasks: seq<Task>, id: nat, file: nat) {
    && Listed(tasks, id)
    && Get(tasks, id).direction.Upload?
    && forall t | t in tasks && t.direction.Upload? && t.file.Some? && t.file.value in w.files.open ::
      w.files.open[t.file.value].file == file <==> t.id == id
  }

  /**
   The file is what the applied pieces make of an empty one, and the task has counted the bytes of the accepted ones.
   */
  ghost predicate Uploading(cfg: Limits, c: Connection, id: nat, file: nat) {
    && Inv(cfg, c.world, c.session)
    && c.live && file < c.world.files.nextFile
    && SoleWriter(c.world, c.session.tasks, id, file)
    && Content(c.world.files, file) == Written([], Applied(c.log, id))
    && AcceptedApplied(c.log, id)
    && Get(c.session.tasks, id).transferred == Total(Accepted(c.log, id)) % UINT32_SIZE
  }

  /**
   Nothing but task `id` touches the file in this event: the others leave it alone and no command opens it for writing
   again. Nor does the event end the task.
   */
  ghost predicate Harmless(cfg: Limits, c: Connection, e: Event, id: nat, file: nat) {
    match e
    case Others(w) =>
      Rely(c.world, w, Handles(c.session.tasks)) && Content(w.files, file) == Content(c.world.files, file)
    case NoFrame => false
    case Frame(command, running) =>
      && running
      && !Aims(cfg, c.world, c.session, command, file)
      && !command.Logout? && command != End(id)
  }

  ghost predicate Undisturbed(cfg: Limits, c: Connection, events: seq<Event>, id: nat, file: nat)
    decreases |events|
  {
    events != [] ==>
      Harmless(cfg, c, events[0], id, file) && Undisturbed(cfg, Step(cfg, c, events[0]), events[1..], id, file)
  }

  // --- One command ---

  /** A piece is accepted exactly when its task is listed and running and the device takes all of it. */
  lemma AcceptedExactly(cfg: Limits, w: World, s: Session, id: nat, offset: nat, data: seq<byte>, room: nat)
    requires Inv(cfg, w, s) && Listed(s.tasks, id) && Get(s.tasks, id).direction.Upload?
    ensures var o := Dispatch(cfg, w, s, UploadData(id, offset, data, room));
      && (o.reply.Progress? <==> Get(s.tasks, id).status.Running? && |data| <= room)
      && (Get(s.tasks, id).status.Paused? <==> o == Outcome(w, s, Refused(TransferAborted), []))
  {
    var t := Get(s.tasks, id);
    assert TaskOk(w.files.open, t);
    hide ListOk, Position, Put, WriteAt;
  }

  lemma WriteContent(fs: Files, h: nat, offset: nat, data: seq<byte>, room: nat)
    requires h in fs.open && fs.open[h].mode.Writing?
    ensures var n := Writable(fs, h, data, room);
      && n == (if |data| <= room then |data| else room)
      && Content(Write(fs, h, offset, data, room), fs.open[h].file)
        == WriteAt(Content(fs, fs.open[h].file), offset, data[..n])
  {
    assert data[..0] == [];
    hide WriteAt;
    NothingToWrite(Content(fs, fs.open[h].file), offset);
  }

  lemma NothingToWrite(content: seq<byte>, offset: nat)
    ensures WriteAt(content, offset, []) == content
  {
  }

  /** What the log records of a data request and what happens to the file are the same bytes. */
  lemma PieceWritten(cfg: Limits, w: World, s: Session, c: Command, file: nat)
    requires Inv(cfg, w, s) && c.UploadData? && Listed(s.tasks, c.id)
    requires Get(s.tasks, c.id).direction.Upload?
    requires w.files.open[Get(s.tasks, c.id).file.value].file == file
    ensures var o := Dispatch(cfg, w, s, c);
      var e := Logged(c, o.reply, o.effects);
      && Content(o.world.files, file)
        == (if IsApplied(e, c.id) then WriteAt(Content(w.files, file), c.offset, c.data[..o.effects[0].count])
            else Content(w.files, file))
      && (o.reply.Progress? && c.data != [] ==> IsApplied(e, c.id) && o.effects[0].count == |c.data|)
      && (o.reply == Refused(ServerInternal) && IsApplied(e, c.id) ==> o.effects[0].count == c.room < |c.data|)
  {
    var t := Get(s.tasks, c.id);
    assert TaskOk(w.files.open, t) && s.authenticated;
    hide Inv;
    WriteContent(w.files, t.file.value, c.offset, c.data, c.room);
    NothingToWrite(Content(w.files, file), c.offset);
    assert c.data[..0] == [];
    hide Position, Put, Listed, Get, WriteAt, Write, Writable, Content;
  }

  lemma AcceptedSnoc(log: seq<Logged>, e: Logged, id: nat)
    ensures Accepted(log + [e], id)
      == Accepted(log, id) + (if IsAccepted(e, id) then [Piece(e.command.offset, e.command.data)] else [])
  {
    assert (log + [e])[..|log|] == log;
  }

  lemma AppliedSnoc(log: seq<Logged>, e: Logged, id: nat)
    ensures Applied(log + [e], id) == Applied(log, id)
      + (if IsApplied(e, id) then [Piece(e.command.offset, e.command.data[..e.effects[0].count])] else [])
    ensures var sent := e.command.UploadData? && e.command.id == id;
      var piece := if sent then [Piece(e.command.offset, e.command.data)] else [];
      forall from: nat | from <= |log| :: Offered(log + [e], id, from) == Offered(log, id, from) + piece
  {
    assert (log + [e])[..|log|] == log;
  }

  lemma SnocWritten(pieces: seq<Piece>, p: Piece)
    ensures Written([], pieces + [p]) == WriteAt(Written([], pieces), p.offset, p.data)
    ensures Total(pieces + [p]) == Total(pieces) + |p.data|
  {
    assert (pieces + [p])[..|pieces|] == pieces;
  }

  lemma SoleWriterKept(cfg: Limits, w: World, s: Session, c: Command, id: nat, file: nat)
    requires Inv(cfg, w, s) && SoleWriter(w, s.tasks, id, file) && !Aims(cfg, w, s, c, file)
    requires !c.Logout? && c != End(id)
    ensures var o := Dispatch(cfg, w, s, c); SoleWriter(o.world, o.session.tasks, id, file)
  {
    var o := Dispatch(cfg, w, s, c);
    TaskAfter(cfg, w, s, c, id);
    DispatchGood(cfg, w, s, c);
    assert TasksOk(w.files.open, s.tasks) && id < w.nextTask && WellFormed(w.files);
    hide Dispatch, Good, ListOk, Position, Aims;
    forall t | t in o.session.tasks && t.direction.Upload? && t.file.Some? && t.file.value in o.world.files.open
      ensures o.world.files.open[t.file.value].file == file <==> t.id == id
    {
      WritersFrom(cfg, w, s, c, t);
      if u :| u in s.tasks && u.direction.Upload? && u.file == t.file && u.id == t.id {
        assert TaskOk(w.files.open, u);
        HandlesKept(cfg, w, s, c, t.file.value);
      }
    }
  }

  /** Upload data of the task itself: written, refused, or written in part. */
  lemma OwnPieceContent(cfg: Limits, c: Connection, command: Command, id: nat, file: nat)
    requires Uploading(cfg, c, id, file) && command.UploadData? && command.id == id
    ensures var c' := Process(cfg, c, command);
      Content(c'.world.files, file) == Written([], Applied(c'.log, id)) && AcceptedApplied(c'.log, id)
  {
    var w, s := c.world, c.session;
    var o := Dispatch(cfg, w, s, command);
    var e := Logged(command, o.reply, o.effects);
    assert TaskOk(w.files.open, Get(s.tasks, id)) && w.files.open[Get(s.tasks, id).file.value].file == file;
    PieceWritten(cfg, w, s, command, file);
    hide Dispatch, Inv, SoleWriter, Listed, Get, Content;
    AppliedSnoc(c.log, e, id);
    if IsApplied(e, id) {
      SnocWritten(Applied(c.log, id), Piece(command.offset, command.data[..o.effects[0].count]));
    } else {
      assert Applied(c.log, id) + [] == Applied(c.log, id);
    }
    hide Accepted, Applied, Written, Total, WriteAt;
    StillApplied(c.log, e, id);
  }

  lemma StillApplied(log: seq<Logged>, e: Logged, id: nat)
    requires AcceptedApplied(log, id)
    requires IsAccepted(e, id) && e.command.data != [] ==> IsApplied(e, id) && e.effects[0].count == |e.command.data|
    ensures AcceptedApplied(log + [e], id)
  {
    AcceptedSnoc(log, e, id);
    AppliedSnoc(log, e, id);
    hide Accepted, Applied;
    var now := Applied(log + [e], id);
    assert forall p | p in Applied(log, id) :: p in now;
    if IsAccepted(e, id) && e.command.data != [] {
      assert e.command.data[..|e.command.data|] == e.command.data;
      assert now[|Applied(log, id)|] == Piece(e.command.offset, e.command.data);
    }
  }

  lemma CountSnoc(log: seq<Logged>, e: Logged, id: nat)
    ensures Total(Accepted(log + [e], id))
      == Total(Accepted(log, id)) + (if IsAccepted(e, id) then |e.command.data| else 0)
  {
    AcceptedSnoc(log, e, id);
    if IsAccepted(e, id) {
      SnocWritten(Accepted(log, id), Piece(e.command.offset, e.command.data));
    } else {
      assert Accepted(log, id) + [] == Accepted(log, id);
    }
  }

  lemma OwnPieceCount(cfg: Limits, c: Connection, command: Command, id: nat, file: nat)
    requires Uploading(cfg, c, id, file) && command.UploadData? && command.id == id
    ensures var c' := Process(cfg, c, command);
      && Listed(c'.session.tasks, id)
      && Get(c'.session.tasks, id).transferred == Total(Accepted(c'.log, id)) % UINT32_SIZE
  {
    var o := Dispatch(cfg, c.world, c.session, command);
    TaskAfter(cfg, c.world, c.session, command, id);
    CountAfter(c.log, Logged(command, o.reply, o.effects), id, Get(c.session.tasks, id));
    hide Dispatch, Inv, SoleWriter, Listed, Get, Content, Uploading, Accepted, Applied, Total, Advanced, UINT32_SIZE;
  }

  /** The task counts the bytes of accepted pieces and of no others. */
  lemma CountAfter(log: seq<Logged>, e: Logged, id: nat, t: Task)
    requires e.command.UploadData? && e.command.id == id == t.id
    requires t.transferred == Total(Accepted(log, id)) % UINT32_SIZE
    ensures Advanced(t, e.command, e.reply) == Total(Accepted(log + [e], id)) % UINT32_SIZE
  {
    hide *;
    CountSnoc(log, e, id);
    CountAdds(Total(Accepted(log, id)), |e.command.data|);
    AdvancedIs(e, id, t);
  }

  lemma AdvancedIs(e: Logged, id: nat, t: Task)
    requires e.command.UploadData? && e.command.id == id == t.id
    ensures Advanced(t, e.command, e.reply)
      == if IsAccepted(e, id) then (t.transferred + |e.command.data|) % UINT32_SIZE else t.transferred
  {
  }

  lemma CountAdds(a: nat, n: nat)
    ensures (a % UINT32_SIZE + n) % UINT32_SIZE == (a + n) % UINT32_SIZE
  {
  }

  /** Any other harmless command. */
  lemma OtherCommand(cfg: Limits, c: Connection, command: Command, id: nat, file: nat)
    requires Uploading(cfg, c, id, file) && Harmless(cfg, c, Frame(command, true), id, file)
    requires !(command.UploadData? && command.id == id)
    ensures var c' := Process(cfg, c, command);
      && Content(c'.world.files, file) == Written([], Applied(c'.log, id))
      && AcceptedApplied(c'.log, id)
      && Listed(c'.session.tasks, id)
      && Get(c'.session.tasks, id).transferred == Total(Accepted(c'.log, id)) % UINT32_SIZE
  {
    var w, s := c.world, c.session;
    var t := Get(s.tasks, id);
    var o := Dispatch(cfg, w, s, command);
    AcceptedSnoc(c.log, Logged(command, o.reply, o.effects), id);
    AppliedSnoc(c.log, Logged(command, o.reply, o.effects), id);
    assert Accepted(c.log, id) + [] == Accepted(c.log, id) && Applied(c.log, id) + [] == Applied(c.log, id);
    TaskAfter(cfg, w, s, command, id);
    NothingRead(cfg, w, s, command, id);
    OthersFile(w, s, command, id, file);
    ContentKept(cfg, w, s, command, file);
    hide Dispatch, Inv, SoleWriter, Accepted, Applied, Written, Total, Listed, Get, Content, Aims;
  }

  lemma OthersFile(w: World, s: Session, c: Command, id: nat, file: nat)
    requires c.UploadData? ==> c.id != id
    requires TasksOk(w.files.open, s.tasks) && SoleWriter(w, s.tasks, id, file)
    ensures c.UploadData? && Listed(s.tasks, c.id) ==> !WritesTo(w, Get(s.tasks, c.id), file)
  {
    if c.UploadData? && Listed(s.tasks, c.id) {
      assert TaskOk(w.files.open, Get(s.tasks, c.id));
    }
  }

  /** A download request on an upload task reads nothing and moves nothing. */
  lemma NothingRead(cfg: Limits, w: World, s: Session, c: Command, id: nat)
    requires Inv(cfg, w, s) && Listed(s.tasks, id) && Get(s.tasks, id).direction.Upload?
    requires Get(s.tasks, id).transferred < UINT32_SIZE && !(c.UploadData? && c.id == id)
    ensures Advanced(Get(s.tasks, id), c, Dispatch(cfg, w, s, c).reply) == Get(s.tasks, id).transferred
  {
    assert TaskOk(w.files.open, Get(s.tasks, id));
    if c.DownloadData? && c.id == id {
      hide Inv, Position, Put;
    } else {
      hide Dispatch, Inv, Position;
    }
  }

  lemma UploadStep(cfg: Limits, c: Connection, e: Event, id: nat, file: nat)
    requires Uploading(cfg, c, id, file) && Harmless(cfg, c, e, id, file)
    ensures Uploading(cfg, Step(cfg, c, e), id, file)
  {
    if e.Others? {
      RelyKeeps(cfg, c.world, e.world, c.session);
      SoleWriterRelied(c.world, e.world, c.session.tasks, id, file);
      hide Inv, SoleWriter;
    } else {
      var command := e.command;
      var w, s := c.world, c.session;
      var o := Dispatch(cfg, w, s, command);
      DispatchGood(cfg, w, s, command);
      SoleWriterKept(cfg, w, s, command, id, file);
      if command.UploadData? && command.id == id {
        OwnPieceContent(cfg, c, command, id, file);
        OwnPieceCount(cfg, c, command, id, file);
      } else {
        OtherCommand(cfg, c, command, id, file);
      }
      assert o.session.tasks != [] ==> o.session.authenticated;
      assert w.files.nextFile <= o.world.files.nextFile;
      assert Inv(cfg, o.world, o.session);
      hide Dispatch, Inv, SoleWriter, Written, Total, Accepted, Applied, AcceptedApplied, Content, Aims, Good;
    }
  }

  lemma SoleWriterRelied(w: World, w': World, tasks: seq<Task>, id: nat, file: nat)
    requires SoleWriter(w, tasks, id, file) && TasksOk(w.files.open, tasks) && Rely(w, w', Handles(tasks))
    ensures SoleWriter(w', tasks, id, file)
  {
    forall t | t in tasks && t.direction.Upload? && t.file.Some? && t.file.value in w'.files.open
      ensures w'.files.open[t.file.value].file == file <==> t.id == id
    {
      assert TaskOk(w.files.open, t);
      assert t.file.value in Handles(tasks);
    }
  }

  // --- Whole uploads ---

  lemma {:induction false} UploadKeeps(cfg: Limits, c: Connection, events: seq<Event>, id: nat, file: nat)
    requires Uploading(cfg, c, id, file) && Undisturbed(cfg, c, events, id, file)
    ensures Uploading(cfg, Run(cfg, c, events), id, file)
    decreases |events|
  {
    if events != [] {
      UploadStep(cfg, c, events[0], id, file);
      UploadKeeps(cfg, Step(cfg, c, events[0]), events[1..], id, file);
    }
  }

  // --- From start to end ---

  lemma {:induction false} NoneAccepted(log: seq<Logged>, id: nat)
    requires forall i | 0 <= i < |log| :: !IsAccepted(log[i], id) && !IsApplied(log[i], id)
    ensures Accepted(log, id) == [] && Applied(log, id) == []
  {
    if log != [] { NoneAccepted(log[..|log| - 1], id); }
  }

  /** Some upload of this session already writes to the file. */
  ghost predicate BeingUploaded(w: World, tasks: seq<Task>, file: nat) {
    exists t :: t in tasks && t.direction.Upload? && t.file.Some? && t.file.value in w.files.open
      && w.files.open[t.file.value].file == file
  }

  /** A request of a session that stays logged in is processed and the loop goes on. */
  lemma Processes(cfg: Limits, c: Connection, command: Command)
    requires c.live && Dispatch(cfg, c.world, c.session, command).session.authenticated
    ensures var o := Dispatch(cfg, c.world, c.session, command);
      var c' := Step(cfg, c, Frame(command, true));
      c'.log == c.log + [Logged(command, o.reply, o.effects)]
      && c'.world == o.world && c'.session == o.session && c'.live
  {
    hide Dispatch, Destroy;
  }

  lemma NewTask(cfg: Limits, c: Connection, path: string, size: nat, opens: bool)
    requires c.live && IdsGivenOut(c)
    requires Dispatch(cfg, c.world, c.session, UploadStart(path, size, opens)).reply.Started?
    ensures var c1 := Step(cfg, c, Frame(UploadStart(path, size, opens), true));
      && Accepted(c1.log, c.world.nextTask) == [] && Applied(c1.log, c.world.nextTask) == []
      && Listed(c1.session.tasks, c.world.nextTask) && Get(c1.session.tasks, c.world.nextTask).status.Running?
      && Get(c1.session.tasks, c.world.nextTask).transferred == 0
  {
    var command, id := UploadStart(path, size, opens), c.world.nextTask;
    var o := Dispatch(cfg, c.world, c.session, command);
    var log := c.log + [Logged(command, o.reply, o.effects)];
    hide Unsafe, OpenWrite, Accepted;
    assert o.session.authenticated && c.session.authenticated;
    assert o.session.tasks[0].id == id && o.session.tasks[0].status.Running? && o.session.tasks[0].transferred == 0;
    assert Listed(o.session.tasks, id) && Get(o.session.tasks, id) == o.session.tasks[0];
    hide Dispatch, Listed, Get, Position;
    NoneAccepted(log, id);
  }

  lemma UploadBegins(cfg: Limits, c: Connection, path: string, size: nat, opens: bool)
    requires Sound(cfg, c) && c.live && IdsGivenOut(c)
    requires Dispatch(cfg, c.world, c.session, UploadStart(path, size, opens)).reply.Started?
    requires !BeingUploaded(c.world, c.session.tasks, Target(c.world.files, path))
    ensures var c' := Step(cfg, c, Frame(UploadStart(path, size, opens), true));
      Uploading(cfg, c', c.world.nextTask, Target(c.world.files, path))
  {
    var w, s, command := c.world, c.session, UploadStart(path, size, opens);
    var o := Dispatch(cfg, w, s, command);
    DispatchGood(cfg, w, s, command);
    GoodInv(cfg, w, s, o.world, o.session);
    BeginsSole(cfg, w, s, path, size, opens);
    StartedFile(cfg, w, s, path, size, opens);
    NewTask(cfg, c, path, size, opens);
    Processes(cfg, c, command);
    hide Dispatch, Step, Sound, Inv, SoleWriter, BeingUploaded, Content, Good;
    hide IdsGivenOut, Accepted, Applied, Get, Listed;
  }

  lemma StartedFile(cfg: Limits, w: World, s: Session, path: string, size: nat, opens: bool)
    requires Dispatch(cfg, w, s, UploadStart(path, size, opens)).reply.Started?
    ensures var o, file := Dispatch(cfg, w, s, UploadStart(path, size, opens)), Target(w.files, path);
      && o.session.authenticated && Content(o.world.files, file) == []
      && (WellFormed(w.files) ==> file < o.world.files.nextFile)
  {
    hide Unsafe;
  }

  lemma BeginsSole(cfg: Limits, w: World, s: Session, path: string, size: nat, opens: bool)
    requires Inv(cfg, w, s) && Dispatch(cfg, w, s, UploadStart(path, size, opens)).reply.Started?
    requires !BeingUploaded(w, s.tasks, Target(w.files, path))
    ensures var o := Dispatch(cfg, w, s, UploadStart(path, size, opens));
      SoleWriter(o.world, o.session.tasks, w.nextTask, Target(w.files, path))
  {
    hide Unsafe;
    var o := Dispatch(cfg, w, s, UploadStart(path, size, opens));
    var file, h := Target(w.files, path), w.files.nextHandle;
    assert o.world.files.open == w.files.open[h := Handle(file, Writing)];
    forall t | t in s.tasks
      ensures t.file.Some? && t.file.value in w.files.open && t.file.value != h && t.id != w.nextTask
    {
      assert TaskOk(w.files.open, t);
    }
    assert forall t | t in o.session.tasks :: t == o.session.tasks[0] || t in s.tasks;
    hide Inv, Dispatch, WellFormed;
  }

  // --- The name of the file ---

  /** Done, the command takes this name away or gives it to another file. */
  predicate TakesName(fs: Files, c: Command, path: string) {
    match c
    case Delete(p, _) => p == path
    case Rename(from, to, _) =>
      if to == path then from in fs.names && path in fs.names && fs.names[from] != fs.names[path] else from == path
    case _ => false
  }

  /** Exactly when a name still stands for its file after a command. */
  lemma NameAfter(cfg: Limits, w: World, s: Session, c: Command, path: string)
    requires path in w.files.names
    ensures var o := Dispatch(cfg, w, s, c);
      (path in o.world.files.names && o.world.files.names[path] == w.files.names[path])
      <==> !(o.reply == Done && TakesName(w.files, c, path))
  {
    if c.Logout? { CloseAllOpens(w.files, s.tasks); }
    hide Position, Put, Without, Unsafe, WriteAt, Read, Writable, WriteGate, Content, Listed, Get, CloseAll;
    hide ClosingAll, UINT32_SIZE;
  }

  /** The event leaves the name to its file. */
  ghost predicate LeavesName(cfg: Limits, c: Connection, e: Event, path: string) {
    match e
    case Others(w) =>
      path in c.world.files.names ==> path in w.files.names && w.files.names[path] == c.world.files.names[path]
    case NoFrame => true
    case Frame(command, _) =>
      !(Dispatch(cfg, c.world, c.session, command).reply == Done && TakesName(c.world.files, command, path))
  }

  ghost predicate NameStays(cfg: Limits, c: Connection, events: seq<Event>, path: string)
    decreases |events|
  {
    events != [] ==> LeavesName(cfg, c, events[0], path) && NameStays(cfg, Step(cfg, c, events[0]), events[1..], path)
  }

  ghost predicate Names(w: World, path: string, file: nat) {
    path in w.files.names && w.files.names[path] == file
  }

  lemma StepName(cfg: Limits, c: Connection, e: Event, path: string, file: nat)
    requires Names(c.world, path, file) && LeavesName(cfg, c, e, path)
    ensures Names(Step(cfg, c, e).world, path, file)
  {
    DestroyName(c, path, file);
    if e.Frame? {
      NameAfter(cfg, c.world, c.session, e.command, path);
      DestroyName(Process(cfg, c, e.command), path, file);
    }
    hide Dispatch, Destroy, TakesName;
  }

  lemma DestroyName(c: Connection, path: string, file: nat)
    ensures Names(c.world, path, file) ==> Names(Destroy(c).world, path, file)
  {
    CloseAllOpens(c.world.files, c.session.tasks);
  }

  lemma {:induction false} RunName(cfg: Limits, c: Connection, events: seq<Event>, path: string, file: nat)
    requires Names(c.world, path, file) && NameStays(cfg, c, events, path)
    ensures Names(Run(cfg, c, events).world, path, file)
    decreases |events|
  {
    hide Step, Names, LeavesName;
    if events != [] {
      StepName(cfg, c, events[0], path, file);
      RunName(cfg, Step(cfg, c, events[0]), events[1..], path, file);
    }
  }

  /** From the start of an upload to its end the path names the file, if no event in between takes the name away. */
  lemma UploadNamed(cfg: Limits, c0: Connection, path: string, size: nat, opens: bool,
                    c1: Connection, during: seq<Event>, c2: Connection, id: nat)
    requires c0.live && Dispatch(cfg, c0.world, c0.session, UploadStart(path, size, opens)).reply.Started?
    requires c1 == Step(cfg, c0, Frame(UploadStart(path, size, opens), true)) && c2 == Run(cfg, c1, during)
    requires NameStays(cfg, c1, during, path)
    ensures Names(Dispatch(cfg, c2.world, c2.session, End(id)).world, path, Target(c0.world.files, path))
  {
    var file := Target(c0.world.files, path);
    StartNames(cfg, c0, path, size, opens);
    RunName(cfg, c1, during, path, file);
    NameAfter(cfg, c2.world, c2.session, End(id), path);
    hide Dispatch, Step, Run, NameStays;
  }

  lemma StartNames(cfg: Limits, c: Connection, path: string, size: nat, opens: bool)
    requires c.live && Dispatch(cfg, c.world, c.session, UploadStart(path, size, opens)).reply.Started?
    ensures Names(Step(cfg, c, Frame(UploadStart(path, size, opens), true)).world, path, Target(c.world.files, path))
  {
    hide Unsafe;
  }

  // --- What the file is then ---

  /** What reached the file was cut from the source when everything the client sent was. */
  lemma {:induction false} AppliedCut(log: seq<Logged>, id: nat, from: nat, source: seq<byte>)
    requires from <= |log| && Applied(log[..from], id) == [] && AllCutFrom(Offered(log, id, from), source)
    ensures AllCutFrom(Applied(log, id), source)
  {
    if |log| == from {
      assert log[..from] == log;
    } else {
      var rest, e := log[..|log| - 1], log[|log| - 1];
      var offered := Offered(log, id, from);
      assert Offered(rest, id, from) == offered[..|Offered(rest, id, from)|];
      assert rest[..from] == log[..from];
      AppliedCut(rest, id, from, source);
      if IsApplied(e, id) {
        assert CutFrom(offered[|offered| - 1], source);
        assert CutFrom(Piece(e.command.offset, e.command.data[..e.effects[0].count]), source);
      }
      hide CutFrom, Offered;
    }
  }

  lemma AcceptedCovers(log: seq<Logged>, id: nat, i: int)
    requires AcceptedApplied(log, id) && Covered(Accepted(log, id), i)
    ensures Covered(Applied(log, id), i)
  {
    var accepted, applied := Accepted(log, id), Applied(log, id);
    hide Accepted, Applied;
    var k :| 0 <= k < |accepted| && In(accepted[k], i);
    assert accepted[k] in applied;
    var j :| 0 <= j < |applied| && applied[j] == accepted[k];
    assert In(applied[j], i);
  }

  /**
   What the end of an upload finds that began before entry `from` of the log. For any data sent: the file is the source
   exactly when the written bytes spell it.
   When all data sent, the refused pieces included, was cut from the source: exactly when its last byte was written and
   every byte that was not is zero. Then it is enough that the accepted pieces cover the source; and when they tile it,
   its length is what the task has counted.
   */
  ghost predicate Delivered(log: seq<Logged>, id: nat, from: nat, content: seq<byte>, count: nat, source: seq<byte>) {
    var applied, accepted := Applied(log, id), Accepted(log, id);
    && content == Written([], applied)
    && count == Total(accepted) % UINT32_SIZE
    && (content == source <==> Spell(applied, source))
    && (AllCutFrom(Offered(log, id, from), source) ==>
          && (content == source <==>
                && (source != [] ==> Covered(applied, |source| - 1))
                && (forall i | 0 <= i < |source| && !Covered(applied, i) :: source[i] == 0))
          && ((forall i | 0 <= i < |source| :: Covered(accepted, i)) ==> content == source))
    && (Tiles(accepted, source) ==> count == |source| % UINT32_SIZE)
  }

  lemma Delivers(log: seq<Logged>, id: nat, from: nat, content: seq<byte>, count: nat, source: seq<byte>)
    requires AcceptedApplied(log, id) && from <= |log| && Applied(log[..from], id) == []
    requires content == Written([], Applied(log, id)) && count == Total(Accepted(log, id)) % UINT32_SIZE
    ensures Delivered(log, id, from, content, count, source)
  {
    WrittenExactly(Applied(log, id), source);
    if Tiles(Accepted(log, id), source) { TilesWritten(Accepted(log, id), source); }
    if AllCutFrom(Offered(log, id, from), source) { CutDelivers(log, id, from, source); }
    hide Applied, Accepted, Offered, Written, Total, Covered, Tiles, AllCutFrom, Spell;
  }

  lemma CutDelivers(log: seq<Logged>, id: nat, from: nat, source: seq<byte>)
    requires AcceptedApplied(log, id) && from <= |log| && Applied(log[..from], id) == []
    requires AllCutFrom(Offered(log, id, from), source)
    ensures var applied := Applied(log, id);
      Written([], applied) == source <==>
        && (source != [] ==> Covered(applied, |source| - 1))
        && (forall i | 0 <= i < |source| && !Covered(applied, i) :: source[i] == 0)
    ensures (forall i | 0 <= i < |source| :: Covered(Accepted(log, id), i)) ==> Written([], Applied(log, id)) == source
  {
    AppliedCut(log, id, from, source);
    hide Applied, Accepted, Offered, Written, Covered, AllCutFrom, AcceptedApplied;
    WrittenIsSource(Applied(log, id), source);
    if forall i | 0 <= i < |source| :: Covered(Accepted(log, id), i) {
      forall i | 0 <= i < |source| ensures Covered(Applied(log, id), i) { AcceptedCovers(log, id, i); }
    }
  }

  /**
   A whole upload. After any history (`c0`), an upload starts; then come data, accepted, refused or written in part,
   pauses, resumes and any other requests in any order (`during`). What the end finds in the file, and reports.
   */
  lemma UploadDelivers(cfg: Limits, w: World, before: seq<Event>, c0: Connection, path: string, size: nat, opens: bool,
                       c1: Connection, during: seq<Event>, c2: Connection, source: seq<byte>)
    requires WellFormed(w.files) && Fair(cfg, Connect(w), before)
    requires c0 == Run(cfg, Connect(w), before) && c0.live
    requires Dispatch(cfg, c0.world, c0.session, UploadStart(path, size, opens)).reply.Started?
    requires !BeingUploaded(c0.world, c0.session.tasks, Target(c0.world.files, path))
    requires c1 == Step(cfg, c0, Frame(UploadStart(path, size, opens), true))
    requires Undisturbed(cfg, c1, during, c0.world.nextTask, Target(c0.world.files, path))
    requires c2 == Run(cfg, c1, during)
    ensures Dispatch(cfg, c0.world, c0.session, UploadStart(path, size, opens)).reply
      == Started(c0.world.nextTask, size)
    ensures var id, o := c0.world.nextTask, Dispatch(cfg, c2.world, c2.session, End(c0.world.nextTask));
      && o.reply.Progress? && o.reply.id == id
      && Delivered(c2.log, id, |c1.log|, Content(o.world.files, Target(c0.world.files, path)),
                   o.reply.transferred, source)
      && (NameStays(cfg, c1, during, path) ==> Names(o.world, path, Target(c0.world.files, path)))
  {
    hide *;
    UploadRuns(cfg, w, before, c0, path, size, opens, c1, during, c2);
    EndDelivers(cfg, c2, c0.world.nextTask, Target(c0.world.files, path), c1.log, source);
    if NameStays(cfg, c1, during, path) {
      UploadNamed(cfg, c0, path, size, opens, c1, during, c2, c0.world.nextTask);
    }
  }

  lemma UploadRuns(cfg: Limits, w: World, before: seq<Event>, c0: Connection, path: string, size: nat, opens: bool,
                   c1: Connection, during: seq<Event>, c2: Connection)
    requires WellFormed(w.files) && Fair(cfg, Connect(w), before)
    requires c0 == Run(cfg, Connect(w), before) && c0.live
    requires Dispatch(cfg, c0.world, c0.session, UploadStart(path, size, opens)).reply.Started?
    requires !BeingUploaded(c0.world, c0.session.tasks, Target(c0.world.files, path))
    requires c1 == Step(cfg, c0, Frame(UploadStart(path, size, opens), true))
    requires Undisturbed(cfg, c1, during, c0.world.nextTask, Target(c0.world.files, path))
    requires c2 == Run(cfg, c1, during)
    ensures Dispatch(cfg, c0.world, c0.session, UploadStart(path, size, opens)).reply
      == Started(c0.world.nextTask, size)
    ensures Uploading(cfg, c2, c0.world.nextTask, Target(c0.world.files, path))
    ensures c1.log <= c2.log && Applied(c1.log, c0.world.nextTask) == []
  {
    assert IdsGivenOut(Connect(w));
    hide *;
    ConnectSound(cfg, w);
    RunSound(cfg, Connect(w), before);
    RunGivesOut(cfg, Connect(w), before);
    UploadBegins(cfg, c0, path, size, opens);
    UploadKeeps(cfg, c1, during, c0.world.nextTask, Target(c0.world.files, path));
    StartReports(cfg, c0.world, c0.session, path, size, opens);
    NothingYet(cfg, c0, c1, path, size, opens);
    LogGrows(cfg, c1, during);
  }

  lemma EndDelivers(cfg: Limits, c: Connection, id: nat, file: nat, before: seq<Logged>, source: seq<byte>)
    requires Uploading(cfg, c, id, file) && before <= c.log && Applied(before, id) == []
    ensures var o := Dispatch(cfg, c.world, c.session, End(id));
      && o.reply.Progress? && o.reply.id == id
      && Delivered(c.log, id, |before|, Content(o.world.files, file), o.reply.transferred, source)
  {
    hide *;
    EndReports(cfg, c, id, file);
    var o := Dispatch(cfg, c.world, c.session, End(id));
    assert c.log[..|before|] == before;
    Delivers(c.log, id, |before|, Content(o.world.files, file), o.reply.transferred, source);
  }

  /** A task id that is only now given out has had nothing accepted or written. */
  lemma NothingYet(cfg: Limits, c0: Connection, c1: Connection, path: string, size: nat, opens: bool)
    requires c0.live && IdsGivenOut(c0)
    requires Dispatch(cfg, c0.world, c0.session, UploadStart(path, size, opens)).reply.Started?
    requires c1 == Step(cfg, c0, Frame(UploadStart(path, size, opens), true))
    ensures Applied(c1.log, c0.world.nextTask) == []
  {
    NewTask(cfg, c0, path, size, opens);
    hide *;
  }

  lemma StartReports(cfg: Limits, w: World, s: Session, path: string, size: nat, opens: bool)
    requires Dispatch(cfg, w, s, UploadStart(path, size, opens)).reply.Started?
    ensures Dispatch(cfg, w, s, UploadStart(path, size, opens)).reply == Started(w.nextTask, size)
  {
  }

  lemma EndReports(cfg: Limits, c: Connection, id: nat, file: nat)
    requires Uploading(cfg, c, id, file)
    ensures var o := Dispatch(cfg, c.world, c.session, End(id));
      && o.reply == Progress(id, Total(Accepted(c.log, id)) % UINT32_SIZE)
      && Content(o.world.files, file) == Written([], Applied(c.log, id))
      && AcceptedApplied(c.log, id)
  {
    assert c.session.authenticated;
    hide Inv, Position, Without, SoleWriter, Accepted, Applied, AcceptedApplied, Total, Written;
  }

  // --- Pieces arriving one after the other ---

  function UploadEvents(id: nat, pieces: seq<Piece>): (r: seq<Event>)
    ensures |r| == |pieces|
  {
    if pieces == [] then []
    else
      var p := pieces[0];
      [Frame(UploadData(id, p.offset, p.data, |p.data|), true)] + UploadEvents(id, pieces[1..])
  }

  ghost predicate Ready(cfg: Limits, c: Connection, id: nat, file: nat) {
    Uploading(cfg, c, id, file) && Get(c.session.tasks, id).status.Running?
  }

  /** One data request of the task: what it adds to the log, with task and file still in order. */
  lemma DataLogged(cfg: Limits, c: Connection, id: nat, file: nat, p: Piece, room: nat)
    requires Ready(cfg, c, id, file)
    ensures var command := UploadData(id, p.offset, p.data, room);
      var o := Dispatch(cfg, c.world, c.session, command);
      var c' := Step(cfg, c, Frame(command, true));
      c'.log == c.log + [Logged(command, o.reply, o.effects)] && Ready(cfg, c', id, file)
  {
    var command := UploadData(id, p.offset, p.data, room);
    UploadStep(cfg, c, Frame(command, true), id, file);
    TaskAfter(cfg, c.world, c.session, command, id);
    StillIn(cfg, c.world, c.session, command);
    Processes(cfg, c, command);
    hide Dispatch, Step, Inv, Listed, Get, Accepted, Applied, AcceptedApplied, SoleWriter, Written, Total, Content;
  }

  lemma PieceAccepted(cfg: Limits, c: Connection, id: nat, file: nat, p: Piece)
    requires Ready(cfg, c, id, file)
    ensures var c' := Step(cfg, c, Frame(UploadData(id, p.offset, p.data, |p.data|), true));
      && Accepted(c'.log, id) == Accepted(c.log, id) + [p]
      && Content(c'.world.files, file) == WriteAt(Content(c.world.files, file), p.offset, p.data)
      && Ready(cfg, c', id, file)
  {
    var command := UploadData(id, p.offset, p.data, |p.data|);
    var o := Dispatch(cfg, c.world, c.session, command);
    var c' := Step(cfg, c, Frame(command, true));
    DataLogged(cfg, c, id, file, p, |p.data|);
    WholeReply(cfg, c.world, c.session, id, p);
    ReadyIs(cfg, c, id, file);
    ReadyIs(cfg, c', id, file);
    hide *;
    WholeEntry(c.log, Logged(command, o.reply, o.effects), id, p);
  }

  /** A device that runs full in the middle of a piece: refused and not counted, but the bytes that fitted are there. */
  lemma ShortPieceStays(cfg: Limits, c: Connection, id: nat, file: nat, p: Piece, room: nat)
    requires Ready(cfg, c, id, file) && 0 < room < |p.data|
    ensures var o := Dispatch(cfg, c.world, c.session, UploadData(id, p.offset, p.data, room));
      var c' := Step(cfg, c, Frame(UploadData(id, p.offset, p.data, room), true));
      && o.reply == Refused(ServerInternal) && Ready(cfg, c', id, file)
      && Accepted(c'.log, id) == Accepted(c.log, id)
      && Applied(c'.log, id) == Applied(c.log, id) + [Piece(p.offset, p.data[..room])]
      && Content(c'.world.files, file) == WriteAt(Content(c.world.files, file), p.offset, p.data[..room])
  {
    var command := UploadData(id, p.offset, p.data, room);
    var o := Dispatch(cfg, c.world, c.session, command);
    DataLogged(cfg, c, id, file, p, room);
    ShortReply(cfg, c.world, c.session, id, p.offset, p.data, room);
    ReadyIs(cfg, c, id, file);
    ReadyIs(cfg, Step(cfg, c, Frame(command, true)), id, file);
    hide Dispatch, Step, Ready, Inv, Accepted, Applied, AcceptedApplied;
    hide SoleWriter, Written, Total, Content, Listed, Get;
    hide WriteAt;
    AcceptedSnoc(c.log, Logged(command, o.reply, o.effects), id);
    AppliedSnoc(c.log, Logged(command, o.reply, o.effects), id);
    assert Accepted(c.log, id) + [] == Accepted(c.log, id);
    SnocWritten(Applied(c.log, id), Piece(p.offset, p.data[..room]));
  }

  /** A piece for which there is room: accepted, and written whole. */
  lemma WholeReply(cfg: Limits, w: World, s: Session, id: nat, p: Piece)
    requires Inv(cfg, w, s) && Listed(s.tasks, id) && Get(s.tasks, id).direction.Upload?
    requires Get(s.tasks, id).status.Running?
    ensures var command := UploadData(id, p.offset, p.data, |p.data|);
      var o := Dispatch(cfg, w, s, command);
      WrittenWhole(Logged(command, o.reply, o.effects), id, p)
  {
    assert TaskOk(w.files.open, Get(s.tasks, id));
    hide ListOk, Position, Put, WriteAt;
  }

  /** The log entry of an accepted piece. */
  predicate WrittenWhole(e: Logged, id: nat, p: Piece) {
    && IsAccepted(e, id) && Piece(e.command.offset, e.command.data) == p
    && (if p.data == [] then !IsApplied(e, id) else IsApplied(e, id) && e.effects[0].count == |p.data|)
  }

  lemma WholeEntry(log: seq<Logged>, e: Logged, id: nat, p: Piece)
    requires WrittenWhole(e, id, p)
    ensures Accepted(log + [e], id) == Accepted(log, id) + [p]
    ensures Written([], Applied(log + [e], id)) == WriteAt(Written([], Applied(log, id)), p.offset, p.data)
  {
    AcceptedSnoc(log, e, id);
    AppliedSnoc(log, e, id);
    hide Accepted, Applied, Written, WriteAt;
    if p.data == [] {
      NothingToWrite(Written([], Applied(log, id)), p.offset);
      assert Applied(log, id) + [] == Applied(log, id);
    } else {
      assert e.command.data[..|p.data|] == p.data;
      SnocWritten(Applied(log, id), p);
    }
  }

  lemma ShortReply(cfg: Limits, w: World, s: Session, id: nat, offset: nat, data: seq<byte>, room: nat)
    requires Inv(cfg, w, s) && Listed(s.tasks, id) && Get(s.tasks, id).direction.Upload?
    requires Get(s.tasks, id).status.Running? && 0 < room < |data|
    ensures var o := Dispatch(cfg, w, s, UploadData(id, offset, data, room));
      o.reply == Refused(ServerInternal) && |o.effects| == 1 && o.effects[0].Wrote? && o.effects[0].count == room
  {
    assert TaskOk(w.files.open, Get(s.tasks, id));
    hide ListOk, Position, Put, WriteAt;
  }

  lemma StillIn(cfg: Limits, w: World, s: Session, c: Command)
    requires c.UploadData? && s.tasks != [] && Inv(cfg, w, s)
    ensures s.authenticated && Dispatch(cfg, w, s, c).session.authenticated
  {
    hide ListOk, Position, Put, Write, Writable;
  }

  lemma FirstPiece(cfg: Limits, c: Connection, id: nat, pieces: seq<Piece>)
    ensures pieces == [] ==> Run(cfg, c, UploadEvents(id, pieces)) == c
    ensures pieces != [] ==> var p := pieces[0];
      Run(cfg, c, UploadEvents(id, pieces))
      == Run(cfg, Step(cfg, c, Frame(UploadData(id, p.offset, p.data, |p.data|), true)), UploadEvents(id, pieces[1..]))
  {
    hide Step;
    if pieces != [] {
      assert UploadEvents(id, pieces)[1..] == UploadEvents(id, pieces[1..]);
    }
  }

  lemma {:induction false} PiecesAccepted(cfg: Limits, c: Connection, id: nat, file: nat, pieces: seq<Piece>)
    requires Ready(cfg, c, id, file)
    ensures var c' := Run(cfg, c, UploadEvents(id, pieces));
      && Accepted(c'.log, id) == Accepted(c.log, id) + pieces
      && Content(c'.world.files, file) == Written(Content(c.world.files, file), pieces)
      && Ready(cfg, c', id, file)
    decreases |pieces|
  {
    hide *;
    FirstPiece(cfg, c, id, pieces);
    FirstWritten(Content(c.world.files, file), pieces);
    if pieces != [] {
      var p := pieces[0];
      PieceAccepted(cfg, c, id, file, p);
      PiecesAccepted(cfg, Step(cfg, c, Frame(UploadData(id, p.offset, p.data, |p.data|), true)), id, file, pieces[1..]);
      assert [p] + pieces[1..] == pieces;
    }
  }

  lemma LastWritten(content: seq<byte>, pieces: seq<Piece>)
    ensures Written(content, pieces) == if pieces == [] then content
      else var p := pieces[|pieces| - 1]; WriteAt(Written(content, pieces[..|pieces| - 1]), p.offset, p.data)
  {
  }

  lemma {:induction false} FirstWritten(content: seq<byte>, pieces: seq<Piece>)
    ensures Written(content, pieces) == if pieces == [] then content
      else Written(WriteAt(content, pieces[0].offset, pieces[0].data), pieces[1..])
    decreases |pieces|
  {
    hide *;
    LastWritten(content, pieces);
    if pieces != [] {
      var n, next := |pieces| - 1, WriteAt(content, pieces[0].offset, pieces[0].data);
      FirstWritten(content, pieces[..n]);
      LastWritten(next, pieces[1..]);
      if n > 0 { assert pieces[..n][1..] == pieces[1..][..n - 1] && pieces[1..][n - 1] == pieces[n]; }
    }
  }

  /** A new upload task on an empty file, and then the pieces, each of which there is room for. */
  lemma PiecesArrive(cfg: Limits, c: Connection, path: string, size: nat, opens: bool, pieces: seq<Piece>)
    requires Sound(cfg, c) && c.live && IdsGivenOut(c)
    requires Dispatch(cfg, c.world, c.session, UploadStart(path, size, opens)).reply.Started?
    requires !BeingUploaded(c.world, c.session.tasks, Target(c.world.files, path))
    ensures var c1 := Step(cfg, c, Frame(UploadStart(path, size, opens), true));
      var c2 := Run(cfg, c1, UploadEvents(c.world.nextTask, pieces));
      Filled(cfg, c2, c.world.nextTask, Target(c.world.files, path), pieces)
  {
    var id, file := c.world.nextTask, Target(c.world.files, path);
    var c1 := Step(cfg, c, Frame(UploadStart(path, size, opens), true));
    UploadBegins(cfg, c, path, size, opens);
    NewTask(cfg, c, path, size, opens);
    assert Ready(cfg, c1, id, file);
    ReadyIs(cfg, c1, id, file);
    hide *;
    PiecesAccepted(cfg, c1, id, file, pieces);
    NothingWritten(c1, id, file);
    assert [] + pieces == pieces;
  }

  /** The task is ready for more, has accepted just these pieces, and the file is what they make of an empty one. */
  ghost predicate Filled(cfg: Limits, c: Connection, id: nat, file: nat, pieces: seq<Piece>) {
    Ready(cfg, c, id, file) && Accepted(c.log, id) == pieces && Content(c.world.files, file) == Written([], pieces)
  }

  lemma FilledIs(cfg: Limits, c: Connection, id: nat, file: nat, pieces: seq<Piece>)
    requires Filled(cfg, c, id, file, pieces)
    ensures Ready(cfg, c, id, file) && Accepted(c.log, id) == pieces
    ensures Content(c.world.files, file) == Written([], pieces)
  {
    hide Ready;
  }

  lemma NothingWritten(c: Connection, id: nat, file: nat)
    requires Applied(c.log, id) == [] && Content(c.world.files, file) == Written([], Applied(c.log, id))
    ensures Content(c.world.files, file) == []
  {
  }

  /** What the end of such an upload reports and leaves. */
  lemma FilledEnd(cfg: Limits, c: Connection, id: nat, file: nat, pieces: seq<Piece>, source: seq<byte>)
    requires Filled(cfg, c, id, file, pieces)
    ensures var o := Dispatch(cfg, c.world, c.session, End(id));
      && o.reply == Progress(id, Total(pieces) % UINT32_SIZE)
      && Content(o.world.files, file) == Written([], pieces)
      && (Written([], pieces) == source <==> Spell(pieces, source))
      && (Tiles(pieces, source) ==> Written([], pieces) == source && Total(pieces) == |source|)
  {
    ReadyIs(cfg, c, id, file);
    hide *;
    EndReports(cfg, c, id, file);
    WrittenExactly(pieces, source);
    if Tiles(pieces, source) { TilesWritten(pieces, source); }
  }

  // --- The bytes the client sends ---

  /** What the server reads from a frame of upload data, on a device that takes all of it. */
  function DataEvent(frame: seq<byte>): Option<Event> {
    match Codec.ClientDecode(frame)
    case None => None
    case Some(m) =>
      if m.header.cmd != UPLOAD_DATA || |m.payload| < Codec.DATA_HEADER then None
      else
        var (id, p) := DecodeData(m.payload);
        Some(Frame(UploadData(id, p.offset, p.data, |p.data|), true))
  }

  /** The frames are whole, and these are the requests that the server reads from them. */
  ghost predicate Arrive(frames: seq<seq<byte>>, events: seq<Event>) {
    && |frames| == |events|
    && forall k | 0 <= k < |frames| :: Codec.Whole(frames[k]) && DataEvent(frames[k]) == Some(events[k])
  }

  lemma ChunkArrives(frame: seq<byte>, p: Piece, id: nat, k: nat)
    requires IsChunk(frame, p, id, k)
    ensures Codec.Whole(frame) && DataEvent(frame) == Some(Frame(UploadData(id, p.offset, p.data, |p.data|), true))
  {
    hide Codec.ClientDecode, Codec.Whole, DecodeData;
  }

  lemma {:induction false} EventAt(id: nat, pieces: seq<Piece>, k: nat)
    requires k < |pieces|
    ensures UploadEvents(id, pieces)[k]
      == Frame(UploadData(id, pieces[k].offset, pieces[k].data, |pieces[k].data|), true)
    decreases k
  {
    if k > 0 { EventAt(id, pieces[1..], k - 1); }
  }

  /** The frames of the client are the data requests of its pieces. */
  lemma FramesArrive(frames: seq<seq<byte>>, pieces: seq<Piece>, id: nat)
    requires InStep(frames, pieces, id)
    ensures Arrive(frames, UploadEvents(id, pieces))
  {
    hide IsChunk, Codec.Whole, DataEvent;
    forall k | 0 <= k < |frames|
      ensures Codec.Whole(frames[k]) && DataEvent(frames[k]) == Some(UploadEvents(id, pieces)[k])
    {
      ChunkArrives(frames[k], pieces[k], id, k);
      EventAt(id, pieces, k);
    }
  }

  /**
   From the bytes of the client to the file of the server: the frames in step with the pieces, decoded and processed
   at a new upload task, leave what the pieces make of an empty file. That is the source exactly when they spell it,
   and so whenever they tile it.
   */
  lemma ClientFileArrives(cfg: Limits, c: Connection, path: string, size: nat, opens: bool, frames: seq<seq<byte>>,
                          pieces: seq<Piece>, events: seq<Event>, source: seq<byte>)
    requires Sound(cfg, c) && c.live && IdsGivenOut(c)
    requires Dispatch(cfg, c.world, c.session, UploadStart(path, size, opens)).reply.Started?
    requires !BeingUploaded(c.world, c.session.tasks, Target(c.world.files, path))
    requires InStep(frames, pieces, c.world.nextTask)
    ensures Arrive(frames, UploadEvents(c.world.nextTask, pieces))
    ensures Arrive(frames, events) ==>
      var c1 := Step(cfg, c, Frame(UploadStart(path, size, opens), true));
      var c2 := Run(cfg, c1, events);
      var o := Dispatch(cfg, c2.world, c2.session, End(c.world.nextTask));
      var content := Content(o.world.files, Target(c.world.files, path));
      && o.reply == Progress(c.world.nextTask, Total(pieces) % UINT32_SIZE)
      && content == Written([], pieces)
      && (content == source <==> Spell(pieces, source))
      && (Tiles(pieces, source) ==> content == source && Total(pieces) == |source|)
  {
    hide *;
    var id := c.world.nextTask;
    var c1 := Step(cfg, c, Frame(UploadStart(path, size, opens), true));
    FramesArrive(frames, pieces, id);
    if Arrive(frames, events) {
      OneReading(frames, events, UploadEvents(id, pieces));
      PiecesArrive(cfg, c, path, size, opens, pieces);
      FilledEnd(cfg, Run(cfg, c1, events), id, Target(c.world.files, path), pieces, source);
    }
  }

  lemma OneReading(frames: seq<seq<byte>>, events: seq<Event>, others: seq<Event>)
    requires Arrive(frames, events) && Arrive(frames, others)
    ensures events == others
  {
    hide DataEvent, Codec.Whole;
    assert forall k | 0 <= k < |frames| :: Some(events[k]) == Some(others[k]);
  }

  /**
   `uploadFileChunked` against the server, whatever the reads of the local file give: the file that arrives is what the
   pieces make of an empty one, and the file of the client (its size taken through 32 bits) when every read was full.
   */
  method UploadToServer(cfg: Limits, ghost c: Connection, ghost path: string, ghost announced: nat, ghost opens: bool,
                        file: seq<byte>, id: nat, firstSeq: bv32, gives: nat -> nat)
    returns (size: nat, ghost pieces: seq<Piece>, frames: seq<seq<byte>>, ghost events: seq<Event>)
    requires Sound(cfg, c) && c.live && IdsGivenOut(c) && id == c.world.nextTask < UINT32_SIZE
    requires Dispatch(cfg, c.world, c.session, UploadStart(path, announced, opens)).reply.Started?
    requires !BeingUploaded(c.world, c.session.tasks, Target(c.world.files, path))
    ensures size == |file| % UINT32_SIZE && size <= |file|
    ensures InStep(frames, pieces, id) && Arrive(frames, events)
    ensures var c1 := Step(cfg, c, Frame(UploadStart(path, announced, opens), true));
      var c2 := Run(cfg, c1, events);
      var o := Dispatch(cfg, c2.world, c2.session, End(id));
      var content := Content(o.world.files, Target(c.world.files, path));
      && (content == file[..size] <==> Spell(pieces, file[..size]))
      && (FullReads(size, gives, Chunks(size)) ==> content == file[..size] && o.reply == Progress(id, size))
  {
    hide *;
    size, pieces, frames := UploadFileChunked(file, id, firstSeq, gives);
    events := UploadEvents(id, pieces);
    ClientFileArrives(cfg, c, path, announced, opens, frames, pieces, events, file[..size]);
    Fits32(|file|);
  }

  lemma Fits32(n: nat)
    ensures n % UINT32_SIZE % UINT32_SIZE == n % UINT32_SIZE
  {
  }

  /**
   So tiles alone do not make the source. A whole run that shows it: a new upload, the tiles of any source, all
   accepted, and then two more bytes behind its end, of which one fits. The accepted pieces still tile the source, its
   length is what the end reports, and the file is longer.
   */
  lemma TilesAreNotEnough(cfg: Limits, c: Connection, path: string, size: nat, opens: bool, pieces: seq<Piece>,
                          source: seq<byte>)
    requires Sound(cfg, c) && c.live && IdsGivenOut(c)
    requires Dispatch(cfg, c.world, c.session, UploadStart(path, size, opens)).reply.Started?
    requires !BeingUploaded(c.world, c.session.tasks, Target(c.world.files, path))
    requires Tiles(pieces, source)
    ensures var id := c.world.nextTask;
      var c1 := Step(cfg, c, Frame(UploadStart(path, size, opens), true));
      var c2 := Run(cfg, c1, UploadEvents(id, pieces));
      var c3 := Step(cfg, c2, Frame(UploadData(id, |source|, [1, 1], 1), true));
      var o := Dispatch(cfg, c3.world, c3.session, End(id));
      && Tiles(Accepted(c3.log, id), source)
      && o.reply == Progress(id, |source| % UINT32_SIZE)
      && Content(o.world.files, Target(c.world.files, path)) == source + [1]
  {
    hide *;
    var id, file := c.world.nextTask, Target(c.world.files, path);
    var c1 := Step(cfg, c, Frame(UploadStart(path, size, opens), true));
    var c2 := Run(cfg, c1, UploadEvents(id, pieces));
    PiecesArrive(cfg, c, path, size, opens, pieces);
    TilesWritten(pieces, source);
    OneMoreByte(cfg, c2, id, file, pieces, source);
  }

  lemma OneMoreByte(cfg: Limits, c: Connection, id: nat, file: nat, pieces: seq<Piece>, source: seq<byte>)
    requires Filled(cfg, c, id, file, pieces) && Written([], pieces) == source
    ensures var c' := Step(cfg, c, Frame(UploadData(id, |source|, [1, 1], 1), true));
      var o := Dispatch(cfg, c'.world, c'.session, End(id));
      && Accepted(c'.log, id) == pieces && o.reply == Progress(id, Total(pieces) % UINT32_SIZE)
      && Content(o.world.files, file) == source + [1]
  {
    hide *;
    FilledIs(cfg, c, id, file, pieces);
    var p := Piece(|source|, [1, 1]);
    ShortPieceStays(cfg, c, id, file, p, 1);
    OneBehind(source);
    var c' := Step(cfg, c, Frame(UploadData(id, |source|, [1, 1], 1), true));
    ReadyIs(cfg, c', id, file);
    EndReports(cfg, c', id, file);
  }

  lemma OneBehind(source: seq<byte>)
    ensures [1, 1][..1] == [1] && WriteAt(source, |source|, [1]) == source + [1]
  {
  }

  lemma ReadyIs(cfg: Limits, c: Connection, id: nat, file: nat)
    requires Ready(cfg, c, id, file)
    ensures Uploading(cfg, c, id, file) && Content(c.world.files, file) == Written([], Applied(c.log, id))
    ensures Inv(cfg, c.world, c.session) && Listed(c.session.tasks, id) && Get(c.session.tasks, id).direction.Upload?
    ensures Get(c.session.tasks, id).status.Running?
  {
  }
}
