/**
 One client session of server/src/handler.c and session.c on values: what every command does to it and to the files.
 */
module SessionModel {
  import opened Bytes
  import opened Storage
  import opened Config
  import Codec = Frame

  const MAX_EDIT: nat := 65536

  datatype Direction = Upload | Download

  datatype Status = Running | Paused | Completed

  datatype Task = Task(id: nat, file: Option<nat>, fileSize: nat, transferred: nat,
                       direction: Direction, status: Status)

  /** The session's fields; `tasks` is its linked list from the head. */
  datatype Session = Session(authenticated: bool, username: string, perm: Permission, tasks: seq<Task>, taskCount: int)

  /** What all sessions share: the files and the task id counter. */
  datatype World = World(files: Files, nextTask: nat)

  datatype Limits = Limits(users: seq<User>, maxConcurrent: int, bufferSize: nat)

  /**
   A request, with paths already resolved. `succeeds`, `parent` and `opens` are the answers of the operating system,
   `room` is how many bytes the device still takes.
   */
  datatype Command =
    | Login(username: string, passwordMd5: string)
    | Logout
    | Query                  // FILE_LIST, FILE_READ, SYS_INFO, PROC_LIST: read only
    | Heartbeat
    | Unknown
    | Delete(path: string, succeeds: bool)
    | Rename(from: string, to: string, succeeds: bool)
    | Edit(path: string, content: seq<byte>, parent: bool, opens: bool, room: nat)
    | UploadStart(path: string, size: nat, opens: bool)
    | UploadData(id: nat, offset: nat, data: seq<byte>, room: nat)
    | DownloadStart(path: string, opens: bool)
    | DownloadData(id: nat)
    | Pause(id: nat)         // the upload and download variants run the same code
    | Resume(id: nat)
    | End(id: nat)

  datatype Fault =
    | Failed | AuthFailed | PermissionDenied | NotAuthenticated | FileNotFound | FileTooLarge | InvalidPath
    | ResourceBusy | TransferAborted | ServerInternal

  datatype Reply =
    | Refused(fault: Fault)
    | LoggedIn(granted: Permission)
    | Done
    | Started(id: nat, size: nat)
    | Progress(id: nat, transferred: nat)
    | Data(id: nat, offset: nat, bytes: seq<byte>)

  /** What a command does outside the session. */
  datatype Effect =
    | Deleted(path: string)
    | Renamed(from: string, to: string)
    | Edited(path: string)
    | UploadOpened(path: string, handle: nat)
    | DownloadOpened(path: string, handle: nat)
    | Wrote(handle: nat, count: nat)
    | Closed(handle: nat)

  datatype Outcome = Outcome(world: World, session: Session, reply: Reply, effects: seq<Effect>)

  /** `protocol_pack` refuses more than 16 KB, and then nothing is sent. */
  predicate Sent(reply: Reply) {
    reply.Data? ==> Codec.DATA_HEADER + |reply.bytes| <= Codec.MAX_PAYLOAD_SIZE
  }

  predicate Unsafe(path: string) {
    exists i | 0 <= i < |path| - 1 :: path[i] == '.' && path[i + 1] == '.'
  }

  // --- Task list ---

  /** The position of the first task with this id, or the length of the list. */
  function Position(tasks: seq<Task>, id: nat): (k: nat)
    ensures k <= |tasks|
    ensures k < |tasks| ==> tasks[k].id == id
    ensures forall j | 0 <= j < k :: tasks[j].id != id
  {
    if tasks == [] || tasks[0].id == id then 0 else 1 + Position(tasks[1..], id)
  }

  predicate Listed(tasks: seq<Task>, id: nat) {
    Position(tasks, id) < |tasks|
  }

  function Get(tasks: seq<Task>, id: nat): (t: Task)
    requires Listed(tasks, id)
    ensures t.id == id && t in tasks
  {
    tasks[Position(tasks, id)]
  }

  function Put(tasks: seq<Task>, t: Task): seq<Task>
    requires Listed(tasks, t.id)
  {
    tasks[Position(tasks, t.id) := t]
  }

  function Without(tasks: seq<Task>, id: nat): seq<Task> {
    var k := Position(tasks, id);
    if k < |tasks| then tasks[..k] + tasks[k + 1..] else tasks
  }

  function CloseFile(fs: Files, file: Option<nat>): Files {
    if file.Some? then Close(fs, file.value) else fs
  }

  function Closing(file: Option<nat>): seq<Effect> {
    if file.Some? then [Closed(file.value)] else []
  }

  function CloseAll(fs: Files, tasks: seq<Task>): Files
    decreases |tasks|
  {
    if tasks == [] then fs else CloseAll(CloseFile(fs, tasks[0].file), tasks[1..])
  }

  function ClosingAll(tasks: seq<Task>): seq<Effect> {
    if tasks == [] then [] else Closing(tasks[0].file) + ClosingAll(tasks[1..])
  }

  // --- Handlers ---

  function Refuse(w: World, s: Session, fault: Fault): Outcome {
    Outcome(w, s, Refused(fault), [])
  }

  function HandleLogin(cfg: Limits, w: World, s: Session, username: string, passwordMd5: string): Outcome {
    match FirstMatch(cfg.users, username, passwordMd5)
    case None => Refuse(w, s, AuthFailed)
    case Some(p) =>
      Outcome(w, s.(authenticated := true, username := Take(username, FIELD), perm := p), LoggedIn(p), [])
  }

  /** `session_cleanup_tasks` */
  function CleanupTasks(w: World, s: Session): (World, Session) {
    (w.(files := CloseAll(w.files, s.tasks)), s.(tasks := [], taskCount := s.taskCount - |s.tasks|))
  }

  function HandleLogout(w: World, s: Session): Outcome {
    var (w', s') := CleanupTasks(w, s);
    Outcome(w', s'.(authenticated := false, perm := PermNone, username := ""), Done, ClosingAll(s.tasks))
  }

  /** The gate of delete, rename, edit and upload start. */
  function WriteGate(s: Session): Option<Fault> {
    if !s.authenticated then Some(NotAuthenticated) else if s.perm != PermRW then Some(PermissionDenied) else None
  }

  function HandleDelete(w: World, s: Session, path: string, succeeds: bool): Outcome {
    if WriteGate(s).Some? then Refuse(w, s, WriteGate(s).value)
    else if Unsafe(path) then Refuse(w, s, InvalidPath)
    else if path !in w.files.names then Refuse(w, s, FileNotFound)
    else if !succeeds then Refuse(w, s, Failed)
    else Outcome(w.(files := Unlink(w.files, path)), s, Done, [Deleted(path)])
  }

  function HandleRename(w: World, s: Session, from: string, to: string, succeeds: bool): Outcome {
    if WriteGate(s).Some? then Refuse(w, s, WriteGate(s).value)
    else if from == "" then Refuse(w, s, InvalidPath)
    else if Unsafe(from) || Unsafe(to) then Refuse(w, s, InvalidPath)
    else if !succeeds || from !in w.files.names then Refuse(w, s, Failed)
    else Outcome(w.(files := Move(w.files, from, to)), s, Done, [Renamed(from, to)])
  }

  /** Open, write what fits, close: the content is replaced even when the write then falls short. */
  function HandleEdit(w: World, s: Session, path: string, content: seq<byte>, parent: bool,
                      opens: bool, room: nat): Outcome
  {
    if WriteGate(s).Some? then Refuse(w, s, WriteGate(s).value)
    else if Unsafe(path) then Refuse(w, s, InvalidPath)
    else if path !in w.files.names && !parent then Refuse(w, s, InvalidPath)
    else if |content| > MAX_EDIT then Refuse(w, s, FileTooLarge)
    else if !opens then Refuse(w, s, Failed)
    else
      var h := w.files.nextHandle;
      var created := OpenWrite(w.files, path);
      var written := Writable(created, h, content, room);
      var files := Close(Write(created, h, 0, content, room), h);
      Outcome(w.(files := files), s, if written == |content| then Done else Refused(ServerInternal), [Edited(path)])
  }

  /** `session_add_task` */
  function AddTask(w: World, s: Session, direction: Direction, size: nat, handle: nat): (World, Session) {
    (w.(nextTask := w.nextTask + 1),
     s.(tasks := [Task(w.nextTask, Some(handle), size, 0, direction, Running)] + s.tasks, taskCount := s.taskCount + 1))
  }

  function HandleUploadStart(cfg: Limits, w: World, s: Session, path: string, size: nat, opens: bool): Outcome {
    if WriteGate(s).Some? then Refuse(w, s, WriteGate(s).value)
    else if s.taskCount >= cfg.maxConcurrent then Refuse(w, s, ResourceBusy)
    else if Unsafe(path) then Refuse(w, s, InvalidPath)
    else if !opens then Refuse(w, s, Failed)
    else
      var h := w.files.nextHandle;
      var (w', s') := AddTask(w.(files := OpenWrite(w.files, path)), s, Upload, size, h);
      Outcome(w', s', Started(w.nextTask, size), [UploadOpened(path, h)])
  }

  /** Every listed task holds a file, as `SessionSafety` shows, so the test for one is never met. */
  function HandleUploadData(w: World, s: Session, id: nat, offset: nat, data: seq<byte>, room: nat): Outcome {
    if !s.authenticated then Refuse(w, s, NotAuthenticated)
    else if !Listed(s.tasks, id) then Refuse(w, s, Failed)
    else
      var t := Get(s.tasks, id);
      if t.status != Running || t.file.None? then Refuse(w, s, TransferAborted)
      else
        var h := t.file.value;
        var written := Writable(w.files, h, data, room);
        var w' := w.(files := Write(w.files, h, offset, data, room));
        var effects := if written > 0 then [Wrote(h, written)] else [];
        if written != |data| then Outcome(w', s, Refused(ServerInternal), effects)
        else
          var t' := t.(transferred := (t.transferred + written) % UINT32_SIZE);
          Outcome(w', s.(tasks := Put(s.tasks, t')), Progress(id, t'.transferred), effects)
  }

  function HandleDownloadStart(cfg: Limits, w: World, s: Session, path: string, opens: bool): Outcome {
    if !s.authenticated then Refuse(w, s, NotAuthenticated)
    else if s.taskCount >= cfg.maxConcurrent then Refuse(w, s, ResourceBusy)
    else if Unsafe(path) then Refuse(w, s, InvalidPath)
    else if !opens || path !in w.files.names then Refuse(w, s, FileNotFound)
    else
      var h := w.files.nextHandle;
      var size := |Content(w.files, w.files.names[path])| % UINT32_SIZE;
      var (w', s') := AddTask(w.(files := OpenRead(w.files, path)), s, Download, size, h);
      Outcome(w', s', Started(w.nextTask, size), [DownloadOpened(path, h)])
  }

  function HandleDownloadData(cfg: Limits, w: World, s: Session, id: nat): Outcome {
    if !s.authenticated then Refuse(w, s, NotAuthenticated)
    else if !Listed(s.tasks, id) then Refuse(w, s, Failed)
    else
      var t := Get(s.tasks, id);
      if t.status != Running || t.file.None? then Refuse(w, s, TransferAborted)
      else
        var bytes := Read(w.files, t.file.value, t.transferred, cfg.bufferSize);
        var t' := t.(transferred := (t.transferred + |bytes|) % UINT32_SIZE);
        Outcome(w, s.(tasks := Put(s.tasks, t')), Data(id, t.transferred, bytes), [])
  }

  function HandleStatus(w: World, s: Session, id: nat, status: Status): Outcome {
    if !s.authenticated then Refuse(w, s, NotAuthenticated)
    else if !Listed(s.tasks, id) then Refuse(w, s, Failed)
    else
      var t := Get(s.tasks, id);
      Outcome(w, s.(tasks := Put(s.tasks, t.(status := status))), Progress(id, t.transferred), [])
  }

  /** Close the file, answer, then unlink the task. */
  function HandleEnd(w: World, s: Session, id: nat): Outcome {
    if !s.authenticated then Refuse(w, s, NotAuthenticated)
    else if !Listed(s.tasks, id) then Refuse(w, s, Failed)
    else
      var t := Get(s.tasks, id);
      Outcome(w.(files := CloseFile(w.files, t.file)),
              s.(tasks := Without(s.tasks, id), taskCount := s.taskCount - 1),
              Progress(id, t.transferred), Closing(t.file))
  }

  /** The dispatch switch of `handle_client`. */
  function Dispatch(cfg: Limits, w: World, s: Session, c: Command): Outcome {
    match c
    case Login(username, passwordMd5) => HandleLogin(cfg, w, s, username, passwordMd5)
    case Logout => HandleLogout(w, s)
    case Query => if s.authenticated then Outcome(w, s, Done, []) else Refuse(w, s, NotAuthenticated)
    case Heartbeat => Outcome(w, s, Done, [])
    case Unknown => Refuse(w, s, Failed)
    case Delete(path, succeeds) => HandleDelete(w, s, path, succeeds)
    case Rename(from, to, succeeds) => HandleRename(w, s, from, to, succeeds)
    case Edit(path, content, parent, opens, room) => HandleEdit(w, s, path, content, parent, opens, room)
    case UploadStart(path, size, opens) => HandleUploadStart(cfg, w, s, path, size, opens)
    case UploadData(id, offset, data, room) => HandleUploadData(w, s, id, offset, data, room)
    case DownloadStart(path, opens) => HandleDownloadStart(cfg, w, s, path, opens)
    case DownloadData(id) => HandleDownloadData(cfg, w, s, id)
    case Pause(id) => HandleStatus(w, s, id, Paused)
    case Resume(id) => HandleStatus(w, s, id, Running)
    case End(id) => HandleEnd(w, s, id)
  }

  // --- The dispatch loop ---

  /** One round of the loop of `handle_client`, or a change made by the other sessions. `running` is g_running. */
  datatype Event = Frame(command: Command, running: bool) | NoFrame | Others(world: World)

  datatype Logged = Logged(command: Command, reply: Reply, effects: seq<Effect>)

  /** A connection: `live` until the session is destroyed; `log` is the commands processed so far. */
  datatype Connection = Connection(world: World, session: Session, live: bool, log: seq<Logged>, atEnd: seq<Effect>)

  const NEW_SESSION := Session(false, "", PermNone, [], 0)

  function Connect(w: World): Connection {
    Connection(w, NEW_SESSION, true, [], [])
  }

  /** `session_destroy` */
  function Destroy(c: Connection): Connection {
    var (w', s') := CleanupTasks(c.world, c.session);
    c.(world := w', session := s', live := false, atEnd := ClosingAll(c.session.tasks))
  }

  function Process(cfg: Limits, c: Connection, command: Command): Connection {
    var o := Dispatch(cfg, c.world, c.session, command);
    c.(world := o.world, session := o.session, log := c.log + [Logged(command, o.reply, o.effects)])
  }

  function Step(cfg: Limits, c: Connection, e: Event): Connection {
    match e
    case Others(w) => c.(world := w)
    case NoFrame => if c.live then Destroy(c) else c
    case Frame(command, running) =>
      if !c.live then c
      else if c.session.authenticated && !running then Destroy(c)
      else
        var c' := Process(cfg, c, command);
        if !c'.session.authenticated && !command.Login? then Destroy(c') else c'
  }

  function Run(cfg: Limits, c: Connection, events: seq<Event>): Connection
    decreases |events|
  {
    if events == [] then c else Run(cfg, Step(cfg, c, events[0]), events[1..])
  }
}
