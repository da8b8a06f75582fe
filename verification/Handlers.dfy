/** The handlers of server/src/handler.c and its dispatch loop, on the session object. */
module Handlers {
  import opened Bytes
  import opened Storage
  import opened Config
  import opened SessionModel
  import opened Sessions
  import opened Lists

  /** The nodes of a session after a call: those it had and those the call made. */
  twostate predicate Grown(new sess: ClientSession, before: seq<Node<Task>>)
    reads sess
  {
    forall i | 0 <= i < |sess.nodes| :: sess.nodes[i] in before || fresh(sess.nodes[i])
  }

  method HandleLogin(config: ServerConfig, cfg: Limits, host: Host, sess: ClientSession, username: string,
                     passwordMd5: string)
    returns (reply: Reply, ghost effects: seq<Effect>)
    requires sess.Valid() && config.Valid() && config.Table() == cfg.users
    modifies sess
    ensures sess.Valid() && sess.nodes == old(sess.nodes)
    ensures Outcome(host.Now(), sess.State(), reply, effects)
      == SessionModel.HandleLogin(cfg, old(host.Now()), old(sess.State()), username, passwordMd5)
  {
    var found, perm := config.VerifyUser(username, passwordMd5);
    effects := [];
    if !found {
      return Refused(AuthFailed), effects;
    }
    sess.authenticated := true;
    sess.username := Take(username, FIELD);
    sess.perm := perm;
    reply := LoggedIn(perm);
  }

  method HandleLogout(host: Host, sess: ClientSession) returns (reply: Reply, ghost effects: seq<Effect>)
    requires sess.Valid()
    modifies sess, sess.nodes, host
    ensures sess.Valid() && sess.nodes == []
    ensures Outcome(host.Now(), sess.State(), reply, effects)
      == SessionModel.HandleLogout(old(host.Now()), old(sess.State()))
  {
    effects := ClosingAll(sess.list);
    sess.CleanupTasks(host);
    sess.authenticated := false;
    sess.perm := PermNone;
    sess.username := "";
    reply := Done;
  }

  /** The checks that delete, rename, edit and upload start begin with. */
  method CheckWritable(sess: ClientSession) returns (fault: Option<Fault>)
    ensures fault == WriteGate(sess.State())
  {
    if !sess.authenticated { return Some(NotAuthenticated); }
    if sess.perm != PermRW { return Some(PermissionDenied); }
    return None;
  }

  method HandleDelete(host: Host, sess: ClientSession, path: string, succeeds: bool)
    returns (reply: Reply, ghost effects: seq<Effect>)
    modifies host
    ensures Outcome(host.Now(), sess.State(), reply, effects)
      == SessionModel.HandleDelete(old(host.Now()), old(sess.State()), path, succeeds)
  {
    effects := [];
    var fault := CheckWritable(sess);
    if fault.Some? { return Refused(fault.value), effects; }
    if Unsafe(path) { return Refused(InvalidPath), effects; }
    if path !in host.files.names { return Refused(FileNotFound), effects; }
    if !succeeds { return Refused(Failed), effects; }
    host.files := Unlink(host.files, path);
    return Done, [Deleted(path)];
  }

  method HandleRename(host: Host, sess: ClientSession, from: string, to: string, succeeds: bool)
    returns (reply: Reply, ghost effects: seq<Effect>)
    modifies host
    ensures Outcome(host.Now(), sess.State(), reply, effects)
      == SessionModel.HandleRename(old(host.Now()), old(sess.State()), from, to, succeeds)
  {
    effects := [];
    var fault := CheckWritable(sess);
    if fault.Some? { return Refused(fault.value), effects; }
    if from == "" { return Refused(InvalidPath), effects; }
    if Unsafe(from) || Unsafe(to) { return Refused(InvalidPath), effects; }
    if !succeeds || from !in host.files.names { return Refused(Failed), effects; }
    host.files := Move(host.files, from, to);
    return Done, [Renamed(from, to)];
  }

  method HandleEdit(host: Host, sess: ClientSession, path: string, content: seq<byte>, parent: bool,
                    opens: bool, room: nat)
    returns (reply: Reply, ghost effects: seq<Effect>)
    modifies host
    ensures Outcome(host.Now(), sess.State(), reply, effects)
      == SessionModel.HandleEdit(old(host.Now()), old(sess.State()), path, content, parent, opens, room)
  {
    effects := [];
    var fault := CheckWritable(sess);
    if fault.Some? { return Refused(fault.value), effects; }
    if Unsafe(path) { return Refused(InvalidPath), effects; }
    if path !in host.files.names && !parent { return Refused(InvalidPath), effects; }
    if |content| > MAX_EDIT { return Refused(FileTooLarge), effects; }
    if !opens { return Refused(Failed), effects; }
    var fp := host.files.nextHandle;
    host.files := OpenWrite(host.files, path);
    var written := Writable(host.files, fp, content, room);
    host.files := Write(host.files, fp, 0, content, room);
    host.files := Close(host.files, fp);
    effects := [Edited(path)];
    if written != |content| { return Refused(ServerInternal), effects; }
    reply := Done;
  }

  method HandleUploadStart(cfg: Limits, host: Host, sess: ClientSession, path: string, size: nat, opens: bool)
    returns (reply: Reply, ghost effects: seq<Effect>)
    requires sess.Valid()
    modifies sess, host
    ensures sess.Valid() && Grown(sess, old(sess.nodes))
    ensures Outcome(host.Now(), sess.State(), reply, effects)
      == SessionModel.HandleUploadStart(cfg, old(host.Now()), old(sess.State()), path, size, opens)
  {
    effects := [];
    hide IsList, Unsafe, OpenWrite;
    var fault := CheckWritable(sess);
    if fault.Some? { return Refused(fault.value), effects; }
    if sess.taskCount >= cfg.maxConcurrent { return Refused(ResourceBusy), effects; }
    if Unsafe(path) { return Refused(InvalidPath), effects; }
    if !opens { return Refused(Failed), effects; }
    var fp := host.files.nextHandle;
    host.files := OpenWrite(host.files, path);
    var node := sess.AddTask(host, Upload, size, fp);
    reply := Started(node.data.id, size);
    effects := [UploadOpened(path, fp)];
  }

  method HandleUploadData(host: Host, sess: ClientSession, id: nat, offset: nat, data: seq<byte>, room: nat)
    returns (reply: Reply, ghost effects: seq<Effect>)
    requires sess.Valid()
    modifies sess, sess.nodes, host
    ensures sess.Valid() && sess.nodes == old(sess.nodes)
    ensures Outcome(host.Now(), sess.State(), reply, effects)
      == SessionModel.HandleUploadData(old(host.Now()), old(sess.State()), id, offset, data, room)
  {
    effects := [];
    hide IsList, Write, Writable, Put;
    if !sess.authenticated { return Refused(NotAuthenticated), effects; }
    var node := sess.FindTask(id);
    if node == null { return Refused(Failed), effects; }
    var t := node.data;
    if t.status != Running || t.file.None? { return Refused(TransferAborted), effects; }
    var written := Writable(host.files, t.file.value, data, room);
    host.files := Write(host.files, t.file.value, offset, data, room);
    if written > 0 { effects := [Wrote(t.file.value, written)]; }
    if written != |data| { return Refused(ServerInternal), effects; }
    sess.UpdateTask(node, t.(transferred := (t.transferred + written) % UINT32_SIZE));
    reply := Progress(id, (t.transferred + written) % UINT32_SIZE);
  }

  method HandleDownloadStart(cfg: Limits, host: Host, sess: ClientSession, path: string, opens: bool)
    returns (reply: Reply, ghost effects: seq<Effect>)
    requires sess.Valid()
    modifies sess, host
    ensures sess.Valid() && Grown(sess, old(sess.nodes))
    ensures Outcome(host.Now(), sess.State(), reply, effects)
      == SessionModel.HandleDownloadStart(cfg, old(host.Now()), old(sess.State()), path, opens)
  {
    effects := [];
    hide IsList, Unsafe, OpenRead;
    if !sess.authenticated { return Refused(NotAuthenticated), effects; }
    if sess.taskCount >= cfg.maxConcurrent { return Refused(ResourceBusy), effects; }
    if Unsafe(path) { return Refused(InvalidPath), effects; }
    if !opens || path !in host.files.names { return Refused(FileNotFound), effects; }
    var size := |Content(host.files, host.files.names[path])| % UINT32_SIZE;
    var fp := host.files.nextHandle;
    host.files := OpenRead(host.files, path);
    var node := sess.AddTask(host, Download, size, fp);
    reply := Started(node.data.id, size);
    effects := [DownloadOpened(path, fp)];
  }

  method HandleDownloadData(cfg: Limits, host: Host, sess: ClientSession, id: nat)
    returns (reply: Reply, ghost effects: seq<Effect>)
    requires sess.Valid()
    modifies sess, sess.nodes
    ensures sess.Valid() && sess.nodes == old(sess.nodes)
    ensures Outcome(host.Now(), sess.State(), reply, effects)
      == SessionModel.HandleDownloadData(cfg, old(host.Now()), old(sess.State()), id)
  {
    effects := [];
    hide IsList, Read, Put;
    if !sess.authenticated { return Refused(NotAuthenticated), effects; }
    var node := sess.FindTask(id);
    if node == null { return Refused(Failed), effects; }
    var t := node.data;
    if t.status != Running || t.file.None? { return Refused(TransferAborted), effects; }
    var bytes := Read(host.files, t.file.value, t.transferred, cfg.bufferSize);
    sess.UpdateTask(node, t.(transferred := (t.transferred + |bytes|) % UINT32_SIZE));
    reply := Data(id, t.transferred, bytes);
  }

  /** The pause and resume handlers of both directions. */
  method HandleStatus(host: Host, sess: ClientSession, id: nat, status: Status)
    returns (reply: Reply, ghost effects: seq<Effect>)
    requires sess.Valid()
    modifies sess, sess.nodes
    ensures sess.Valid() && sess.nodes == old(sess.nodes)
    ensures Outcome(host.Now(), sess.State(), reply, effects)
      == SessionModel.HandleStatus(old(host.Now()), old(sess.State()), id, status)
  {
    effects := [];
    hide IsList, Put;
    if !sess.authenticated { return Refused(NotAuthenticated), effects; }
    var node := sess.FindTask(id);
    if node == null { return Refused(Failed), effects; }
    var t := node.data;
    sess.UpdateTask(node, t.(status := status));
    reply := Progress(id, t.transferred);
  }

  /** Close the file of the task and mark it completed, when it still has one. */
  method CloseTask(host: Host, sess: ClientSession, node: Node<Task>)
    requires sess.Valid() && Listed(sess.list, node.data.id) && node.data == Get(sess.list, node.data.id)
    requires Position(sess.list, node.data.id) < |sess.nodes| && node == sess.nodes[Position(sess.list, node.data.id)]
    modifies sess`list, node`data, host
    ensures sess.Valid() && host.Now() == old(host.Now()).(files := CloseFile(old(host.files), old(node.data.file)))
    ensures var id := old(node.data.id);
      Listed(sess.list, id) && Get(sess.list, id).file == None && Without(sess.list, id) == Without(old(sess.list), id)
  {
    var t := node.data;
    EndedTask(sess.list, t.id);
    hide IsList, Position, Listed, Put, Get, Without;
    if t.file.Some? {
      host.files := Close(host.files, t.file.value);
      sess.UpdateTask(node, t.(file := None, status := Completed));
    }
  }

  /** Close the file, mark the task completed, answer; then the list forgets it. */
  method HandleEnd(host: Host, sess: ClientSession, id: nat)
    returns (reply: Reply, ghost effects: seq<Effect>)
    requires sess.Valid()
    modifies sess, sess.nodes, host
    ensures sess.Valid() && Grown(sess, old(sess.nodes))
    ensures Outcome(host.Now(), sess.State(), reply, effects)
      == SessionModel.HandleEnd(old(host.Now()), old(sess.State()), id)
  {
    effects := [];
    hide IsList, Position, Listed, Put, Get, Without;
    if !sess.authenticated { return Refused(NotAuthenticated), effects; }
    var node := sess.FindTask(id);
    if node == null { return Refused(Failed), effects; }
    var t := node.data;
    effects := Closing(t.file);
    reply := Progress(id, t.transferred);
    RetireTask(host, sess, node);
  }

  /** The task is closed and marked, and then unlinked. */
  method RetireTask(host: Host, sess: ClientSession, node: Node<Task>)
    requires sess.Valid() && Listed(sess.list, node.data.id) && Position(sess.list, node.data.id) < |sess.nodes|
    requires node == sess.nodes[Position(sess.list, node.data.id)] && node.data == Get(sess.list, node.data.id)
    modifies sess, sess.nodes, host
    ensures sess.Valid() && Grown(sess, old(sess.nodes))
    ensures host.Now() == old(host.Now()).(files := CloseFile(old(host.files), old(node.data.file)))
    ensures sess.State() == old(sess.State()).(
      tasks := Without(old(sess.list), old(node.data.id)), taskCount := old(sess.taskCount) - 1)
  {
    var id := node.data.id;
    hide ClientSession.Valid, IsList, Position, Listed, Get, Without, CloseFile;
    CloseTask(host, sess, node);
    ForgetTask(host, sess, id);
  }

  /** `session_remove_task` on a task that has no file any more. */
  method ForgetTask(host: Host, sess: ClientSession, id: nat)
    requires sess.Valid() && Listed(sess.list, id) && Get(sess.list, id).file == None
    modifies sess, sess.nodes, host
    ensures sess.Valid() && forall i | 0 <= i < |sess.nodes| :: sess.nodes[i] in old(sess.nodes)
    ensures host.Now() == old(host.Now())
    ensures sess.State() == old(sess.State()).(
      tasks := Without(old(sess.list), id), taskCount := old(sess.taskCount) - 1)
  {
    hide ClientSession.Valid, IsList, Position, Listed, Get, Without;
    sess.RemoveTask(host, id);
  }

  /** Marking a task before it is unlinked makes no difference to what stays, and its file is closed once. */
  lemma EndedTask(tasks: seq<Task>, id: nat)
    requires Listed(tasks, id)
    ensures var t := Get(tasks, id);
      var marked := if t.file.Some? then Put(tasks, t.(file := None, status := Completed)) else tasks;
      && t.id == id && Listed(marked, id) && Get(marked, id).file == None && Without(marked, id) == Without(tasks, id)
  {
    var t := Get(tasks, id);
    PutThenWithout(tasks, t.(file := None, status := Completed));
    hide Position, Put, Without;
  }

  lemma PutThenWithout(tasks: seq<Task>, t: Task)
    requires Listed(tasks, t.id)
    ensures Listed(Put(tasks, t), t.id) && Get(Put(tasks, t), t.id) == t
    ensures Without(Put(tasks, t), t.id) == Without(tasks, t.id)
  {
    var k := Position(tasks, t.id);
    hide Position;
    FoundAt(Put(tasks, t), t.id, k);
  }

  // --- The dispatch loop ---

  /** The switch on the command word. */
  method HandleRequest(config: ServerConfig, cfg: Limits, host: Host, sess: ClientSession, c: Command)
    returns (reply: Reply, ghost effects: seq<Effect>)
    requires sess.Valid() && config.Valid() && config.Table() == cfg.users
    modifies sess, sess.nodes, host
    ensures sess.Valid() && Grown(sess, old(sess.nodes))
    ensures Outcome(host.Now(), sess.State(), reply, effects) == Dispatch(cfg, old(host.Now()), old(sess.State()), c)
  {
    hide IsList, SessionModel.HandleLogin, SessionModel.HandleLogout, SessionModel.HandleDelete;
    hide SessionModel.HandleRename;
    hide SessionModel.HandleEdit, SessionModel.HandleUploadStart, SessionModel.HandleUploadData;
    hide SessionModel.HandleDownloadStart, SessionModel.HandleDownloadData, SessionModel.HandleStatus;
    hide SessionModel.HandleEnd;
    effects := [];
    match c
    case Login(username, passwordMd5) => reply, effects := HandleLogin(config, cfg, host, sess, username, passwordMd5);
    case Logout => reply, effects := HandleLogout(host, sess);
    case Query => reply := if sess.authenticated then Done else Refused(NotAuthenticated);
    case Heartbeat => reply := Done;
    case Unknown => reply := Refused(Failed);
    case Delete(path, succeeds) => reply, effects := HandleDelete(host, sess, path, succeeds);
    case Rename(from, to, succeeds) => reply, effects := HandleRename(host, sess, from, to, succeeds);
    case Edit(path, content, parent, opens, room) =>
      reply, effects := HandleEdit(host, sess, path, content, parent, opens, room);
    case UploadStart(path, size, opens) => reply, effects := HandleUploadStart(cfg, host, sess, path, size, opens);
    case UploadData(id, offset, data, room) => reply, effects := HandleUploadData(host, sess, id, offset, data, room);
    case DownloadStart(path, opens) => reply, effects := HandleDownloadStart(cfg, host, sess, path, opens);
    case DownloadData(id) => reply, effects := HandleDownloadData(cfg, host, sess, id);
    case Pause(id) => reply, effects := HandleStatus(host, sess, id, Paused);
    case Resume(id) => reply, effects := HandleStatus(host, sess, id, Running);
    case End(id) => reply, effects := HandleEnd(host, sess, id);
  }

  /** `session_destroy` of this session. */
  method EndSession(host: Host, sess: ClientSession) returns (ghost atEnd: seq<Effect>)
    requires sess.Valid()
    modifies sess, sess.nodes, host
    ensures sess.Valid() && sess.nodes == [] && atEnd == ClosingAll(old(sess.list))
    ensures (host.Now(), sess.State()) == SessionModel.CleanupTasks(old(host.Now()), old(sess.State()))
  {
    atEnd := ClosingAll(sess.list);
    sess.CleanupTasks(host);
  }

  /**
   `handle_client` among the other sessions: a frame comes with the value of g_running at the loop's test, and between
   two rounds the others may have changed the shared files and counter in any way. After the last event the peer is
   gone. The whole run, log included, is the run of the model.
   */
  method HandleClient(config: ServerConfig, cfg: Limits, host: Host, sess: ClientSession, events: seq<Event>)
    returns (ghost log: seq<Logged>, ghost atEnd: seq<Effect>)
    requires sess.Valid() && sess.State() == NEW_SESSION && config.Valid() && config.Table() == cfg.users
    modifies sess, sess.nodes, host
    ensures sess.Valid()
    ensures Connection(host.Now(), sess.State(), false, log, atEnd)
      == Run(cfg, Connect(old(host.Now())), events + [NoFrame])
  {
    ghost var target := Run(cfg, Connect(host.Now()), events + [NoFrame]);
    log, atEnd := [], [];
    var i, live := 0, true;
    assert events[0..] == events;
    hide IsList, Dispatch, Run, Step, Destroy, SessionModel.CleanupTasks;
    while i < |events|
      invariant 0 <= i <= |events| && sess.Valid() && Grown(sess, old(sess.nodes))
      invariant Run(cfg, Connection(host.Now(), sess.State(), live, log, atEnd), events[i..] + [NoFrame]) == target
      invariant live ==> atEnd == []
    {
      ghost var c := Connection(host.Now(), sess.State(), live, log, atEnd);
      assert events[i..] == [events[i]] + events[i + 1..];
      RunOne(cfg, c, events[i], events[i + 1..]);
      StepIs(cfg, c, events[i]);
      if events[i].Others? {
        host.files, host.nextTask := events[i].world.files, events[i].world.nextTask;
      } else if live {
        var stop := events[i].NoFrame? || (sess.authenticated && !events[i].running);
        if !stop {
          ghost var effects;
          var reply;
          reply, effects := HandleRequest(config, cfg, host, sess, events[i].command);
          log := log + [Logged(events[i].command, reply, effects)];
          stop := !sess.authenticated && !events[i].command.Login?;
        }
        if stop {
          Destroyed(Connection(host.Now(), sess.State(), true, log, []));
          atEnd := EndSession(host, sess);
          live := false;
        }
      }
      i := i + 1;
    }
    ghost var c := Connection(host.Now(), sess.State(), live, log, atEnd);
    assert events[i..] + [NoFrame] == [NoFrame];
    RunNone(cfg, c);
    if live {
      Destroyed(c);
      atEnd := EndSession(host, sess);
    }
  }

  lemma Destroyed(c: Connection)
    ensures var (w, s) := SessionModel.CleanupTasks(c.world, c.session);
      Destroy(c) == c.(world := w, session := s, live := false, atEnd := ClosingAll(c.session.tasks))
  {
  }

  lemma RunNone(cfg: Limits, c: Connection)
    ensures Run(cfg, c, [NoFrame]) == if c.live then Destroy(c) else c
  {
    assert [NoFrame][1..] == [];
  }

  lemma RunOne(cfg: Limits, c: Connection, e: Event, rest: seq<Event>)
    ensures Run(cfg, c, [e] + rest + [NoFrame]) == Run(cfg, Step(cfg, c, e), rest + [NoFrame])
  {
    hide Step;
    assert ([e] + rest + [NoFrame])[1..] == rest + [NoFrame];
  }

  /** One event, in the order in which the loop looks at it. */
  lemma StepIs(cfg: Limits, c: Connection, e: Event)
    ensures Step(cfg, c, e)
      == if e.Others? then c.(world := e.world)
         else if !c.live then c
         else if e.NoFrame? || (c.session.authenticated && !e.running) then Destroy(c)
         else
           var o := Dispatch(cfg, c.world, c.session, e.command);
           var c' := c.(world := o.world, session := o.session, log := c.log + [Logged(e.command, o.reply, o.effects)]);
           if !c'.session.authenticated && !e.command.Login? then Destroy(c') else c'
  {
    hide Dispatch, Destroy;
  }
}
