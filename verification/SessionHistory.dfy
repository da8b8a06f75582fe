/** What the log of a whole connection says: which handles were opened and closed, and under which login. */
module SessionHistory {
  import opened Bytes
  import opened Storage
  import opened Config
  import opened SessionModel
  import opened SessionSafety
  import TaskProgress

  // --- Runs among other sessions ---

  /** The other sessions only do what `Server.RoundKeeps` shows that they do. */
  ghost predicate Fair(cfg: Limits, c: Connection, events: seq<Event>)
    decreases |events|
  {
    events != [] ==>
      && (events[0].Others? ==> Rely(c.world, events[0].world, Handles(c.session.tasks)))
      && Fair(cfg, Step(cfg, c, events[0]), events[1..])
  }

  // --- Handles opened and closed ---

  function AllEffects(log: seq<Logged>): seq<Effect> {
    if log == [] then [] else AllEffects(log[..|log| - 1]) + log[|log| - 1].effects
  }

  /** Everything the connection did outside its own state. */
  function History(c: Connection): seq<Effect> {
    AllEffects(c.log) + c.atEnd
  }

  /** How often the effects open, and close, handle `h`; how many of the tasks hold it. */
  function Opens(effects: seq<Effect>, h: nat): nat {
    if effects == [] then 0
    else
      (if (effects[0].UploadOpened? || effects[0].DownloadOpened?) && effects[0].handle == h then 1 else 0)
      + Opens(effects[1..], h)
  }

  function Closes(effects: seq<Effect>, h: nat): nat {
    if effects == [] then 0 else (if effects[0] == Closed(h) then 1 else 0) + Closes(effects[1..], h)
  }

  function Holds(tasks: seq<Task>, h: nat): nat {
    if tasks == [] then 0 else (if tasks[0].file == Option.Some(h) then 1 else 0) + Holds(tasks[1..], h)
  }

  lemma {:induction false} CountsConcat(a: seq<Effect>, b: seq<Effect>, h: nat)
    ensures Opens(a + b, h) == Opens(a, h) + Opens(b, h)
    ensures Closes(a + b, h) == Closes(a, h) + Closes(b, h)
  {
    if a == [] {
      assert a + b == b;
    } else {
      assert (a + b)[1..] == a[1..] + b;
      CountsConcat(a[1..], b, h);
    }
  }

  lemma {:induction false} ClosingAllCloses(tasks: seq<Task>, h: nat)
    ensures Opens(ClosingAll(tasks), h) == 0 && Closes(ClosingAll(tasks), h) == Holds(tasks, h)
  {
    if tasks != [] {
      CountsConcat(Closing(tasks[0].file), ClosingAll(tasks[1..]), h);
      ClosingAllCloses(tasks[1..], h);
    }
  }

  lemma {:induction false} HoldsAfterPut(tasks: seq<Task>, t: Task, h: nat)
    requires Listed(tasks, t.id) && t.file == Get(tasks, t.id).file
    ensures Holds(Put(tasks, t), h) == Holds(tasks, h)
  {
    if tasks[0].id == t.id {
      assert Put(tasks, t)[1..] == tasks[1..];
    } else {
      HoldsAfterPut(tasks[1..], t, h);
      assert Put(tasks, t)[1..] == Put(tasks[1..], t);
    }
  }

  lemma {:induction false} HoldsAfterRemoval(tasks: seq<Task>, id: nat, h: nat)
    requires Listed(tasks, id)
    ensures Holds(tasks, h) == Holds(Without(tasks, id), h) + (if Get(tasks, id).file == Option.Some(h) then 1 else 0)
  {
    var first, rest := tasks[0], tasks[1..];
    assert tasks == [first] + rest;
    HoldsInCons(first, rest, h);
    TaskProgress.WithoutInCons(tasks, id);
    TaskProgress.GetInCons(first, rest, id);
    hide Without, Position, Listed, Get, Holds;
    if first.id != id {
      HoldsAfterRemoval(rest, id, h);
      HoldsInCons(first, Without(rest, id), h);
    }
  }

  lemma HoldsInCons(first: Task, rest: seq<Task>, h: nat)
    ensures Holds([first] + rest, h) == (if first.file == Option.Some(h) then 1 else 0) + Holds(rest, h)
  {
    assert ([first] + rest)[1..] == rest;
  }

  /**
   What was opened and what was held before is what was closed and what is held now; an opened handle is a fresh one.
   */
  ghost predicate Balances(w: World, s: Session, o: Outcome, h: nat) {
    && Opens(o.effects, h) + Holds(s.tasks, h) == Closes(o.effects, h) + Holds(o.session.tasks, h)
    && Opens(o.effects, h) <= (if w.files.nextHandle <= h < o.world.files.nextHandle then 1 else 0)
  }

  lemma CountOne(e: Effect, h: nat)
    ensures Opens([e], h) == if (e.UploadOpened? || e.DownloadOpened?) && e.handle == h then 1 else 0
    ensures Closes([e], h) == if e == Closed(h) then 1 else 0
  {
    assert [e][1..] == [];
  }

  lemma EmptyCounts(h: nat)
    ensures Opens([], h) == 0 && Closes([], h) == 0
  {
  }

  lemma QuietBalances(w: World, s: Session, o: Outcome, h: nat)
    requires Holds(o.session.tasks, h) == Holds(s.tasks, h)
    requires |o.effects| <= 1 && forall e | e in o.effects :: !e.UploadOpened? && !e.DownloadOpened? && !e.Closed?
    ensures Balances(w, s, o, h)
  {
  }

  lemma HoldsAfterProgress(tasks: seq<Task>, id: nat, n: nat, h: nat)
    requires Listed(tasks, id)
    ensures Holds(Put(tasks, Get(tasks, id).(transferred := n)), h) == Holds(tasks, h)
  {
    HoldsAfterPut(tasks, Get(tasks, id).(transferred := n), h);
  }

  lemma UploadDataBalances(w: World, s: Session, id: nat, offset: nat, data: seq<byte>, room: nat, h: nat)
    ensures Balances(w, s, HandleUploadData(w, s, id, offset, data, room), h)
  {
    var o := HandleUploadData(w, s, id, offset, data, room);
    if Listed(s.tasks, id) && o.reply.Progress? {
      HoldsAfterProgress(s.tasks, id, o.reply.transferred, h);
    }
    hide Write, Writable, Put, Position, Listed, Balances, Holds, Get, UINT32_SIZE;
    assert Holds(o.session.tasks, h) == Holds(s.tasks, h);
    assert o.effects == [] || (|o.effects| == 1 && o.effects[0].Wrote?);
    hide HandleUploadData;
    QuietBalances(w, s, o, h);
  }

  lemma DownloadDataBalances(cfg: Limits, w: World, s: Session, id: nat, h: nat)
    ensures Balances(w, s, HandleDownloadData(cfg, w, s, id), h)
  {
    if Listed(s.tasks, id) && Get(s.tasks, id).file.Some? {
      var t := Get(s.tasks, id);
      var n := |Read(w.files, t.file.value, t.transferred, cfg.bufferSize)|;
      HoldsAfterProgress(s.tasks, id, (t.transferred + n) % UINT32_SIZE, h);
    }
    hide Read, Put, Position, Listed, Balances, Holds, Get;
    QuietBalances(w, s, HandleDownloadData(cfg, w, s, id), h);
  }

  lemma StartBalances(cfg: Limits, w: World, s: Session, path: string, size: nat, opens: bool, h: nat)
    ensures Balances(w, s, HandleUploadStart(cfg, w, s, path, size, opens), h)
    ensures Balances(w, s, HandleDownloadStart(cfg, w, s, path, opens), h)
  {
    var up, down := HandleUploadStart(cfg, w, s, path, size, opens), HandleDownloadStart(cfg, w, s, path, opens);
    if up.reply.Started? { assert up.session.tasks[1..] == s.tasks; }
    if down.reply.Started? { assert down.session.tasks[1..] == s.tasks; }
    CountOne(UploadOpened(path, w.files.nextHandle), h);
    CountOne(DownloadOpened(path, w.files.nextHandle), h);
    hide Unsafe, Opens, Closes;
  }

  lemma EndBalances(w: World, s: Session, id: nat, h: nat)
    ensures Balances(w, s, HandleEnd(w, s, id), h)
  {
    if s.authenticated && Listed(s.tasks, id) {
      HoldsAfterRemoval(s.tasks, id, h);
      var file := Get(s.tasks, id).file;
      if file.Some? { CountOne(Closed(file.value), h); }
    }
    hide Without, Position, Listed, Holds;
  }

  lemma StatusBalances(w: World, s: Session, id: nat, status: Status, h: nat)
    ensures Balances(w, s, HandleStatus(w, s, id, status), h)
  {
    if Listed(s.tasks, id) {
      HoldsAfterPut(s.tasks, Get(s.tasks, id).(status := status), h);
    }
    hide Put, Position, Listed, Balances, Holds;
    QuietBalances(w, s, HandleStatus(w, s, id, status), h);
  }

  lemma LogoutBalances(w: World, s: Session, h: nat)
    ensures Balances(w, s, HandleLogout(w, s), h)
  {
    ClosingAllCloses(s.tasks, h);
  }

  lemma DispatchBalances(cfg: Limits, w: World, s: Session, c: Command, h: nat)
    ensures Balances(w, s, Dispatch(cfg, w, s, c), h)
  {
    hide Balances, Holds, HandleLogout, HandleUploadStart, HandleDownloadStart, HandleUploadData, HandleDownloadData;
    hide HandleStatus, HandleEnd, Unsafe, OpenWrite, Write;
    match c {
      case Logout => LogoutBalances(w, s, h);
      case UploadStart(path, size, opens) => StartBalances(cfg, w, s, path, size, opens, h);
      case DownloadStart(path, opens) => StartBalances(cfg, w, s, path, 0, opens, h);
      case UploadData(id, offset, data, room) => UploadDataBalances(w, s, id, offset, data, room, h);
      case DownloadData(id) => DownloadDataBalances(cfg, w, s, id, h);
      case Pause(id) => StatusBalances(w, s, id, Paused, h);
      case Resume(id) => StatusBalances(w, s, id, Running, h);
      case End(id) => EndBalances(w, s, id, h);
      case _ => QuietBalances(w, s, Dispatch(cfg, w, s, c), h);
    }
  }

  lemma {:induction false} HoldsIsMembership(tasks: seq<Task>, h: nat)
    ensures Holds(tasks, h) > 0 <==> h in Handles(tasks)
  {
    if tasks != [] {
      assert tasks == [tasks[0]] + tasks[1..];
      HoldsIsMembership(tasks[1..], h);
    }
  }

  /** Apart from the logout, a command opens or closes at most one handle, and says so. */
  lemma OneEffect(cfg: Limits, w: World, s: Session, c: Command)
    requires WellFormed(w.files) && !c.Logout?
    ensures var o := Dispatch(cfg, w, s, c);
      var was, now := w.files.open.Keys, o.world.files.open.Keys;
      && (o.effects == [] ==> now == was)
      && (o.effects != [] ==>
            && o.effects == [o.effects[0]]
            && var e := o.effects[0];
              now == if e.UploadOpened? || e.DownloadOpened? then was + {e.handle}
                     else if e.Closed? then was - {e.handle}
                     else was)
  {
    hide Position, Put, Without, Unsafe, FirstMatch, WriteAt, Read, Writable, UINT32_SIZE, WriteGate, Content, Listed;
  }

  /**
   The log is honest: after a command, the open handles are those open before and those logged as opened, less those
   logged as closed.
   */
  lemma OpenFollowsLog(cfg: Limits, w: World, s: Session, c: Command, h: nat)
    requires WellFormed(w.files)
    ensures var o := Dispatch(cfg, w, s, c);
      h in o.world.files.open <==> (h in w.files.open || Opens(o.effects, h) > 0) && Closes(o.effects, h) == 0
  {
    var o := Dispatch(cfg, w, s, c);
    if c.Logout? {
      CloseAllOpens(w.files, s.tasks);
      ClosingAllCloses(s.tasks, h);
      HoldsIsMembership(s.tasks, h);
    } else {
      OneEffect(cfg, w, s, c);
      EmptyCounts(h);
      if o.effects != [] { CountOne(o.effects[0], h); }
      hide Dispatch, Opens, Closes;
    }
  }

  // --- Who was logged in ---

  /** The permission of the most recent successful login, if no logout followed it. */
  function Grant(log: seq<Logged>): Option<Permission> {
    if log == [] then None
    else
      var last := log[|log| - 1];
      if last.reply.LoggedIn? then Some(last.reply.granted)
      else if last.command.Logout? then None
      else Grant(log[..|log| - 1])
  }

  ghost predicate UploadOpenedIn(log: seq<Logged>, h: nat) {
    exists j, p :: 0 <= j < |log| && UploadOpened(p, h) in log[j].effects
  }

  /** The effect is one that the login history before it allows. */
  ghost predicate Allowed(before: seq<Logged>, e: Effect) {
    match e
    case Deleted(p) => Grant(before) == Option.Some(PermRW) && !Unsafe(p)
    case Renamed(p, q) => Grant(before) == Option.Some(PermRW) && !Unsafe(p) && !Unsafe(q)
    case Edited(p) => Grant(before) == Option.Some(PermRW) && !Unsafe(p)
    case UploadOpened(p, _) => Grant(before) == Option.Some(PermRW) && !Unsafe(p)
    case DownloadOpened(p, _) => Grant(before).Some? && !Unsafe(p)
    case Wrote(h, _) => Grant(before).Some? && UploadOpenedIn(before, h)
    case Closed(_) => Grant(before).Some?
  }

  ghost predicate Authorised(cfg: Limits, before: seq<Logged>, e: Logged) {
    && (forall f | f in e.effects :: Allowed(before, f))
    && (e.reply.LoggedIn? ==>
          && e.command.Login?
          && FirstMatch(cfg.users, e.command.username, e.command.passwordMd5) == Option.Some(e.reply.granted))
  }

  /** After this entry the loop of `handle_client` stops. */
  predicate Last(before: seq<Logged>, e: Logged) {
    Grant(before + [e]).None? && !e.command.Login?
  }

  /** The session is as its own log says. */
  ghost predicate Matches(log: seq<Logged>, s: Session) {
    && (s.authenticated <==> Grant(log).Some?)
    && (s.authenticated ==> Grant(log) == Option.Some(s.perm))
    && forall t | t in s.tasks && t.direction.Upload? :: t.file.Some? && UploadOpenedIn(log, t.file.value)
  }

  lemma OpenedLater(log: seq<Logged>, e: Logged, h: nat)
    requires UploadOpenedIn(log, h)
    ensures UploadOpenedIn(log + [e], h)
  {
    var j, p :| 0 <= j < |log| && UploadOpened(p, h) in log[j].effects;
    assert (log + [e])[j] == log[j];
  }

  /** Every task after a command was there before, but for progress and status, or is the one just started. */
  lemma TasksFrom(cfg: Limits, w: World, s: Session, c: Command)
    ensures var o := Dispatch(cfg, w, s, c);
      forall t | t in o.session.tasks && t.direction.Upload? ::
        || (exists u :: u in s.tasks && u.direction.Upload? && u.file == t.file)
        || (t.file.Some? && exists p :: UploadOpened(p, t.file.value) in o.effects)
  {
    hide Position, Unsafe, FirstMatch, CloseAll, OpenWrite, Write, Read, WriteAt, Writable;
    var o := Dispatch(cfg, w, s, c);
    if c.UploadStart? && o.reply.Started? {
      assert UploadOpened(c.path, w.files.nextHandle) in o.effects;
    }
  }

  lemma DispatchAuthorised(cfg: Limits, w: World, s: Session, log: seq<Logged>, c: Command)
    requires Inv(cfg, w, s) && Matches(log, s)
    ensures var o := Dispatch(cfg, w, s, c);
      var e := Logged(c, o.reply, o.effects);
      Authorised(cfg, log, e) && Matches(log + [e], o.session)
  {
    var o := Dispatch(cfg, w, s, c);
    var e := Logged(c, o.reply, o.effects);
    assert (log + [e])[..|log|] == log;
    EffectsAllowed(cfg, w, s, log, c);
    TasksFrom(cfg, w, s, c);
    forall t | t in o.session.tasks && t.direction.Upload?
      ensures t.file.Some? && UploadOpenedIn(log + [e], t.file.value)
    {
      if u :| u in s.tasks && u.direction.Upload? && u.file == t.file {
        OpenedLater(log, e, t.file.value);
      } else {
        assert (log + [e])[|log|] == e;
      }
    }
    GrantFollows(cfg, w, s, log, c);
  }

  lemma GrantFollows(cfg: Limits, w: World, s: Session, log: seq<Logged>, c: Command)
    requires Inv(cfg, w, s) && Matches(log, s)
    ensures var o := Dispatch(cfg, w, s, c);
      && (o.reply.LoggedIn? ==>
            c.Login? && FirstMatch(cfg.users, c.username, c.passwordMd5) == Option.Some(o.reply.granted))
      && (o.session.authenticated <==> Grant(log + [Logged(c, o.reply, o.effects)]).Some?)
      && (o.session.authenticated ==> Grant(log + [Logged(c, o.reply, o.effects)]) == Option.Some(o.session.perm))
  {
    var o := Dispatch(cfg, w, s, c);
    assert (log + [Logged(c, o.reply, o.effects)])[..|log|] == log;
    LoginChanges(cfg, w, s, c);
    hide Dispatch, Inv, FirstMatch;
  }

  /** Only a successful login and a logout touch the login state. */
  lemma LoginChanges(cfg: Limits, w: World, s: Session, c: Command)
    ensures var o := Dispatch(cfg, w, s, c);
      && (o.reply.LoggedIn? ==>
            && c.Login? && FirstMatch(cfg.users, c.username, c.passwordMd5) == Option.Some(o.reply.granted)
            && o.session.authenticated && o.session.perm == o.reply.granted)
      && (c.Logout? ==> !o.reply.LoggedIn? && !o.session.authenticated)
      && (!o.reply.LoggedIn? && !c.Logout? ==> o.session.authenticated == s.authenticated && o.session.perm == s.perm)
  {
    hide Position, Unsafe, FirstMatch, CloseAll, OpenWrite, Write, Read, WriteAt, Writable, Put, Without, Listed;
  }

  lemma DataAllowed(w: World, s: Session, log: seq<Logged>, id: nat, offset: nat, data: seq<byte>, room: nat)
    requires TasksOk(w.files.open, s.tasks) && Matches(log, s)
    ensures forall f | f in HandleUploadData(w, s, id, offset, data, room).effects :: Allowed(log, f)
  {
    hide Grant, UploadOpenedIn, Put, Write;
    if s.authenticated && Listed(s.tasks, id) {
      assert TaskOk(w.files.open, Get(s.tasks, id));
    }
  }

  lemma GatedAllowed(cfg: Limits, w: World, s: Session, log: seq<Logged>, c: Command)
    requires WriteGate(s).None? ==> Grant(log) == Option.Some(PermRW)
    requires s.authenticated ==> Grant(log).Some?
    requires !c.UploadData? && !c.Logout?
    ensures forall f | f in Dispatch(cfg, w, s, c).effects :: Allowed(log, f)
  {
    hide Unsafe, OpenWrite, OpenRead, Write, Grant, WriteGate, Position, Without, Put, Read, FirstMatch;
  }

  lemma EffectsAllowed(cfg: Limits, w: World, s: Session, log: seq<Logged>, c: Command)
    requires Inv(cfg, w, s) && Matches(log, s)
    ensures forall f | f in Dispatch(cfg, w, s, c).effects :: Allowed(log, f)
  {
    assert s.tasks != [] ==> Grant(log).Some?;
    if c.UploadData? {
      DataAllowed(w, s, log, c.id, c.offset, c.data, c.room);
    } else if c.Logout? {
      ClosingOnly(s.tasks);
    } else {
      GatedAllowed(cfg, w, s, log, c);
    }
    hide Inv, HandleUploadData, Matches, Grant;
  }

  lemma {:induction false} ClosingOnly(tasks: seq<Task>)
    ensures forall e | e in ClosingAll(tasks) :: e.Closed?
    ensures ClosingAll(tasks) != [] ==> tasks != []
  {
    if tasks != [] { ClosingOnly(tasks[1..]); }
  }

  // --- Whole runs ---

  /** Everything that holds of a connection after any fair run. */
  ghost predicate Sound(cfg: Limits, c: Connection) {
    && Inv(cfg, c.world, c.session)
    && Matches(c.log, c.session)
    && (!c.live ==> c.session.tasks == [])
    && (c.live ==> c.atEnd == [])
    && Balanced(c)
    && (forall i | 0 <= i < |c.log| :: Authorised(cfg, c.log[..i], c.log[i]))
    && (forall i | 0 <= i < |c.log| && Last(c.log[..i], c.log[i]) :: i == |c.log| - 1 && !c.live)
  }

  /** Each handle the connection opened is held by exactly one listed task or was closed exactly once. */
  ghost predicate Balanced(c: Connection) {
    forall h: nat :: Accounted(c, h)
  }

  ghost predicate Accounted(c: Connection, h: nat) {
    && Opens(History(c), h) == Closes(History(c), h) + Holds(c.session.tasks, h)
    && Opens(History(c), h) <= (if h < c.world.files.nextHandle then 1 else 0)
  }

  lemma DestroySound(cfg: Limits, c: Connection)
    requires Sound(cfg, c) && c.live
    ensures Sound(cfg, Destroy(c))
  {
    CleanupGood(cfg, c.world, c.session);
    hide Inv, CloseAll, Authorised, Last, Accounted;
    forall h: nat ensures Accounted(Destroy(c), h) {
      assert Accounted(c, h);
      DestroyAccounted(c, h);
    }
  }

  lemma DestroyAccounted(c: Connection, h: nat)
    requires Accounted(c, h) && c.atEnd == []
    ensures Accounted(Destroy(c), h)
  {
    CloseAllOpens(c.world.files, c.session.tasks);
    ClosingAllCloses(c.session.tasks, h);
    CountsConcat(AllEffects(c.log), c.atEnd, h);
    CountsConcat(AllEffects(c.log), ClosingAll(c.session.tasks), h);
    hide CloseAll;
  }

  /** Without what the loop does after the command. */
  ghost predicate Processed(cfg: Limits, c: Connection) {
    && Inv(cfg, c.world, c.session)
    && Matches(c.log, c.session)
    && c.live && c.atEnd == []
    && Balanced(c)
    && (forall i | 0 <= i < |c.log| :: Authorised(cfg, c.log[..i], c.log[i]))
    && (forall i | 0 <= i < |c.log| - 1 :: !Last(c.log[..i], c.log[i]))
  }

  lemma AppendAccounted(c: Connection, command: Command, o: Outcome, h: nat)
    requires Accounted(c, h) && Balances(c.world, c.session, o, h) && c.atEnd == []
    requires c.world.files.nextHandle <= o.world.files.nextHandle
    ensures Accounted(c.(world := o.world, session := o.session,
      log := c.log + [Logged(command, o.reply, o.effects)]), h)
  {
    var log := c.log + [Logged(command, o.reply, o.effects)];
    assert log[..|c.log|] == c.log;
    assert AllEffects(log) + [] == AllEffects(c.log) + o.effects && AllEffects(c.log) + [] == AllEffects(c.log);
    CountsConcat(AllEffects(c.log), o.effects, h);
    hide AllEffects, Opens, Closes, Holds;
  }

  lemma ProcessSound(cfg: Limits, c: Connection, command: Command)
    requires Sound(cfg, c) && c.live
    ensures Processed(cfg, Process(cfg, c, command))
  {
    var c' := Process(cfg, c, command);
    DispatchGood(cfg, c.world, c.session, command);
    DispatchAuthorised(cfg, c.world, c.session, c.log, command);
    var o := Dispatch(cfg, c.world, c.session, command);
    assert c.world.files.nextHandle <= o.world.files.nextHandle;
    hide Dispatch, Accounted, Balances, Good, Matches, Inv, Authorised, Last;
    forall h: nat ensures Accounted(c', h) {
      assert Accounted(c, h);
      DispatchBalances(cfg, c.world, c.session, command, h);
      AppendAccounted(c, command, o, h);
    }
    assert forall i | 0 <= i <= |c.log| :: c'.log[..i] == c.log[..i];
  }

  lemma StepSound(cfg: Limits, c: Connection, e: Event)
    requires Sound(cfg, c) && (e.Others? ==> Rely(c.world, e.world, Handles(c.session.tasks)))
    ensures Sound(cfg, Step(cfg, c, e))
  {
    match e {
      case Others(w) =>
        OthersSound(cfg, c, w);
      case NoFrame => if c.live { DestroySound(cfg, c); }
      case Frame(command, running) =>
        if c.live {
          if c.session.authenticated && !running {
            DestroySound(cfg, c);
          } else {
            ProcessSound(cfg, c, command);
            StopSound(cfg, Process(cfg, c, command), command);
          }
        }
    }
  }

  lemma OthersSound(cfg: Limits, c: Connection, w: World)
    requires Sound(cfg, c) && Rely(c.world, w, Handles(c.session.tasks))
    ensures Sound(cfg, c.(world := w))
  {
    RelyKeeps(cfg, c.world, w, c.session);
    assert forall h: nat | Accounted(c, h) :: Accounted(c.(world := w), h);
    hide Inv, Authorised, Last, Matches, Opens, Closes, Holds;
  }

  lemma StopSound(cfg: Limits, c: Connection, command: Command)
    requires Processed(cfg, c) && c.log != [] && c.log[|c.log| - 1].command == command
    ensures Sound(cfg, if !c.session.authenticated && !command.Login? then Destroy(c) else c)
  {
    assert c.log[..|c.log| - 1] + [c.log[|c.log| - 1]] == c.log;
    if !c.session.authenticated && !command.Login? {
      assert c.session.tasks == [];
      assert Destroy(c) == c.(live := false);
      assert forall h: nat | Accounted(c, h) :: Accounted(Destroy(c), h);
      hide Authorised, Accounted;
    }
  }

  lemma {:induction false} RunSound(cfg: Limits, c: Connection, events: seq<Event>)
    requires Sound(cfg, c) && Fair(cfg, c, events)
    ensures Sound(cfg, Run(cfg, c, events))
    decreases |events|
  {
    if events != [] {
      StepSound(cfg, c, events[0]);
      RunSound(cfg, Step(cfg, c, events[0]), events[1..]);
    }
  }

  lemma ConnectSound(cfg: Limits, w: World)
    requires WellFormed(w.files)
    ensures Sound(cfg, Connect(w))
  {
    assert forall h: nat :: Accounted(Connect(w), h);
  }

  /** Between any two commands of any connection, whatever was sent before. */
  lemma RunKeepsInv(cfg: Limits, w: World, events: seq<Event>)
    requires WellFormed(w.files) && Fair(cfg, Connect(w), events)
    ensures var c := Run(cfg, Connect(w), events); Inv(cfg, c.world, c.session)
  {
    ConnectSound(cfg, w);
    RunSound(cfg, Connect(w), events);
  }

  /** Handles are neither leaked nor closed twice, and none outlives the login or the session. */
  lemma HandlesAccounted(cfg: Limits, w: World, events: seq<Event>, h: nat)
    requires WellFormed(w.files) && Fair(cfg, Connect(w), events)
    ensures var c := Run(cfg, Connect(w), events);
      && Opens(History(c), h) <= 1
      && Opens(History(c), h) == Closes(History(c), h) + Holds(c.session.tasks, h)
      && (!c.live || Grant(c.log).None? ==> Holds(c.session.tasks, h) == 0)
  {
    ConnectSound(cfg, w);
    RunSound(cfg, Connect(w), events);
    var c := Run(cfg, Connect(w), events);
    assert Accounted(c, h);
  }

  /** Entries of the log stay. */
  lemma {:induction false} LogGrows(cfg: Limits, c: Connection, events: seq<Event>)
    ensures c.log <= Run(cfg, c, events).log
    decreases |events|
  {
    if events != [] {
      LogGrows(cfg, Step(cfg, c, events[0]), events[1..]);
      hide Dispatch, CloseAll, ClosingAll;
      assert c.log <= Step(cfg, c, events[0]).log;
    }
  }

  /** Every effect happened under the login that allows it. */
  lemma RunAuthorised(cfg: Limits, w: World, events: seq<Event>, i: nat)
    requires WellFormed(w.files) && Fair(cfg, Connect(w), events) && i < |Run(cfg, Connect(w), events).log|
    ensures var log := Run(cfg, Connect(w), events).log;
      Authorised(cfg, log[..i], log[i])
  {
    ConnectSound(cfg, w);
    RunSound(cfg, Connect(w), events);
  }

  /** Bytes are written only through a handle that this connection opened for upload while it was granted RW. */
  lemma WritesUnderRW(cfg: Limits, w: World, events: seq<Event>, i: nat, h: nat, n: nat)
    requires WellFormed(w.files) && Fair(cfg, Connect(w), events)
    requires i < |Run(cfg, Connect(w), events).log| && Wrote(h, n) in Run(cfg, Connect(w), events).log[i].effects
    ensures var log := Run(cfg, Connect(w), events).log;
      exists j, p :: 0 <= j < i && UploadOpened(p, h) in log[j].effects
        && Grant(log[..j]) == Option.Some(PermRW) && !Unsafe(p)
  {
    var log := Run(cfg, Connect(w), events).log;
    RunAuthorised(cfg, w, events, i);
    assert Allowed(log[..i], Wrote(h, n));
    var j, p :| 0 <= j < i && UploadOpened(p, h) in log[..i][j].effects;
    RunAuthorised(cfg, w, events, j);
    assert Allowed(log[..j], UploadOpened(p, h));
    hide *;
    assert UploadOpened(p, h) in log[j].effects;
  }

  /**
   One round of the loop: a command is processed exactly while the server runs or the session is not logged in, and the
   session goes on exactly when it is then logged in or the command was a login. When it ends, no task is left.
   */
  lemma RoundExactly(cfg: Limits, c: Connection, command: Command, running: bool)
    ensures var c', o := Step(cfg, c, Frame(command, running)), Dispatch(cfg, c.world, c.session, command);
      var processed := c.live && (running || !c.session.authenticated);
      && c'.log == (if processed then c.log + [Logged(command, o.reply, o.effects)] else c.log)
      && (c'.live <==> processed && (o.session.authenticated || command.Login?))
      && (c.live && !c'.live ==> c'.session.tasks == [])
    ensures c.live ==> !Step(cfg, c, NoFrame).live && Step(cfg, c, NoFrame).log == c.log
    ensures c.live ==> Step(cfg, c, NoFrame).session.tasks == []
  {
    hide Dispatch, CloseAll, ClosingAll;
  }

  /** Nothing is processed after a logout; before its last command an unauthenticated session only tries to log in. */
  lemma NothingAfterLogout(cfg: Limits, w: World, events: seq<Event>, i: nat)
    requires WellFormed(w.files) && Fair(cfg, Connect(w), events) && i < |Run(cfg, Connect(w), events).log|
    ensures var c := Run(cfg, Connect(w), events);
      && (c.log[i].command.Logout? ==> i == |c.log| - 1 && !c.live)
      && (Grant(c.log[..i]).None? && !c.log[i].command.Login? ==> i == |c.log| - 1 && !c.live && c.log[i].effects == [])
  {
    ConnectSound(cfg, w);
    RunSound(cfg, Connect(w), events);
    var c := Run(cfg, Connect(w), events);
    var before, e := c.log[..i], c.log[i];
    assert Authorised(cfg, before, e);
    assert (before + [e])[..i] == before;
    if e.command.Logout? || (Grant(before).None? && !e.command.Login?) {
      assert Last(before, e);
    }
    if Grant(before).None? && e.effects != [] {
      assert Allowed(before, e.effects[0]);
    }
  }

  // --- Task ids ---

  lemma {:induction false} GoneStaysGone(cfg: Limits, c: Connection, events: seq<Event>, id: nat)
    requires Sound(cfg, c) && Fair(cfg, c, events)
    requires id !in Ids(c.session.tasks) && id < c.world.nextTask
    ensures id !in Ids(Run(cfg, c, events).session.tasks)
    decreases |events|
  {
    if events != [] {
      var c' := Step(cfg, c, events[0]);
      StepSound(cfg, c, events[0]);
      if events[0].Frame? { DispatchGood(cfg, c.world, c.session, events[0].command); }
      assert id !in Ids(c'.session.tasks) && id < c'.world.nextTask;
      GoneStaysGone(cfg, c', events[1..], id);
    }
  }

  /** A data request that was answered with success or, falling short, still wrote something. */
  predicate IsData(e: Logged) {
    (e.command.UploadData? && (e.reply.Progress? || e.effects != [])) || (e.command.DownloadData? && e.reply.Data?)
  }

  /** All data moved so far belonged to task ids already given out. */
  ghost predicate IdsGivenOut(c: Connection) {
    forall i | 0 <= i < |c.log| && IsData(c.log[i]) :: c.log[i].command.id < c.world.nextTask
  }

  /** Only a listed task moves data. */
  lemma DataListed(cfg: Limits, w: World, s: Session, c: Command)
    ensures var o := Dispatch(cfg, w, s, c); IsData(Logged(c, o.reply, o.effects)) ==> Listed(s.tasks, c.id)
  {
    hide Position, Put, Write, Read, WriteAt, Unsafe, FirstMatch, CloseAll, Without, Listed, Get, Writable, OpenWrite;
  }

  lemma ListedBelow(tasks: seq<Task>, bound: nat, id: nat)
    requires IdsDecrease(tasks, bound) && Listed(tasks, id)
    ensures id < bound
  {
  }

  lemma ProcessGivesOut(cfg: Limits, c: Connection, command: Command)
    requires Sound(cfg, c) && IdsGivenOut(c)
    ensures IdsGivenOut(Process(cfg, c, command))
  {
    var o := Dispatch(cfg, c.world, c.session, command);
    DispatchGood(cfg, c.world, c.session, command);
    DataListed(cfg, c.world, c.session, command);
    assert IdsDecrease(c.session.tasks, c.world.nextTask) && c.world.nextTask <= o.world.nextTask;
    hide Dispatch, Listed, IdsDecrease, Good, Sound, Inv, IsData;
    if IsData(Logged(command, o.reply, o.effects)) { ListedBelow(c.session.tasks, c.world.nextTask, command.id); }
  }

  lemma DestroyGivesOut(c: Connection)
    requires IdsGivenOut(c)
    ensures IdsGivenOut(Destroy(c))
  {
    hide CloseAll, ClosingAll, IsData;
  }

  lemma StepGivesOut(cfg: Limits, c: Connection, e: Event)
    requires Sound(cfg, c) && IdsGivenOut(c) && (e.Others? ==> Rely(c.world, e.world, Handles(c.session.tasks)))
    ensures IdsGivenOut(Step(cfg, c, e))
  {
    hide Sound, Inv, Dispatch, Process, Destroy, IsData;
    DestroyGivesOut(c);
    if e.Frame? {
      ProcessGivesOut(cfg, c, e.command);
      DestroyGivesOut(Process(cfg, c, e.command));
    }
  }

  lemma {:induction false} RunGivesOut(cfg: Limits, c: Connection, events: seq<Event>)
    requires Sound(cfg, c) && Fair(cfg, c, events) && IdsGivenOut(c)
    ensures IdsGivenOut(Run(cfg, c, events))
    decreases |events|
  {
    if events != [] {
      StepSound(cfg, c, events[0]);
      StepGivesOut(cfg, c, events[0]);
      RunGivesOut(cfg, Step(cfg, c, events[0]), events[1..]);
    }
  }
}
