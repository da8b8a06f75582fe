/**
 What the permission of a login means for the files: changes need a logged effect, and those need read-write access.
 */
module Permissions {
  import opened Bytes
  import opened Storage
  import opened Config
  import opened SessionModel
  import opened SessionSafety
  import opened SessionHistory

  /** The effects that change the name or the content of a file. */
  predicate Alters(e: Effect) {
    e.Deleted? || e.Renamed? || e.Edited? || e.UploadOpened? || e.Wrote?
  }

  predicate SameFiles(fs: Files, fs': Files) {
    fs'.names == fs.names && fs'.contents == fs.contents
  }

  /** A command that logs no such effect leaves every name and every content as it was. */
  lemma ChangesAreLogged(cfg: Limits, w: World, s: Session, c: Command)
    ensures var o := Dispatch(cfg, w, s, c);
      SameFiles(w.files, o.world.files) || exists e :: e in o.effects && Alters(e)
  {
    var o := Dispatch(cfg, w, s, c);
    if c.Logout? {
      CloseAllOpens(w.files, s.tasks);
    } else {
      FirstEffect(cfg, w, s, c);
      hide Dispatch;
      if !SameFiles(w.files, o.world.files) { assert o.effects[0] in o.effects; }
    }
  }

  lemma FirstEffect(cfg: Limits, w: World, s: Session, c: Command)
    requires !c.Logout?
    ensures var o := Dispatch(cfg, w, s, c);
      SameFiles(w.files, o.world.files) || (o.effects != [] && Alters(o.effects[0]))
  {
    hide Position, Put, Without, Unsafe, FirstMatch, WriteAt, Read, Writable, WriteGate;
    hide Content, Listed, Get, UINT32_SIZE;
  }

  // --- Sessions without read-write access ---

  /** No login of the log granted read-write access. */
  ghost predicate NeverRW(log: seq<Logged>) {
    forall i | 0 <= i < |log| :: log[i].reply != LoggedIn(PermRW)
  }

  lemma {:induction false} NoGrant(log: seq<Logged>)
    requires NeverRW(log)
    ensures Grant(log) != Option.Some(PermRW)
  {
    if log != [] { NoGrant(log[..|log| - 1]); }
  }

  /** Such a session opened nothing for writing and may alter nothing. */
  lemma NothingAllowed(cfg: Limits, log: seq<Logged>, e: Effect)
    requires NeverRW(log) && forall i | 0 <= i < |log| :: Authorised(cfg, log[..i], log[i])
    requires Alters(e)
    ensures !Allowed(log, e)
  {
    NoGrant(log);
    if e.Wrote? && UploadOpenedIn(log, e.handle) {
      var j, p :| 0 <= j < |log| && UploadOpened(p, e.handle) in log[j].effects;
      OpenedUnderRW(cfg, log, j, p, e.handle);
      NoGrant(log[..j]);
    }
    hide Grant, Authorised;
  }

  lemma OpenedUnderRW(cfg: Limits, log: seq<Logged>, j: nat, p: string, h: nat)
    requires j < |log| && Authorised(cfg, log[..j], log[j]) && UploadOpened(p, h) in log[j].effects
    ensures Grant(log[..j]) == Option.Some(PermRW)
  {
    assert Allowed(log[..j], UploadOpened(p, h));
  }

  /** The files as the other sessions last left them. */
  function Outside(w: World, events: seq<Event>): World
    decreases |events|
  {
    if events == [] then w else Outside(if events[0].Others? then events[0].world else w, events[1..])
  }

  lemma {:induction false} OutsideSame(w: World, w': World, events: seq<Event>)
    requires SameFiles(w.files, w'.files)
    ensures SameFiles(Outside(w, events).files, Outside(w', events).files)
    decreases |events|
  {
    if events != [] && !events[0].Others? { OutsideSame(w, w', events[1..]); }
  }

  lemma DestroySame(c: Connection)
    ensures SameFiles(c.world.files, Destroy(c).world.files)
  {
    CloseAllOpens(c.world.files, c.session.tasks);
  }

  lemma StepSame(cfg: Limits, c: Connection, e: Event)
    requires Sound(cfg, c) && !e.Others? && NeverRW(Step(cfg, c, e).log)
    ensures SameFiles(c.world.files, Step(cfg, c, e).world.files)
  {
    DestroySame(c);
    if e.Frame? && c.live && !(c.session.authenticated && !e.running) {
      ProcessSame(cfg, c, e.command);
      DestroySame(Process(cfg, c, e.command));
    }
    hide Dispatch, Sound, CloseAll, ClosingAll;
  }

  lemma ProcessSame(cfg: Limits, c: Connection, command: Command)
    requires Sound(cfg, c) && c.live && NeverRW(Process(cfg, c, command).log)
    ensures SameFiles(c.world.files, Process(cfg, c, command).world.files)
  {
    var o := Dispatch(cfg, c.world, c.session, command);
    var log := c.log + [Logged(command, o.reply, o.effects)];
    ChangesAreLogged(cfg, c.world, c.session, command);
    DispatchAuthorised(cfg, c.world, c.session, c.log, command);
    assert NeverRW(c.log) by { assert forall i | 0 <= i < |c.log| :: c.log[i] == log[i]; }
    hide Dispatch, Allowed, NeverRW, Inv, SessionHistory.Matches, SameFiles;
    if !SameFiles(c.world.files, o.world.files) {
      var e :| e in o.effects && Alters(e);
      NothingAllowed(cfg, c.log, e);
      assert false;
    }
  }

  /**
   A connection whose logins never granted read-write access: over any run its names and contents of files are those
   that the other sessions left, or those of the beginning.
   */
  lemma {:induction false} ReadOnlyRun(cfg: Limits, c: Connection, events: seq<Event>)
    requires Sound(cfg, c) && Fair(cfg, c, events) && NeverRW(Run(cfg, c, events).log)
    ensures SameFiles(Outside(c.world, events).files, Run(cfg, c, events).world.files)
    decreases |events|
  {
    if events != [] {
      var e, c' := events[0], Step(cfg, c, events[0]);
      LogGrows(cfg, c', events[1..]);
      StepSound(cfg, c, e);
      assert NeverRW(c'.log) by {
        assert forall i | 0 <= i < |c'.log| :: c'.log[i] == Run(cfg, c', events[1..]).log[i];
      }
      ReadOnlyRun(cfg, c', events[1..]);
      if !e.Others? {
        StepSame(cfg, c, e);
        OutsideSame(c.world, c'.world, events[1..]);
      }
      hide Sound, Step, NeverRW;
    }
  }

  /** From the arrival of a client on. */
  lemma ReadOnlyLeavesFiles(cfg: Limits, w: World, events: seq<Event>)
    requires WellFormed(w.files) && Fair(cfg, Connect(w), events)
    requires NeverRW(Run(cfg, Connect(w), events).log)
    ensures SameFiles(Outside(w, events).files, Run(cfg, Connect(w), events).world.files)
  {
    ConnectSound(cfg, w);
    ReadOnlyRun(cfg, Connect(w), events);
  }

  // --- An upload that outlives its permission ---

  /** Log in with read-write access, start an upload, log in again with less, send data. */
  function LoweredLogin(rw: string, rwPass: string, ro: string, roPass: string, path: string, id: nat, data: seq<byte>)
    : seq<Event>
  {
    [Frame(Login(rw, rwPass), true), Frame(UploadStart(path, |data|, true), true),
     Frame(Login(ro, roPass), true), Frame(UploadData(id, 0, data, |data|), true)]
  }

  /** Four commands after which a session with read-only access has written to a file. */
  lemma WritesAfterLowering(cfg: Limits, w: World, rw: string, rwPass: string, ro: string, roPass: string, path: string,
                            data: seq<byte>)
    requires FirstMatch(cfg.users, rw, rwPass) == Option.Some(PermRW)
    requires FirstMatch(cfg.users, ro, roPass) == Option.Some(PermRO)
    requires cfg.maxConcurrent > 0 && data != [] && !Unsafe(path)
    ensures var c := Run(cfg, Connect(w), LoweredLogin(rw, rwPass, ro, roPass, path, w.nextTask, data));
      && c.session.authenticated && c.session.perm == PermRO
      && |c.log| == 4 && c.log[3].effects == [Wrote(w.files.nextHandle, |data|)]
      && Content(c.world.files, Target(w.files, path)) == data
  {
    var events := LoweredLogin(rw, rwPass, ro, roPass, path, w.nextTask, data);
    var c1 := Step(cfg, Connect(w), events[0]);
    var c2 := Step(cfg, c1, events[1]);
    var c3 := Step(cfg, c2, events[2]);
    FourSteps(cfg, Connect(w), events);
  }

  lemma FourSteps(cfg: Limits, c: Connection, events: seq<Event>)
    requires |events| == 4
    ensures Run(cfg, c, events)
      == Step(cfg, Step(cfg, Step(cfg, Step(cfg, c, events[0]), events[1]), events[2]), events[3])
  {
    hide Step;
    RunFirst(cfg, c, events);
    RunFirst(cfg, Step(cfg, c, events[0]), events[1..]);
    RunFirst(cfg, Step(cfg, Step(cfg, c, events[0]), events[1]), events[1..][1..]);
    RunFirst(cfg, Step(cfg, Step(cfg, Step(cfg, c, events[0]), events[1]), events[2]), events[1..][1..][1..]);
  }

  lemma RunFirst(cfg: Limits, c: Connection, events: seq<Event>)
    requires events != []
    ensures Run(cfg, c, events) == Run(cfg, Step(cfg, c, events[0]), events[1..])
  {
  }
}
