/** What one command does to one task and to one file: shared by the upload and the download results. */
module TaskProgress {
  import opened Bytes
  import opened Storage
  import opened Config
  import opened SessionModel
  import opened SessionSafety

  lemma GetInCons(t: Task, rest: seq<Task>, id: nat)
    ensures Listed([t] + rest, id) == (t.id == id || Listed(rest, id))
    ensures t.id == id ==> Get([t] + rest, id) == t
    ensures t.id != id && Listed(rest, id) ==> Get([t] + rest, id) == Get(rest, id)
  {
    assert ([t] + rest)[1..] == rest;
  }

  lemma PutInCons(tasks: seq<Task>, t: Task)
    requires Listed(tasks, t.id)
    ensures Put(tasks, t) == if tasks[0].id == t.id then [t] + tasks[1..] else [tasks[0]] + Put(tasks[1..], t)
  {
  }

  lemma WithoutInCons(tasks: seq<Task>, x: nat)
    requires Listed(tasks, x)
    ensures Without(tasks, x) == if tasks[0].id == x then tasks[1..] else [tasks[0]] + Without(tasks[1..], x)
  {
  }

  lemma {:induction false} GetAfterPut(tasks: seq<Task>, t: Task, id: nat)
    requires Listed(tasks, t.id)
    ensures Listed(Put(tasks, t), id) == Listed(tasks, id)
    ensures Listed(tasks, id) ==> Get(Put(tasks, t), id) == if id == t.id then t else Get(tasks, id)
  {
    var first, rest := tasks[0], tasks[1..];
    assert tasks == [first] + rest;
    GetInCons(first, rest, id);
    PutInCons(tasks, t);
    if first.id == t.id {
      GetInCons(t, rest, id);
    } else {
      GetAfterPut(rest, t, id);
      GetInCons(first, Put(rest, t), id);
    }
    hide Put, Listed, Get, Position;
  }

  lemma HeadUnique(tasks: seq<Task>, bound: nat)
    requires IdsDecrease(tasks, bound) && tasks != []
    ensures IdsDecrease(tasks[1..], bound) && !Listed(tasks[1..], tasks[0].id)
  {
    assert forall k | 0 <= k < |tasks| - 1 :: tasks[1..][k].id < tasks[0].id;
  }

  lemma {:induction false} GetAfterRemoval(tasks: seq<Task>, bound: nat, x: nat, id: nat)
    requires IdsDecrease(tasks, bound) && Listed(tasks, x)
    ensures Listed(Without(tasks, x), id) == (id != x && Listed(tasks, id))
    ensures id != x && Listed(tasks, id) ==> Get(Without(tasks, x), id) == Get(tasks, id)
  {
    assert tasks != [];
    hide *;
    HeadUnique(tasks, bound);
    WithoutInCons(tasks, x);
    HeadAndRest(tasks, id);
    HeadAndRest(tasks, x);
    if tasks[0].id != x {
      GetAfterRemoval(tasks[1..], bound, x, id);
      GetInCons(tasks[0], Without(tasks[1..], x), id);
    }
  }

  lemma HeadAndRest(tasks: seq<Task>, id: nat)
    requires tasks != []
    ensures Listed(tasks, id) == (tasks[0].id == id || Listed(tasks[1..], id))
    ensures tasks[0].id == id ==> Get(tasks, id) == tasks[0]
    ensures tasks[0].id != id && Listed(tasks[1..], id) ==> Get(tasks, id) == Get(tasks[1..], id)
  {
  }

  /** The byte count of `id` after a command with this reply. */
  function Advanced(t: Task, c: Command, reply: Reply): nat {
    match (c, reply)
    case (UploadData(id, _, data, _), Progress(_, _)) =>
      if id == t.id then (t.transferred + |data|) % UINT32_SIZE else t.transferred
    case (DownloadData(id), Data(_, _, bytes)) =>
      if id == t.id then (t.transferred + |bytes|) % UINT32_SIZE else t.transferred
    case _ => t.transferred
  }

  /** The status of task `id` after a command. */
  function StatusAfter(t: Task, c: Command): Status {
    match c
    case Pause(id) => if id == t.id then Paused else t.status
    case Resume(id) => if id == t.id then Running else t.status
    case _ => t.status
  }

  predicate OnTask(c: Command) {
    c.UploadData? || c.DownloadData? || c.Pause? || c.Resume?
  }

  /** Data and status commands replace the task they name by itself, with progress and status brought up to date. */
  lemma OnTaskPuts(cfg: Limits, w: World, s: Session, c: Command)
    requires s.authenticated && OnTask(c) && Listed(s.tasks, c.id)
    ensures var o, u := Dispatch(cfg, w, s, c), Get(s.tasks, c.id);
      var u' := u.(transferred := Advanced(u, c, o.reply), status := StatusAfter(u, c));
      o.session.tasks == s.tasks || o.session.tasks == Put(s.tasks, u')
    ensures var o, u := Dispatch(cfg, w, s, c), Get(s.tasks, c.id);
      o.session.tasks == s.tasks ==> u.(transferred := Advanced(u, c, o.reply), status := StatusAfter(u, c)) == u
  {
    hide Position, Write, Writable, Read, Listed;
  }

  lemma OnTaskAfter(cfg: Limits, w: World, s: Session, c: Command, id: nat)
    requires Listed(s.tasks, id) && s.authenticated && OnTask(c)
    ensures var o, t := Dispatch(cfg, w, s, c), Get(s.tasks, id);
      && Listed(o.session.tasks, id)
      && Get(o.session.tasks, id) == t.(transferred := Advanced(t, c, o.reply), status := StatusAfter(t, c))
  {
    if Listed(s.tasks, c.id) {
      var u := Get(s.tasks, c.id);
      OnTaskPuts(cfg, w, s, c);
      var reply := Dispatch(cfg, w, s, c).reply;
      GetAfterPut(s.tasks, u.(transferred := Advanced(u, c, reply), status := StatusAfter(u, c)), id);
      hide Dispatch, Put, Listed, Get, Position, UINT32_SIZE;
    } else {
      hide Position, Write, Read, Writable;
    }
  }

  /** What `TaskAfter` says of one command. */
  ghost predicate Evolves(s: Session, c: Command, o: Outcome, id: nat)
    requires Listed(s.tasks, id)
  {
    var t := Get(s.tasks, id);
    && Listed(o.session.tasks, id) == !(c.Logout? || c == End(id))
    && (Listed(o.session.tasks, id) ==>
          Get(o.session.tasks, id) == t.(transferred := Advanced(t, c, o.reply), status := StatusAfter(t, c)))
  }

  /** A start either leaves the list alone or puts one task with a fresh id in front. */
  lemma StartAdds(cfg: Limits, w: World, s: Session, c: Command)
    requires c.UploadStart? || c.DownloadStart?
    ensures var tasks := Dispatch(cfg, w, s, c).session.tasks;
      tasks == s.tasks || (tasks != [] && tasks[0].id == w.nextTask && tasks == [tasks[0]] + s.tasks)
  {
    hide OpenWrite, OpenRead, Unsafe, Content, UINT32_SIZE;
  }

  lemma StartAfter(cfg: Limits, w: World, s: Session, c: Command, id: nat)
    requires Listed(s.tasks, id) && IdsDecrease(s.tasks, w.nextTask) && (c.UploadStart? || c.DownloadStart?)
    ensures Evolves(s, c, Dispatch(cfg, w, s, c), id)
  {
    var tasks := Dispatch(cfg, w, s, c).session.tasks;
    StartAdds(cfg, w, s, c);
    assert id < w.nextTask;
    hide *;
    if tasks != s.tasks { GetInCons(tasks[0], s.tasks, id); }
    SameTask(s, c, Dispatch(cfg, w, s, c), id);
  }

  /** A start touches no task that is listed. */
  lemma SameTask(s: Session, c: Command, o: Outcome, id: nat)
    requires Listed(s.tasks, id) && (c.UploadStart? || c.DownloadStart?)
    requires Listed(o.session.tasks, id) && Get(o.session.tasks, id) == Get(s.tasks, id)
    ensures Evolves(s, c, o, id)
  {
    hide Listed, Get;
  }

  lemma EndAfter(cfg: Limits, w: World, s: Session, c: Command, id: nat)
    requires Listed(s.tasks, id) && s.authenticated && IdsDecrease(s.tasks, w.nextTask) && (c.End? || c.Logout?)
    ensures Evolves(s, c, Dispatch(cfg, w, s, c), id)
  {
    EndLeaves(cfg, w, s, c);
    if c.End? && Listed(s.tasks, c.id) { GetAfterRemoval(s.tasks, w.nextTask, c.id, id); }
    hide Without, Get, Listed, Position, IdsDecrease, Dispatch;
    NoTasks(id);
  }

  lemma NoTasks(id: nat)
    ensures !Listed([], id)
  {
  }

  lemma EndLeaves(cfg: Limits, w: World, s: Session, c: Command)
    requires s.authenticated && (c.End? || c.Logout?)
    ensures Dispatch(cfg, w, s, c).session.tasks
      == if c.Logout? then [] else if Listed(s.tasks, c.id) then Without(s.tasks, c.id) else s.tasks
  {
    hide Without, Get, CloseAll, Position, ClosingAll;
  }

  lemma OtherAfter(cfg: Limits, w: World, s: Session, c: Command, id: nat)
    requires Listed(s.tasks, id)
    requires c.Login? || c.Query? || c.Heartbeat? || c.Unknown? || c.Delete? || c.Rename? || c.Edit?
    ensures Evolves(s, c, Dispatch(cfg, w, s, c), id)
  {
    hide Position, OpenWrite, Write, Unsafe, FirstMatch, Listed, Get, WriteGate;
  }

  /** A listed task leaves the list only by its own end or the logout, and only its own commands change it. */
  lemma TaskAfter(cfg: Limits, w: World, s: Session, c: Command, id: nat)
    requires Inv(cfg, w, s) && Listed(s.tasks, id)
    ensures Evolves(s, c, Dispatch(cfg, w, s, c), id)
  {
    assert s.authenticated && IdsDecrease(s.tasks, w.nextTask);
    hide Inv, Dispatch, IdsDecrease, Listed, Position, Get;
    if OnTask(c) {
      OnTaskAfter(cfg, w, s, c, id);
    } else if c.End? || c.Logout? {
      EndAfter(cfg, w, s, c, id);
    } else if c.UploadStart? || c.DownloadStart? {
      StartAfter(cfg, w, s, c, id);
    } else {
      OtherAfter(cfg, w, s, c, id);
    }
  }

  /** A handle that stays open stays a handle on the same file. */
  lemma HandlesKept(cfg: Limits, w: World, s: Session, c: Command, h: nat)
    requires WellFormed(w.files) && h in w.files.open && h in Dispatch(cfg, w, s, c).world.files.open
    ensures Dispatch(cfg, w, s, c).world.files.open[h] == w.files.open[h]
  {
    hide Position, WriteAt, Read, Put, Without, Unsafe, FirstMatch;
    if c.Logout? { CloseAllOpens(w.files, s.tasks); }
  }

  /** The command opens this file for writing. */
  predicate Aims(cfg: Limits, w: World, s: Session, c: Command, file: nat) {
    (c.UploadStart? || c.Edit?) && Dispatch(cfg, w, s, c).effects != [] && Target(w.files, c.path) == file
  }

  /** Data sent to this task would be written to the file. */
  predicate WritesTo(w: World, t: Task, file: nat) {
    t.file.Some? && t.file.value in w.files.open && w.files.open[t.file.value] == Handle(file, Writing)
  }

  /** The only other way to change a file is upload data to a task that writes to it. */
  lemma ContentKept(cfg: Limits, w: World, s: Session, c: Command, file: nat)
    requires WellFormed(w.files) && !Aims(cfg, w, s, c, file)
    requires c.UploadData? && Listed(s.tasks, c.id) ==> !WritesTo(w, Get(s.tasks, c.id), file)
    ensures Content(Dispatch(cfg, w, s, c).world.files, file) == Content(w.files, file)
  {
    if c.UploadData? {
      DataElsewhere(cfg, w, s, c, file);
    } else if c.Logout? {
      CloseAllOpens(w.files, s.tasks);
    } else {
      hide Position, WriteAt, Read, Put, Without, Unsafe, FirstMatch;
    }
  }

  lemma DataElsewhere(cfg: Limits, w: World, s: Session, c: Command, file: nat)
    requires c.UploadData? && (Listed(s.tasks, c.id) ==> !WritesTo(w, Get(s.tasks, c.id), file))
    ensures Content(Dispatch(cfg, w, s, c).world.files, file) == Content(w.files, file)
  {
    hide Position, WriteAt, Put;
  }

  /** Upload tasks after a command: those of before, and at most a new one on the file the command aims at. */
  lemma WritersFrom(cfg: Limits, w: World, s: Session, c: Command, t: Task)
    requires Inv(cfg, w, s) && t in Dispatch(cfg, w, s, c).session.tasks && t.direction.Upload?
    ensures var o := Dispatch(cfg, w, s, c);
      || (exists u :: u in s.tasks && u.direction.Upload? && u.file == t.file && u.id == t.id)
      || (&& t.id == w.nextTask && t.file == Option.Some(w.files.nextHandle) && w.files.nextHandle in o.world.files.open
          && Aims(cfg, w, s, c, o.world.files.open[w.files.nextHandle].file))
  {
    hide Position, Unsafe, FirstMatch, CloseAll, Write, Read, WriteAt, Writable;
    var o := Dispatch(cfg, w, s, c);
    if t !in s.tasks {
      if OnTask(c) {
        var u := Get(s.tasks, c.id);
        assert u in s.tasks;
      }
    }
  }
}
