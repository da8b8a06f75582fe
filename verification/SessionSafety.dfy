/** What holds in every state of every connection, whatever the clients send. */
module SessionSafety {
  import opened Bytes
  import opened Storage
  import opened Config
  import opened SessionModel

  // --- The invariant ---

  /** The task holds an open file of the right mode, so a resume never revives a closed task. */
  ghost predicate TaskOk(open: map<nat, Handle>, t: Task) {
    && t.file.Some?
    && t.file.value in open
    && (open[t.file.value].mode.Writing? <==> t.direction.Upload?)
    && (t.status.Running? || t.status.Paused?)
  }

  ghost predicate IdsDecrease(tasks: seq<Task>, bound: nat) {
    && (forall i | 0 <= i < |tasks| :: tasks[i].id < bound)
    && (forall i, j | 0 <= i < j < |tasks| :: tasks[i].id > tasks[j].id)
  }

  ghost predicate FilesDistinct(tasks: seq<Task>) {
    forall i, j | 0 <= i < j < |tasks| :: tasks[i].file != tasks[j].file
  }

  ghost predicate TasksOk(open: map<nat, Handle>, tasks: seq<Task>) {
    forall i | 0 <= i < |tasks| :: TaskOk(open, tasks[i])
  }

  ghost predicate ListOk(w: World, tasks: seq<Task>) {
    IdsDecrease(tasks, w.nextTask) && FilesDistinct(tasks) && TasksOk(w.files.open, tasks)
  }

  /** The state between two commands. */
  ghost predicate Inv(cfg: Limits, w: World, s: Session) {
    && WellFormed(w.files)
    && s.taskCount == |s.tasks|
    && (s.tasks != [] ==> |s.tasks| <= cfg.maxConcurrent)
    && ListOk(w, s.tasks)
    && (!s.authenticated ==> s.tasks == [] && s.perm == PermNone)
  }

  ghost function Handles(tasks: seq<Task>): set<nat> {
    set t | t in tasks && t.file.Some? :: t.file.value
  }

  ghost function Ids(tasks: seq<Task>): set<nat> {
    set t | t in tasks :: t.id
  }

  /** What a session relies on the others for: its own handles stay as they are and no counter goes back. */
  ghost predicate Rely(w: World, w': World, mine: set<nat>) {
    && WellFormed(w'.files)
    && w.nextTask <= w'.nextTask
    && w.files.nextHandle <= w'.files.nextHandle
    && w.files.nextFile <= w'.files.nextFile
    && forall h | h in mine && h in w.files.open :: h in w'.files.open && w'.files.open[h] == w.files.open[h]
  }

  // --- The lists ---

  lemma PutKeeps(w: World, tasks: seq<Task>, t: Task)
    requires ListOk(w, tasks) && Listed(tasks, t.id)
    requires t.file == Get(tasks, t.id).file && TaskOk(w.files.open, t)
    ensures ListOk(w, Put(tasks, t)) && |Put(tasks, t)| == |tasks|
    ensures Handles(Put(tasks, t)) == Handles(tasks) && Ids(Put(tasks, t)) == Ids(tasks)
  {
    hide TaskOk;
    var r := Put(tasks, t);
    assert forall i | 0 <= i < |tasks| :: r[i].file == tasks[i].file && r[i].id == tasks[i].id;
    forall x ensures x in Ids(r) <==> x in Ids(tasks) {
      if x in Ids(r) {
        var i :| 0 <= i < |r| && r[i].id == x;
        assert tasks[i] in tasks;
      }
      if x in Ids(tasks) {
        var i :| 0 <= i < |tasks| && tasks[i].id == x;
        assert r[i] in r;
      }
    }
    forall h ensures h in Handles(r) <==> h in Handles(tasks) {
      if h in Handles(r) {
        var i :| 0 <= i < |r| && r[i].file == Option.Some(h);
        assert tasks[i] in tasks;
      }
      if h in Handles(tasks) {
        var i :| 0 <= i < |tasks| && tasks[i].file == Option.Some(h);
        assert r[i] in r;
      }
    }
  }

  /** What remains after `id` left, in the order it had. */
  lemma WithoutShape(tasks: seq<Task>, id: nat)
    requires Listed(tasks, id)
    ensures var k, r := Position(tasks, id), Without(tasks, id);
      && |r| == |tasks| - 1
      && (forall i | 0 <= i < k :: r[i] == tasks[i])
      && (forall i | k <= i < |r| :: r[i] == tasks[i + 1])
      && (forall t | t in tasks :: t in r || t == tasks[k])
      && (forall t | t in r :: t in tasks)
  {
    var k, r := Position(tasks, id), Without(tasks, id);
    assert forall i | 0 <= i < |r| :: r[i] == tasks[if i < k then i else i + 1];
    hide *;
    forall j | 0 <= j < |tasks| && j != k ensures tasks[j] in r {
      assert tasks[j] == r[if j < k then j else j - 1];
    }
  }

  lemma SubListIds(tasks: seq<Task>, r: seq<Task>, k: nat, bound: nat)
    requires k < |tasks| && |r| == |tasks| - 1
    requires forall i | 0 <= i < |r| :: r[i] == tasks[if i < k then i else i + 1]
    ensures IdsDecrease(tasks, bound) ==> IdsDecrease(r, bound)
  {
  }

  lemma SubListFiles(tasks: seq<Task>, r: seq<Task>, k: nat)
    requires k < |tasks| && |r| == |tasks| - 1
    requires forall i | 0 <= i < |r| :: r[i] == tasks[if i < k then i else i + 1]
    ensures FilesDistinct(tasks) ==> FilesDistinct(r) && forall i | 0 <= i < |r| :: r[i].file != tasks[k].file
  {
  }

  lemma WithoutKeeps(w: World, w': World, tasks: seq<Task>, id: nat)
    requires ListOk(w, tasks) && Listed(tasks, id) && Get(tasks, id).file.Some?
    requires w'.nextTask == w.nextTask && w'.files.open == w.files.open - {Get(tasks, id).file.value}
    ensures ListOk(w', Without(tasks, id)) && |Without(tasks, id)| == |tasks| - 1
    ensures Handles(tasks) == Handles(Without(tasks, id)) + {Get(tasks, id).file.value}
    ensures Get(tasks, id).file.value !in Handles(Without(tasks, id))
  {
    var k, r := Position(tasks, id), Without(tasks, id);
    WithoutShape(tasks, id);
    hide Without, Position, Listed, WellFormed, IdsDecrease, FilesDistinct, TasksOk, Handles;
    assert forall i | 0 <= i < |r| :: r[i] == tasks[if i < k then i else i + 1];
    SubListIds(tasks, r, k, w.nextTask);
    SubListFiles(tasks, r, k);
    SubListOk(w.files.open, tasks, r, k);
    SubListHandles(tasks, r, k);
  }

  lemma SubListOk(open: map<nat, Handle>, tasks: seq<Task>, r: seq<Task>, k: nat)
    requires k < |tasks| && |r| == |tasks| - 1 && tasks[k].file.Some?
    requires forall i | 0 <= i < |r| :: r[i] == tasks[if i < k then i else i + 1] && r[i].file != tasks[k].file
    requires TasksOk(open, tasks)
    ensures TasksOk(open - {tasks[k].file.value}, r)
  {
    forall i | 0 <= i < |r| ensures TaskOk(open - {tasks[k].file.value}, r[i]) {
      assert TaskOk(open, tasks[if i < k then i else i + 1]);
    }
  }

  lemma SubListHandles(tasks: seq<Task>, r: seq<Task>, k: nat)
    requires k < |tasks| && tasks[k].file.Some?
    requires forall i | 0 <= i < |r| :: r[i].file != tasks[k].file
    requires (forall t | t in tasks :: t in r || t == tasks[k]) && (forall t | t in r :: t in tasks)
    ensures Handles(tasks) == Handles(r) + {tasks[k].file.value} && tasks[k].file.value !in Handles(r)
  {
  }

  lemma {:induction false} CloseAllOpens(fs: Files, tasks: seq<Task>)
    ensures CloseAll(fs, tasks) == fs.(open := fs.open - Handles(tasks))
    decreases |tasks|
  {
    if tasks == [] {
      assert Handles(tasks) == {};
    } else {
      CloseAllOpens(CloseFile(fs, tasks[0].file), tasks[1..]);
      assert tasks == [tasks[0]] + tasks[1..];
      assert Handles(tasks) == Handles(tasks[1..]) + (if tasks[0].file.Some? then {tasks[0].file.value} else {});
    }
  }

  /** No listed task holds a handle that is still to be given out. */
  lemma HandlesBelow(w: World, tasks: seq<Task>)
    requires WellFormed(w.files) && ListOk(w, tasks)
    ensures forall h | h in Handles(tasks) :: h in w.files.open && h < w.files.nextHandle
  {
    forall t | t in tasks && t.file.Some? ensures t.file.value in w.files.open {
      var i :| 0 <= i < |tasks| && tasks[i] == t;
      assert TaskOk(w.files.open, tasks[i]);
    }
  }

  lemma RelyKeeps(cfg: Limits, w: World, w': World, s: Session)
    requires Inv(cfg, w, s) && Rely(w, w', Handles(s.tasks))
    ensures Inv(cfg, w', s)
  {
    forall i | 0 <= i < |s.tasks| ensures TaskOk(w'.files.open, s.tasks[i]) {
      assert TaskOk(w.files.open, s.tasks[i]);
      assert s.tasks[i].file.value in Handles(s.tasks);
    }
  }

  // --- One command: the invariant again, and what the other sessions rely on ---

  /** `w'` is `w` with more handles and files, seen by sessions that hold none of the handles in `mine`. */
  ghost predicate Spares(w: World, w': World, mine: set<nat>) {
    && WellFormed(w'.files)
    && w.nextTask <= w'.nextTask
    && w.files.nextHandle <= w'.files.nextHandle
    && w.files.nextFile <= w'.files.nextFile
    && forall h | h in w.files.open && h !in mine :: h in w'.files.open && w'.files.open[h] == w.files.open[h]
  }

  /** The outcome of a command: nothing but the session's own handles is touched, and new ones are new to all. */
  ghost predicate Good(cfg: Limits, w: World, s: Session, w': World, s': Session) {
    && Inv(cfg, w', s')
    && Spares(w, w', Handles(s.tasks))
    && (forall h | h in Handles(s'.tasks) :: h in Handles(s.tasks) || w.files.nextHandle <= h < w'.files.nextHandle)
    && (forall id | id in Ids(s'.tasks) :: id in Ids(s.tasks) || w.nextTask <= id < w'.nextTask)
  }

  lemma GoodInv(cfg: Limits, w: World, s: Session, w': World, s': Session)
    ensures Good(cfg, w, s, w', s') ==> Inv(cfg, w', s')
  {
  }

  lemma AddTaskGood(cfg: Limits, w: World, s: Session, files: Files, direction: Direction, size: nat)
    requires Inv(cfg, w, s) && s.authenticated && s.taskCount < cfg.maxConcurrent
    requires WellFormed(files) && w.files.nextFile <= files.nextFile && files.nextHandle == w.files.nextHandle + 1
    requires w.files.nextHandle in files.open && files.open - {w.files.nextHandle} == w.files.open
    requires files.open[w.files.nextHandle].mode.Writing? <==> direction.Upload?
    ensures var (w', s') := AddTask(w.(files := files), s, direction, size, w.files.nextHandle); Good(cfg, w, s, w', s')
  {
    var h := w.files.nextHandle;
    var (w', s') := AddTask(w.(files := files), s, direction, size, h);
    HandlesBelow(w, s.tasks);
    forall i | 0 <= i < |s.tasks| ensures s.tasks[i].file.value < h && TaskOk(files.open, s.tasks[i]) {
      assert TaskOk(w.files.open, s.tasks[i]);
      assert s.tasks[i].file.value in files.open - {h};
    }
    hide WellFormed;
    assert forall i | 0 < i < |s'.tasks| :: s'.tasks[i] == s.tasks[i - 1];
    assert ListOk(w', s'.tasks);
    assert forall x | x in w.files.open :: x in files.open - {h};
    forall x | x in Ids(s'.tasks) ensures x in Ids(s.tasks) || x == w.nextTask {
      var i :| 0 <= i < |s'.tasks| && s'.tasks[i].id == x;
      if i > 0 { assert s.tasks[i - 1] in s.tasks; }
    }
    forall x | x in Handles(s'.tasks) ensures x in Handles(s.tasks) || x == h {
      var i :| 0 <= i < |s'.tasks| && s'.tasks[i].file == Option.Some(x);
      if i > 0 { assert s.tasks[i - 1] in s.tasks; }
    }
  }

  lemma StartGood(cfg: Limits, w: World, s: Session, path: string, size: nat, opens: bool)
    requires Inv(cfg, w, s)
    ensures var o := HandleUploadStart(cfg, w, s, path, size, opens); Good(cfg, w, s, o.world, o.session)
    ensures var o := HandleDownloadStart(cfg, w, s, path, opens); Good(cfg, w, s, o.world, o.session)
  {
    HandlesBelow(w, s.tasks);
    var h := w.files.nextHandle;
    assert OpenWrite(w.files, path).open - {h} == w.files.open;
    if path in w.files.names {
      assert OpenRead(w.files, path).open - {h} == w.files.open;
    }
    hide Unsafe, ListOk;
    if HandleUploadStart(cfg, w, s, path, size, opens).reply.Started? {
      AddTaskGood(cfg, w, s, OpenWrite(w.files, path), Upload, size);
    }
    if HandleDownloadStart(cfg, w, s, path, opens).reply.Started? {
      AddTaskGood(cfg, w, s, OpenRead(w.files, path), Download, |Content(w.files, w.files.names[path])| % UINT32_SIZE);
    }
  }

  lemma PutGood(cfg: Limits, w: World, s: Session, w': World, t: Task)
    requires Inv(cfg, w, s) && Listed(s.tasks, t.id)
    requires w'.nextTask == w.nextTask && w'.files == w.files.(contents := w'.files.contents)
    requires t.file == Get(s.tasks, t.id).file && t.direction == Get(s.tasks, t.id).direction && !t.status.Completed?
    ensures Good(cfg, w, s, w', s.(tasks := Put(s.tasks, t)))
  {
    HandlesBelow(w, s.tasks);
    assert TaskOk(w.files.open, Get(s.tasks, t.id));
    PutKeeps(w, s.tasks, t);
    hide Put, Listed, Position, IdsDecrease, FilesDistinct, TasksOk;
  }

  lemma DataGood(cfg: Limits, w: World, s: Session, id: nat, offset: nat, data: seq<byte>, room: nat)
    requires Inv(cfg, w, s)
    ensures var o := HandleUploadData(w, s, id, offset, data, room); Good(cfg, w, s, o.world, o.session)
    ensures var o := HandleDownloadData(cfg, w, s, id); Good(cfg, w, s, o.world, o.session)
  {
    hide WriteAt, Read, Position, Put, Writable;
    if s.authenticated && Listed(s.tasks, id) {
      var t := Get(s.tasks, id);
      if t.status == Running && t.file.Some? {
        var w' := w.(files := Write(w.files, t.file.value, offset, data, room));
        PutGood(cfg, w, s, w', t.(transferred := (t.transferred + |data|) % UINT32_SIZE));
        var n := |Read(w.files, t.file.value, t.transferred, cfg.bufferSize)|;
        PutGood(cfg, w, s, w, t.(transferred := (t.transferred + n) % UINT32_SIZE));
        hide Write, IdsDecrease, FilesDistinct, TasksOk, Listed;
      }
    }
  }

  lemma FewerTasks(tasks: seq<Task>, r: seq<Task>)
    requires forall t | t in r :: t in tasks
    ensures Ids(r) <= Ids(tasks)
  {
  }

  /** One task and its handle gone. */
  lemma RemovalGood(cfg: Limits, w: World, s: Session, r: seq<Task>, h: nat)
    requires Inv(cfg, w, s) && s.authenticated && |r| == |s.tasks| - 1
    requires ListOk(w.(files := Close(w.files, h)), r)
    requires h in Handles(s.tasks) && Handles(r) <= Handles(s.tasks) && Ids(r) <= Ids(s.tasks)
    ensures Good(cfg, w, s, w.(files := Close(w.files, h)), s.(tasks := r, taskCount := s.taskCount - 1))
  {
    hide ListOk, Handles, Ids;
  }

  lemma EndGood(cfg: Limits, w: World, s: Session, id: nat)
    requires Inv(cfg, w, s)
    ensures var o := HandleEnd(w, s, id); Good(cfg, w, s, o.world, o.session)
  {
    if s.authenticated && Listed(s.tasks, id) {
      var t, r := Get(s.tasks, id), Without(s.tasks, id);
      assert TaskOk(w.files.open, t);
      WithoutKeeps(w, w.(files := Close(w.files, t.file.value)), s.tasks, id);
      WithoutShape(s.tasks, id);
      FewerTasks(s.tasks, r);
      hide Without, ListOk, Position, Handles, Ids, Listed, Get, Good, Inv;
      RemovalGood(cfg, w, s, r, t.file.value);
    } else {
      NamesGood(cfg, w, s, w, s);
      hide Position, Good, Inv;
    }
  }

  lemma CleanupGood(cfg: Limits, w: World, s: Session)
    requires Inv(cfg, w, s)
    ensures var (w', s') := CleanupTasks(w, s); s'.taskCount == 0 && Good(cfg, w, s, w', s')
    ensures var o := HandleLogout(w, s); Good(cfg, w, s, o.world, o.session)
  {
    HandlesBelow(w, s.tasks);
    CloseAllOpens(w.files, s.tasks);
  }

  lemma EditGood(cfg: Limits, w: World, s: Session, path: string, content: seq<byte>, room: nat)
    requires Inv(cfg, w, s)
    ensures var h := w.files.nextHandle;
      Good(cfg, w, s, w.(files := Close(Write(OpenWrite(w.files, path), h, 0, content, room), h)), s)
  {
    HandlesBelow(w, s.tasks);
    var h := w.files.nextHandle;
    var fs := Close(Write(OpenWrite(w.files, path), h, 0, content, room), h);
    hide WriteAt, ListOk;
    assert fs.open == w.files.open;
    assert WellFormed(fs);
    ListSame(w, w.(files := fs), s.tasks);
    assert Inv(cfg, w.(files := fs), s);
  }

  lemma ListSame(w: World, w': World, tasks: seq<Task>)
    requires ListOk(w, tasks) && w'.nextTask == w.nextTask && w'.files.open == w.files.open
    ensures ListOk(w', tasks)
  {
  }

  lemma NamesGood(cfg: Limits, w: World, s: Session, w': World, s': Session)
    requires Inv(cfg, w, s) && WellFormed(w'.files)
    requires w' == w.(files := w.files.(names := w'.files.names))
    requires s' == s.(authenticated := s'.authenticated, username := s'.username, perm := s'.perm)
    requires s'.authenticated || s' == s
    ensures Good(cfg, w, s, w', s')
  {
    HandlesBelow(w, s.tasks);
    ListSame(w, w', s.tasks);
  }

  /** Every command, whatever its arguments, keeps the invariant and leaves the others' handles and ids alone. */
  lemma DispatchGood(cfg: Limits, w: World, s: Session, c: Command)
    requires Inv(cfg, w, s)
    ensures var o := Dispatch(cfg, w, s, c); Good(cfg, w, s, o.world, o.session)
  {
    hide Good, ListOk, Handles, Ids, HandleLogout, HandleUploadStart, HandleUploadData, HandleDownloadStart;
    hide HandleDownloadData, HandleStatus, HandleEnd, OpenWrite, Write, Unsafe, FirstMatch;
    var o := Dispatch(cfg, w, s, c);
    match c {
      case Logout => CleanupGood(cfg, w, s);
      case UploadStart(path, size, opens) => StartGood(cfg, w, s, path, size, opens);
      case DownloadStart(path, opens) => StartGood(cfg, w, s, path, 0, opens);
      case UploadData(id, offset, data, room) => DataGood(cfg, w, s, id, offset, data, room);
      case DownloadData(id) => DataGood(cfg, w, s, id, 0, [], 0);
      case Pause(id) => StatusGood(cfg, w, s, id, Paused);
      case Resume(id) => StatusGood(cfg, w, s, id, Running);
      case End(id) => EndGood(cfg, w, s, id);
      case Edit(path, content, parent, opens, room) =>
        EditGood(cfg, w, s, path, content, room);
        NamesGood(cfg, w, s, w, s);
      case Login(_, _) => NamesGood(cfg, w, s, o.world, o.session);
      case Delete(_, _) => NamesGood(cfg, w, s, o.world, o.session);
      case Rename(_, _, _) => NamesGood(cfg, w, s, o.world, o.session);
      case _ => NamesGood(cfg, w, s, o.world, o.session);
    }
  }

  lemma StatusGood(cfg: Limits, w: World, s: Session, id: nat, status: Status)
    requires Inv(cfg, w, s) && !status.Completed?
    ensures var o := HandleStatus(w, s, id, status); Good(cfg, w, s, o.world, o.session)
  {
    NamesGood(cfg, w, s, w, s);
    if s.authenticated && Listed(s.tasks, id) {
      PutGood(cfg, w, s, w, Get(s.tasks, id).(status := status));
    }
  }
}
