/** Which reply a command gets, across all handlers, and what a refusal and an edit leave behind. */
module Outcomes {
  import opened Bytes
  import opened Storage
  import opened Config
  import opened SessionModel
  import opened SessionSafety
  import opened TaskProgress

  /** A refused command has done nothing at all, except where the device ran full. */
  lemma RefusalHarmless(cfg: Limits, w: World, s: Session, c: Command)
    requires Dispatch(cfg, w, s, c).reply.Refused? && Dispatch(cfg, w, s, c).reply != Refused(ServerInternal)
    ensures var o := Dispatch(cfg, w, s, c); o.world == w && o.session == s && o.effects == []
  {
    hide Position, Put, Without, Unsafe, FirstMatch, Write, Writable, Read, OpenWrite, CloseAll;
  }

  predicate NeedsLogin(c: Command) {
    !c.Login? && !c.Logout? && !c.Heartbeat? && !c.Unknown?
  }

  predicate NeedsWrite(c: Command) {
    c.Delete? || c.Rename? || c.Edit? || c.UploadStart?
  }

  /** Who is turned away at the door: both directions, for every command. */
  lemma TurnedAway(cfg: Limits, w: World, s: Session, c: Command)
    ensures var reply := Dispatch(cfg, w, s, c).reply;
      && (reply == Refused(NotAuthenticated) <==> NeedsLogin(c) && !s.authenticated)
      && (reply == Refused(PermissionDenied) <==> NeedsWrite(c) && s.authenticated && s.perm != PermRW)
      && (reply == Refused(ResourceBusy) <==>
            && (c.UploadStart? || c.DownloadStart?) && s.authenticated && (c.UploadStart? ==> s.perm == PermRW)
            && s.taskCount >= cfg.maxConcurrent)
      && (reply == Refused(AuthFailed) <==>
            && c.Login?
            && forall k | 0 <= k < |cfg.users| ::
              !(cfg.users[k].username == c.username && cfg.users[k].password == c.passwordMd5))
      && (reply == Refused(TransferAborted) <==>
            && (c.UploadData? || c.DownloadData?) && s.authenticated && Listed(s.tasks, c.id)
            && (Get(s.tasks, c.id).status != Running || Get(s.tasks, c.id).file.None?))
  {
    if c.Login? { FirstMatchAt(cfg.users, c.username, c.passwordMd5, PermNone); }
    hide Position, Put, Without, Unsafe, FirstMatch, Write, Writable, Read, OpenWrite, CloseAll;
  }

  // --- Exactly when each command succeeds, and the faults in order ---

  /** No two dots in a row. */
  predicate Safe(path: string) {
    forall i | 0 <= i < |path| - 1 :: !(path[i] == '.' && path[i + 1] == '.')
  }

  lemma SafeIs(path: string)
    ensures Safe(path) <==> !Unsafe(path)
  {
  }

  predicate MayWrite(s: Session) { s.authenticated && s.perm == PermRW }

  /** A login is accepted with the permission of the first entry that has both the name and the hash. */
  lemma LoginReplies(cfg: Limits, w: World, s: Session, username: string, hash: string, p: Permission)
    ensures var o := Dispatch(cfg, w, s, Login(username, hash));
      && o.world == w && o.effects == []
      && (o.reply == LoggedIn(p) <==>
            exists k: nat ::
              && k < |cfg.users| && cfg.users[k].username == username && cfg.users[k].password == hash
              && cfg.users[k].perm == p
              && forall j | 0 <= j < k :: !(cfg.users[j].username == username && cfg.users[j].password == hash))
      && (o.reply == LoggedIn(p) ==>
            o.session == s.(authenticated := true, perm := p,
                            username := if |username| <= 63 then username else username[..63]))
      && (o.reply.LoggedIn? || (o.reply == Refused(AuthFailed) && o.session == s))
  {
    FirstMatchAt(cfg.users, username, hash, p);
    hide FirstMatch;
  }

  /** A logout clears the login and closes all files; the others change nothing. */
  lemma PlainReplies(cfg: Limits, w: World, s: Session)
    ensures var o := Dispatch(cfg, w, s, Logout);
      && o.reply == Done
      && o.session == Session(false, "", PermNone, [], s.taskCount - |s.tasks|)
      && o.world == w.(files := w.files.(open := w.files.open - Handles(s.tasks)))
    ensures Dispatch(cfg, w, s, Heartbeat) == Outcome(w, s, Done, [])
    ensures Dispatch(cfg, w, s, Unknown) == Outcome(w, s, Refused(Failed), [])
    ensures Dispatch(cfg, w, s, Query)
      == Outcome(w, s, if s.authenticated then Done else Refused(NotAuthenticated), [])
  {
    CloseAllOpens(w.files, s.tasks);
  }

  lemma DeleteReplies(cfg: Limits, w: World, s: Session, path: string, succeeds: bool)
    ensures var o, found := Dispatch(cfg, w, s, Delete(path, succeeds)), path in w.files.names;
      && (o.reply == Done <==> MayWrite(s) && Safe(path) && found && succeeds)
      && (o.reply == Refused(InvalidPath) <==> MayWrite(s) && !Safe(path))
      && (o.reply == Refused(FileNotFound) <==> MayWrite(s) && Safe(path) && !found)
      && (o.reply == Refused(Failed) <==> MayWrite(s) && Safe(path) && found && !succeeds)
      && (o.reply == Done ==> path !in o.world.files.names)
  {
    SafeIs(path);
    hide Safe, Unsafe;
  }

  lemma RenameReplies(cfg: Limits, w: World, s: Session, from: string, to: string, succeeds: bool)
    ensures var o := Dispatch(cfg, w, s, Rename(from, to, succeeds));
      var valid, found := from != "" && Safe(from) && Safe(to), from in w.files.names;
      && (o.reply == Done <==> MayWrite(s) && valid && found && succeeds)
      && (o.reply == Refused(InvalidPath) <==> MayWrite(s) && !valid)
      && (o.reply == Refused(Failed) <==> MayWrite(s) && valid && !(found && succeeds))
      && (o.reply == Done ==> to in o.world.files.names && o.world.files.names[to] == w.files.names[from])
  {
    SafeIs(from);
    SafeIs(to);
    hide Safe, Unsafe;
  }

  lemma EditReplies(cfg: Limits, w: World, s: Session, path: string, content: seq<byte>, parent: bool, opens: bool,
                    room: nat)
    ensures var o := Dispatch(cfg, w, s, Edit(path, content, parent, opens, room));
      var valid, small := Safe(path) && (path in w.files.names || parent), |content| <= 65536;
      && (o.reply == Done <==> MayWrite(s) && valid && small && opens && |content| <= room)
      && (o.reply == Refused(InvalidPath) <==> MayWrite(s) && !valid)
      && (o.reply == Refused(FileTooLarge) <==> MayWrite(s) && valid && !small)
      && (o.reply == Refused(Failed) <==> MayWrite(s) && valid && small && !opens)
      && (o.reply == Refused(ServerInternal) <==> MayWrite(s) && valid && small && opens && room < |content|)
      && (o.effects == if MayWrite(s) && valid && small && opens then [Edited(path)] else [])
  {
    SafeIs(path);
    hide Safe, Unsafe, Write;
  }

  /** The two starts, with the task that the reply names at the head of the list. */
  lemma StartReplies(cfg: Limits, w: World, s: Session, path: string, size: nat, opens: bool)
    ensures var o, busy := Dispatch(cfg, w, s, UploadStart(path, size, opens)), s.taskCount >= cfg.maxConcurrent;
      && (o.reply.Started? <==> MayWrite(s) && !busy && Safe(path) && opens)
      && (o.reply.Started? ==> o.reply == Started(w.nextTask, size))
      && (o.reply == Refused(InvalidPath) <==> MayWrite(s) && !busy && !Safe(path))
      && (o.reply == Refused(Failed) <==> MayWrite(s) && !busy && Safe(path) && !opens)
    ensures var o, busy := Dispatch(cfg, w, s, DownloadStart(path, opens)), s.taskCount >= cfg.maxConcurrent;
      var found := opens && path in w.files.names;
      && (o.reply.Started? <==> s.authenticated && !busy && Safe(path) && found)
      && (o.reply.Started? ==>
            o.reply == Started(w.nextTask, |Content(w.files, w.files.names[path])| % 0x1_0000_0000))
      && (o.reply == Refused(InvalidPath) <==> s.authenticated && !busy && !Safe(path))
      && (o.reply == Refused(FileNotFound) <==> s.authenticated && !busy && Safe(path) && !found)
  {
    SafeIs(path);
    hide Safe, Unsafe, OpenWrite, OpenRead, Content;
  }

  /** The commands on a task: not listed, or what its status, its direction and the device allow. */
  lemma TaskReplies(cfg: Limits, w: World, s: Session, c: Command)
    requires Inv(cfg, w, s) && (OnTask(c) || c.End?)
    ensures var reply, listed := Dispatch(cfg, w, s, c).reply, s.authenticated && Listed(s.tasks, c.id);
      && (reply == Refused(Failed) <==> s.authenticated && !listed)
      && (c.Pause? || c.Resume? || c.End? ==> (reply.Progress? <==> listed))
      && (c.DownloadData? ==> (reply.Data? <==> listed && Get(s.tasks, c.id).status.Running?))
      && (c.UploadData? ==>
            && (reply.Progress? <==> listed && Get(s.tasks, c.id).status.Running? && Takes(Get(s.tasks, c.id), c))
            && (reply == Refused(ServerInternal) <==>
                  listed && Get(s.tasks, c.id).status.Running? && !Takes(Get(s.tasks, c.id), c)))
  {
    if s.authenticated && Listed(s.tasks, c.id) { assert TaskOk(w.files.open, Get(s.tasks, c.id)); }
    hide ListOk, Position, Put, Without, WriteAt, Read, IdsDecrease, FilesDistinct, Content, Listed, UINT32_SIZE;
  }

  /** All of the data gets written: nothing does through the handle of a download. */
  predicate Takes(t: Task, c: Command)
    requires c.UploadData?
  {
    c.data == [] || (t.direction.Upload? && |c.data| <= c.room)
  }

  /** What an edit makes of the files. */
  function EditedFiles(fs: Files, path: string, content: seq<byte>, room: nat): Files {
    Close(Write(OpenWrite(fs, path), fs.nextHandle, 0, content, room), fs.nextHandle)
  }

  lemma EditRuns(cfg: Limits, w: World, s: Session, c: Command)
    requires c.Edit? && Dispatch(cfg, w, s, c).effects != []
    ensures var o := Dispatch(cfg, w, s, c);
      && o.world.files == EditedFiles(w.files, c.path, c.content, c.room)
      && (o.reply == Done <==> |c.content| <= c.room)
  {
    hide Unsafe, WriteAt;
  }

  lemma EditedContent(fs: Files, path: string, content: seq<byte>, room: nat)
    requires WellFormed(fs)
    ensures var fs' := EditedFiles(fs, path, content, room);
      && fs'.names == fs.names[path := Target(fs, path)] && fs'.open == fs.open
      && Content(fs', Target(fs, path)) == content[..if |content| <= room then |content| else room]
      && forall file: nat | file != Target(fs, path) :: Content(fs', file) == Content(fs, file)
  {
    assert fs.open[fs.nextHandle := Handle(Target(fs, path), Writing)] - {fs.nextHandle} == fs.open;
  }

  /**
   An edit leaves exactly the new content under the path, or what fitted of it, and all other files and handles alone.
   */
  lemma EditReplaces(cfg: Limits, w: World, s: Session, c: Command, path: string)
    requires WellFormed(w.files) && c.Edit? && Dispatch(cfg, w, s, c).effects != []
    ensures var o := Dispatch(cfg, w, s, c);
      var n := if |c.content| <= c.room then |c.content| else c.room;
      && c.path in o.world.files.names
      && Content(o.world.files, o.world.files.names[c.path]) == c.content[..n]
      && (o.reply == Done <==> n == |c.content|)
      && o.world.files.open == w.files.open
      && (path != c.path && path in w.files.names ==>
            path in o.world.files.names && o.world.files.names[path] == w.files.names[path])
    ensures var o := Dispatch(cfg, w, s, c);
      forall file: nat | file != o.world.files.names[c.path] :: Content(o.world.files, file) == Content(w.files, file)
  {
    EditRuns(cfg, w, s, c);
    EditedContent(w.files, c.path, c.content, c.room);
    hide Dispatch, WellFormed, Content, EditedFiles;
  }

  /**
   A delete takes away one name and a rename moves one file to its new name; no content and no open handle notices.
   */
  lemma NamesMove(cfg: Limits, w: World, s: Session, c: Command, path: string)
    requires (c.Delete? || c.Rename?) && Dispatch(cfg, w, s, c).reply == Done
    ensures var o := Dispatch(cfg, w, s, c);
      var was, now := w.files.names, o.world.files.names;
      && o.world.files == w.files.(names := now) && o.session == s
      && (c.Delete? ==> c.path in was && (path in now <==> path in was && path != c.path))
      && (c.Rename? ==> c.from in was && c.to in now && now[c.to] == was[c.from])
      && (c.Rename? && path != c.to ==> (path in now <==> path in was && path != c.from))
      && (path in now && !(c.Rename? && path == c.to) ==> now[path] == was[path])
  {
    hide Unsafe;
  }

  /**
   Exactly when upload data is written. The permission is not among the conditions: an upload begun under RW can be
   written after the same session has logged in again with less.
   */
  lemma WritesExactly(cfg: Limits, w: World, s: Session, c: Command)
    requires Inv(cfg, w, s) && c.UploadData?
    ensures var o := Dispatch(cfg, w, s, c);
      o.effects != [] <==>
        && s.authenticated && Listed(s.tasks, c.id) && c.data != [] && c.room > 0
        && Get(s.tasks, c.id).direction.Upload? && Get(s.tasks, c.id).status.Running?
  {
    if s.authenticated && Listed(s.tasks, c.id) {
      assert TaskOk(w.files.open, Get(s.tasks, c.id));
    }
    hide Position, Put, Write, IdsDecrease, FilesDistinct;
  }

  /**
   What a successful reply tells about the task: the count after the command, the offset before it, the task just made.
   */
  lemma RepliesReport(cfg: Limits, w: World, s: Session, c: Command)
    requires Inv(cfg, w, s)
    ensures var o := Dispatch(cfg, w, s, c);
      match o.reply {
        case Progress(id, n) =>
          && (c.UploadData? || c.Pause? || c.Resume? || c.End?) && c.id == id && Listed(s.tasks, id)
          && (if c.End? then !Listed(o.session.tasks, id) && n == Get(s.tasks, id).transferred
              else Listed(o.session.tasks, id) && n == Get(o.session.tasks, id).transferred)
        case Data(id, offset, bytes) =>
          c == DownloadData(id) && Listed(s.tasks, id) && offset == Get(s.tasks, id).transferred
        case Started(id, size) =>
          && (c.UploadStart? || c.DownloadStart?)
          && var direction := if c.UploadStart? then Upload else Download;
            o.session.tasks == [Task(id, Option.Some(w.files.nextHandle), size, 0, direction, Running)] + s.tasks
        case _ => true
      }
  {
    var o := Dispatch(cfg, w, s, c);
    if o.reply.Progress? || o.reply.Data? {
      ReplyNames(cfg, w, s, c);
      TaskAfter(cfg, w, s, c, c.id);
      hide Dispatch, Inv, Listed, Get;
    } else {
      hide Inv, Position, Unsafe, FirstMatch, Write, OpenWrite, OpenRead, Content, CloseAll, UINT32_SIZE;
    }
  }

  lemma ReplyNames(cfg: Limits, w: World, s: Session, c: Command)
    requires Dispatch(cfg, w, s, c).reply.Progress? || Dispatch(cfg, w, s, c).reply.Data?
    ensures OnTask(c) || c.End?
    ensures Listed(s.tasks, c.id) && Dispatch(cfg, w, s, c).reply.id == c.id
    ensures var t, reply := Get(s.tasks, c.id), Dispatch(cfg, w, s, c).reply;
      if reply.Data? then c.DownloadData? && reply.offset == t.transferred
      else !c.DownloadData? && reply.transferred == Advanced(t, c, reply)
  {
    hide Position, Listed, Unsafe, FirstMatch, Write, Writable, Read, OpenWrite, Put, Without, CloseAll;
  }
}
