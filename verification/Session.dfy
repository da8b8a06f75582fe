/** The session object of server/src/session.c and the handlers of handler.c that change it, in place. */
module Sessions {
  import opened Bytes
  import opened Storage
  import opened Config
  import opened SessionModel
  import opened Lists

  /** The files and the static task id counter. */
  class Host {
    var files: Files
    var nextTask: nat

    function Now(): World
      reads this
    {
      World(files, nextTask)
    }

    constructor (w: World)
      ensures Now() == w
    {
      files := w.files;
      nextTask := w.nextTask;
    }
  }

  /** `client_session_t` */
  class ClientSession {
    var authenticated: bool
    var username: string
    var perm: Permission
    var tasks: Node?<Task>
    var taskCount: int
    ghost var nodes: seq<Node<Task>>   // the nodes from `tasks` on
    ghost var list: seq<Task>        // what they hold

    constructor ()
      ensures Valid() && nodes == [] && State() == NEW_SESSION
    {
      authenticated, username, perm, tasks, taskCount := false, "", PermNone, null, 0;
      nodes, list := [], [];
    }

    ghost predicate Valid()
      reads this, nodes
    {
      IsList(tasks, nodes, list)
    }

    ghost function State(): Session
      reads this
    {
      Session(authenticated, username, perm, list, taskCount)
    }

    // --- The task list ---

    /** The search that every transfer handler begins with. */
    method FindTask(id: nat) returns (node: Node?<Task>)
      requires Valid()
      ensures node == null <==> !Listed(list, id)
      ensures node != null ==>
        Position(list, id) < |nodes| && node == nodes[Position(list, id)] && node in nodes && node.data == Get(list, id)
    {
      node := tasks;
      ghost var k := 0;
      while node != null && node.data.id != id
        invariant k <= |nodes| && node == if k < |nodes| then nodes[k] else null
        invariant forall j | 0 <= j < k :: list[j].id != id
        decreases |nodes| - k
      {
        assert nodes[k].next == After(nodes, k);
        node := node.next;
        k := k + 1;
      }
    }

    /** `session_add_task` */
    method AddTask(host: Host, direction: Direction, size: nat, file: nat) returns (node: Node<Task>)
      requires Valid()
      modifies this, host
      ensures Valid() && fresh(node) && nodes == [node] + old(nodes)
      ensures (host.Now(), State()) == SessionModel.AddTask(old(host.Now()), old(State()), direction, size, file)
      ensures node.data.id == old(host.nextTask)
    {
      hide IsList;
      var t := Task(host.nextTask, Option.Some(file), size, 0, direction, Running);
      node := Push(tasks, t, nodes, list);
      host.nextTask := host.nextTask + 1;
      tasks := node;
      taskCount := taskCount + 1;
      nodes, list := [node] + nodes, [t] + list;
    }

    /** New field values for one listed task. */
    method UpdateTask(node: Node<Task>, t: Task)
      requires Valid() && Listed(list, t.id) && Position(list, t.id) < |nodes| && node == nodes[Position(list, t.id)]
      modifies this`list, node`data
      ensures Valid() && list == Put(old(list), t)
    {
      ghost var k := Position(list, t.id);
      hide Position, Distinct;
      DistinctFrom(nodes, k);
      node.data := t;
      list := list[k := t];
      forall i | 0 <= i < |nodes| ensures nodes[i].next == After(nodes, i) {
        assert old(nodes[i].next) == After(nodes, i);
      }
    }

    /** The walk of `session_remove_task`: `previous` holds the link that leads to the first matching node. */
    method FindLink(id: nat) returns (previous: Node?<Task>, current: Node?<Task>)
      requires Valid()
      ensures Position(list, id) <= |nodes| == |list|
      ensures var k := Position(list, id); current == if k < |nodes| then nodes[k] else null
      ensures var k := Position(list, id); previous == if k == 0 then null else nodes[k - 1]
      ensures current != null ==> current.data == list[Position(list, id)]
    {
      previous, current := null, tasks;
      ghost var k := 0;
      while current != null && current.data.id != id
        invariant k <= |nodes| && current == (if k < |nodes| then nodes[k] else null)
        invariant previous == if k == 0 then null else nodes[k - 1]
        invariant forall j | 0 <= j < k :: list[j].id != id
        decreases |nodes| - k
      {
        assert nodes[k].next == After(nodes, k);
        previous, current := current, current.next;
        k := k + 1;
      }
    }

    /** `*ptr = task->next` */
    method DropNode(previous: Node?<Task>, current: Node<Task>, ghost k: nat)
      requires Valid() && k < |nodes| && current == nodes[k]
      requires previous == if k == 0 then null else nodes[k - 1]
      modifies this`tasks, this`nodes, this`list, nodes`next
      ensures Valid() && k < |old(list)|
      ensures nodes == old(nodes)[..k] + old(nodes)[k + 1..] && list == old(list)[..k] + old(list)[k + 1..]
    {
      assert |nodes| == |list|;
      hide *;
      tasks := Detach(tasks, previous, current, k, nodes, list);
      nodes, list := nodes[..k] + nodes[k + 1..], list[..k] + list[k + 1..];
    }

    /** `session_remove_task` */
    method RemoveTask(host: Host, id: nat)
      requires Valid()
      modifies this, nodes, host
      ensures Valid()
      ensures var k := Position(old(list), id);
        nodes == if k < |old(nodes)| then old(nodes)[..k] + old(nodes)[k + 1..] else old(nodes)
      ensures forall i | 0 <= i < |nodes| :: nodes[i] in old(nodes)
      ensures State() == old(State()).(
        tasks := Without(old(list), id), taskCount := old(taskCount) - (if Listed(old(list), id) then 1 else 0))
      ensures host.nextTask == old(host.nextTask)
      ensures host.files ==
        if Listed(old(list), id) then CloseFile(old(host.files), Get(old(list), id).file) else old(host.files)
    {
      hide IsList, Position, Listed, Get, Without;
      var previous, current := FindLink(id);
      ghost var k := Position(list, id);
      FoundAt(list, id, k);
      if current != null {
        var task := current.data;
        AllFrom(nodes, k);
        DropNode(previous, current, k);
        if task.file.Some? { host.files := Close(host.files, task.file.value); }
        taskCount := taskCount - 1;
      }
    }

    /** `tasks = tasks->next` */
    method DropHead() returns (task: Task)
      requires Valid() && tasks != null
      modifies this`tasks, this`nodes, this`list, nodes`next
      ensures Valid() && old(nodes) != [] && nodes == old(nodes)[1..]
      ensures old(list) != [] && list == old(list)[1..] && task == old(list)[0]
    {
      var node := tasks;
      assert nodes != [] && node == nodes[0] && node.data == list[0] && |list| == |nodes|;
      task := node.data;
      hide *;
      TailIs(nodes);
      TailIs(list);
      DropNode(null, node, 0);
    }

    /** The body of `session_cleanup_tasks`: the head leaves the list and its file is closed. */
    method PopTask(host: Host)
      requires Valid() && tasks != null
      modifies this, nodes, host
      ensures Valid() && old(nodes) != [] && nodes == old(nodes)[1..] && old(list) != [] && list == old(list)[1..]
      ensures State() == old(State()).(tasks := list, taskCount := old(taskCount) - 1)
      ensures host.Now() == old(host.Now()).(files := CloseFile(old(host.files), old(list)[0].file))
    {
      hide IsList;
      var task := DropHead();
      if task.file.Some? { host.files := Close(host.files, task.file.value); }
      taskCount := taskCount - 1;
    }

    /** `session_cleanup_tasks` */
    method CleanupTasks(host: Host)
      requires Valid()
      modifies this, nodes, host
      ensures Valid() && nodes == []
      ensures (host.Now(), State()) == SessionModel.CleanupTasks(old(host.Now()), old(State()))
    {
      hide CloseAll, Linked, Distinct;
      while tasks != null
        invariant Valid() && forall i | 0 <= i < |nodes| :: nodes[i] in old(nodes)
        invariant State() == old(State()).(tasks := list, taskCount := old(taskCount) - |old(list)| + |list|)
        invariant host.Now() == old(host.Now()).(files := host.files)
        invariant CloseAll(host.files, list) == CloseAll(old(host.files), old(list))
        decreases |nodes|
      {
        CloseAllCons(host.files, list);
        PopTask(host);
      }
      HeadIs(tasks, nodes);
      CloseAllCons(host.files, list);
    }
  }

  lemma FoundAt(tasks: seq<Task>, id: nat, k: nat)
    requires k <= |tasks| && (forall j | 0 <= j < k :: tasks[j].id != id) && (k < |tasks| ==> tasks[k].id == id)
    ensures Position(tasks, id) == k && Listed(tasks, id) == (k < |tasks|)
    ensures k < |tasks| ==> Get(tasks, id) == tasks[k]
    ensures Without(tasks, id) == if k < |tasks| then tasks[..k] + tasks[k + 1..] else tasks
  {
    hide Position;
  }

  lemma AllFrom<T>(s: seq<T>, k: nat)
    requires k < |s|
    ensures var rest := s[..k] + s[k + 1..]; forall i | 0 <= i < |rest| :: rest[i] in s
  {
    var rest := s[..k] + s[k + 1..];
    forall i | 0 <= i < |rest| ensures rest[i] in s {
      assert rest[i] == s[if i < k then i else i + 1];
    }
  }

  lemma TailIs<T>(s: seq<T>)
    requires s != []
    ensures s[..0] + s[1..] == s[1..]
  {
  }

  lemma CloseAllCons(fs: Files, tasks: seq<Task>)
    ensures CloseAll(fs, tasks) == if tasks == [] then fs else CloseAll(CloseFile(fs, tasks[0].file), tasks[1..])
  {
  }
}
