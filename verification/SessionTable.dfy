/** The global list of sessions in server/src/session.c, each session standing as its id. */
module SessionTable {
  import opened Bytes
  import opened Lists

  /** The position of the first session with this id, or the length of the list. */
  function Place(ids: seq<nat>, id: nat): (k: nat)
    ensures k <= |ids|
    ensures k < |ids| ==> ids[k] == id
    ensures forall j | 0 <= j < k :: ids[j] != id
  {
    if ids == [] || ids[0] == id then 0 else 1 + Place(ids[1..], id)
  }

  class Registry {
    var sessions: Node?<nat>
    var nextId: nat
    ghost var nodes: seq<Node<nat>>  // the sessions from `sessions` on
    ghost var ids: seq<nat>
    ghost var created: nat
    ghost var destroyed: nat

    /** The list, the count and, until the 32-bit counter comes round, ids that decrease from the head. */
    ghost predicate Valid()
      reads this, nodes
    {
      && IsList(sessions, nodes, ids)
      && |nodes| == created - destroyed
      && nextId == (created + 1) % UINT32_SIZE
      && (created < UINT32_SIZE ==> Decreasing(ids, created + 1))
    }

    constructor ()
      ensures Valid() && nodes == [] && created == 0 && destroyed == 0
    {
      sessions, nextId := null, 1;
      nodes, ids, created, destroyed := [], [], 0, 0;
    }

    /** `generate_session_id` */
    method GenerateId() returns (id: nat)
      requires Valid()
      modifies this`nextId
      ensures id == old(nextId) && nextId == (id + 1) % UINT32_SIZE
    {
      id := nextId;
      nextId := (nextId + 1) % UINT32_SIZE;
    }

    /** `session_create` */
    method Create() returns (node: Node<nat>)
      requires Valid()
      modifies this
      ensures Valid() && fresh(node) && nodes == [node] + old(nodes) && ids == [old(nextId)] + old(ids)
      ensures created == old(created) + 1 && destroyed == old(destroyed)
    {
      Wraps(created);
      var id := GenerateId();
      if created + 1 < UINT32_SIZE { NewestFirst(ids, created + 1); }
      hide IsList, Decreasing, UINT32_SIZE, Lists.Distinct;
      node := Push(sessions, id, nodes, ids);
      sessions := node;
      nodes, ids, created := [node] + nodes, [id] + ids, created + 1;
    }

    /** The unlinking in `session_destroy`: the node itself is looked for, not its id. */
    method Destroy(node: Node<nat>)
      requires Valid()
      modifies this, nodes
      ensures Valid() && created == old(created) && nextId == old(nextId)
      ensures node !in old(nodes) ==> nodes == old(nodes) && ids == old(ids) && destroyed == old(destroyed)
      ensures node in old(nodes) ==> destroyed == old(destroyed) + 1 && exists k ::
        && 0 <= k < |old(nodes)| && old(nodes)[k] == node
        && nodes == old(nodes)[..k] + old(nodes)[k + 1..]
        && ids == old(ids)[..k] + old(ids)[k + 1..]
      ensures node !in nodes
    {
      var previous, current, k := FindNode(node);
      hide *;
      if current != null { DestroyAt(previous, current, k); }
    }

    method DestroyAt(previous: Node?<nat>, current: Node<nat>, ghost k: nat)
      requires Valid() && k < |nodes| && current == nodes[k] && previous == if k == 0 then null else nodes[k - 1]
      modifies this`sessions, this`nodes, this`ids, this`destroyed, nodes`next
      ensures Valid() && k < |old(ids)| && destroyed == old(destroyed) + 1
      ensures nodes == old(nodes)[..k] + old(nodes)[k + 1..] && ids == old(ids)[..k] + old(ids)[k + 1..]
      ensures current !in nodes
    {
      Leaves(nodes, k);
      if created < UINT32_SIZE { StillDecreasing(ids, k, created + 1); }
      hide Place, IsList, Decreasing, Lists.Distinct, Lists.Linked, Lists.Hold;
      Unlink(previous, current, k);
      destroyed := destroyed + 1;
    }

    /** `*ptr = sess->next` */
    method Unlink(previous: Node?<nat>, current: Node<nat>, ghost k: nat)
      requires IsList(sessions, nodes, ids) && k < |nodes| && current == nodes[k]
      requires previous == if k == 0 then null else nodes[k - 1]
      modifies this`sessions, this`nodes, this`ids, nodes`next
      ensures IsList(sessions, nodes, ids) && k < |old(ids)|
      ensures nodes == old(nodes)[..k] + old(nodes)[k + 1..] && ids == old(ids)[..k] + old(ids)[k + 1..]
    {
      assert |nodes| == |ids|;
      hide IsList;
      sessions := Detach(sessions, previous, current, k, nodes, ids);
      nodes, ids := nodes[..k] + nodes[k + 1..], ids[..k] + ids[k + 1..];
    }

    method FindNode(node: Node<nat>) returns (previous: Node?<nat>, current: Node?<nat>, ghost k: nat)
      requires Valid()
      ensures k <= |nodes| == |ids| && (current != null <==> k < |nodes|) && (current != null <==> node in nodes)
      ensures current != null ==> current == node == nodes[k]
      ensures previous == if k == 0 then null else nodes[k - 1]
    {
      previous, current, k := null, sessions, 0;
      while current != null && current != node
        invariant k <= |nodes| && current == (if k < |nodes| then nodes[k] else null)
        invariant previous == if k == 0 then null else nodes[k - 1]
        invariant forall j | 0 <= j < k :: nodes[j] != node
        decreases |nodes| - k
      {
        assert nodes[k].next == After(nodes, k);
        previous, current := current, current.next;
        k := k + 1;
      }
    }

    /** `session_find_by_id` */
    method FindById(id: nat) returns (node: Node?<nat>)
      requires Valid()
      ensures var k := Place(ids, id); |nodes| == |ids| && node == if k < |nodes| then nodes[k] else null
    {
      node := sessions;
      ghost var k := 0;
      while node != null && node.data != id
        invariant k <= |nodes| && node == if k < |nodes| then nodes[k] else null
        invariant forall j | 0 <= j < k :: ids[j] != id
        decreases |nodes| - k
      {
        assert nodes[k].next == After(nodes, k);
        node := node.next;
        k := k + 1;
      }
    }

    /** `session_get_count`: the sessions created and not yet destroyed. */
    method GetCount() returns (count: nat)
      requires Valid()
      ensures count == created - destroyed
    {
      count := 0;
      var node := sessions;
      while node != null
        invariant count <= |nodes| && node == if count < |nodes| then nodes[count] else null
        decreases |nodes| - count
      {
        assert nodes[count].next == After(nodes, count);
        count := count + 1;
        node := node.next;
      }
    }
  }

  // --- Ids ---

  ghost predicate Decreasing(ids: seq<nat>, bound: nat) {
    && (forall i | 0 <= i < |ids| :: ids[i] < bound)
    && (forall i, j | 0 <= i < j < |ids| :: ids[i] > ids[j])
  }

  lemma Leaves(nodes: seq<Node<nat>>, k: nat)
    requires Lists.Distinct(nodes) && k < |nodes|
    ensures nodes[k] !in nodes[..k] + nodes[k + 1..]
  {
    DistinctFrom(nodes, k);
  }

  lemma Wraps(created: nat)
    ensures ((created + 1) % UINT32_SIZE + 1) % UINT32_SIZE == (created + 2) % UINT32_SIZE
    ensures created + 1 < UINT32_SIZE ==> (created + 1) % UINT32_SIZE == created + 1
  {
  }

  lemma NewestFirst(ids: seq<nat>, id: nat)
    requires Decreasing(ids, id)
    ensures Decreasing([id] + ids, id + 1)
  {
    assert forall i | 0 < i < |[id] + ids| :: ([id] + ids)[i] == ids[i - 1];
  }

  lemma StillDecreasing(ids: seq<nat>, k: nat, bound: nat)
    requires Decreasing(ids, bound) && k < |ids|
    ensures Decreasing(ids[..k] + ids[k + 1..], bound)
  {
    var r := ids[..k] + ids[k + 1..];
    assert forall i | 0 <= i < |r| :: r[i] == ids[if i < k then i else i + 1];
  }

  /**
   Before the counter comes round, an id belongs to at most one session, so the lookup finds the session that has it.
   */
  lemma FoundIsOnly(ids: seq<nat>, bound: nat, k: nat)
    requires Decreasing(ids, bound) && k < |ids|
    ensures Place(ids, ids[k]) == k
  {
  }
}
