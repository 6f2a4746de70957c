/**
 * Node administration: `add_node`, `delete_node` and the capacity read-out
 * `list_nodes`.
 */
module Admin {
  import opened Wrappers
  import opened ClusterState
  import Scheduler

  /**
   * `add_node(cpu_cores)`: the fresh `id` and the clock reading `now` stand for
   * `uuid4()` and `utcnow()`.
   */
  function AddNode(c: Cluster, id: NodeId, cpuCores: int, now: int): (r: (Cluster, Node))
    requires forall k :: 0 <= k < |c.nodes| ==> c.nodes[k].id != id
    ensures r.1.id == id && r.1.cpuCores == cpuCores && r.1.lastHeartbeat == now
    ensures r.1.status == Healthy && r.1.pods == []
    ensures r.0.nodes == c.nodes + [r.1]
    ensures r.0.pods == c.pods
  {
    var n := Node(id, cpuCores, Healthy, [], now);
    var nodes := c.nodes + [n];
    assert UniqueIds(nodes);
    (Cluster(nodes, c.pods), n)
  }

  /** `delete_node(node_id)`: removes the record only; pod records are not touched. */
  function DeleteNode(c: Cluster, id: NodeId): (r: Cluster)
    ensures r.pods == c.pods
    ensures forall k :: 0 <= k < |r.nodes| ==> r.nodes[k].id != id
    ensures forall n :: n in r.nodes <==> n in c.nodes && n.id != id
    ensures (forall k :: 0 <= k < |c.nodes| ==> c.nodes[k].id != id) ==> r == c
    ensures forall j :: 0 <= j < |c.nodes| && c.nodes[j].id == id ==>
      |r.nodes| == |c.nodes| - 1 && r.nodes[..j] == c.nodes[..j] && r.nodes[j..] == c.nodes[j + 1..]
  {
    match Find(c.nodes, id)
    case None =>
      assert forall n :: n in c.nodes ==> n.id != id;
      c
    case Some(j) =>
      var nodes := RemoveAt(c.nodes, j);
      RemoveAtShape(c.nodes, j);
      assert forall k :: 0 <= k < |nodes| ==> nodes[k] in nodes;
      assert forall j' :: 0 <= j' < |c.nodes| && c.nodes[j'].id == id ==> j' == j;
      Cluster(nodes, c.pods)
  }

  /** One entry of `list_nodes()`: the record with its computed `available_cpu`. */
  datatype NodeView = NodeView(node: Node, availableCpu: int)

  function ListNodes(c: Cluster): (r: seq<NodeView>)
    ensures |r| == |c.nodes|
    ensures forall k :: 0 <= k < |r| ==> r[k].node == c.nodes[k]
    ensures forall k :: 0 <= k < |r| ==> r[k].availableCpu + Used(c.nodes[k].pods) == c.nodes[k].cpuCores
  {
    seq(|c.nodes|, k requires 0 <= k < |c.nodes| => NodeView(c.nodes[k], Available(c.nodes[k])))
  }

  /** In a well-formed state no node reports negative or excess room. */
  lemma ListedCapacityInRange(c: Cluster)
    requires WellFormed(c)
    ensures forall k :: 0 <= k < |c.nodes| ==>
      0 <= ListNodes(c)[k].availableCpu <= ListNodes(c)[k].node.cpuCores
  {
    forall k | 0 <= k < |c.nodes|
      ensures 0 <= ListNodes(c)[k].availableCpu <= ListNodes(c)[k].node.cpuCores
    {
      WellFormedCapacity(c, k);
    }
  }

  /** A node just added is listed last, Healthy, with all its cores available. */
  lemma AddedNodeListed(c: Cluster, id: NodeId, cpuCores: int, now: int)
    requires forall k :: 0 <= k < |c.nodes| ==> c.nodes[k].id != id
    ensures var v := ListNodes(AddNode(c, id, cpuCores, now).0);
      |v| == |c.nodes| + 1
      && v[|c.nodes|].node.id == id && v[|c.nodes|].node.status == Healthy
      && v[|c.nodes|].availableCpu == cpuCores
      && v[..|c.nodes|] == ListNodes(c)
  {
    var v := ListNodes(AddNode(c, id, cpuCores, now).0);
    assert v[..|c.nodes|] == ListNodes(c);
  }

  /** Placing a pod takes exactly its cpu off the chosen node's listed room. */
  lemma ScheduledNodeListed(c: Cluster, pid: PodId, cpu: int)
    ensures var s := Scheduler.SchedulePod(c, pid, cpu);
      s.outcome.Placed? ==>
        var b := s.outcome.index;
        ListNodes(s.cluster)[b].availableCpu == ListNodes(c)[b].availableCpu - cpu
        && ListNodes(s.cluster)[b].availableCpu >= 0
  {
    var s := Scheduler.SchedulePod(c, pid, cpu);
    if s.outcome.Placed? {
      UsedAppend(c.nodes[s.outcome.index].pods, Placement(pid, cpu));
    }
  }

  /**
   * Deleting a node right after adding it restores the cluster, which is how
   * the API rolls back a node whose container fails to start.
   */
  lemma AddThenDelete(c: Cluster, id: NodeId, cpuCores: int, now: int)
    requires forall k :: 0 <= k < |c.nodes| ==> c.nodes[k].id != id
    ensures DeleteNode(AddNode(c, id, cpuCores, now).0, id) == c
  {
    var a := AddNode(c, id, cpuCores, now).0;
    assert a.nodes[|c.nodes|].id == id;
    var r := DeleteNode(a, id);
    assert r.nodes == a.nodes[..|c.nodes|] == c.nodes;
  }

  lemma AddPreservesWellFormed(c: Cluster, id: NodeId, cpuCores: int, now: int)
    requires WellFormed(c)
    requires forall k :: 0 <= k < |c.nodes| ==> c.nodes[k].id != id
    requires cpuCores > 0
    ensures WellFormed(AddNode(c, id, cpuCores, now).0)
  {
    var r := AddNode(c, id, cpuCores, now).0;
    assert forall k :: 0 <= k < |c.nodes| ==> r.nodes[k] == c.nodes[k];
  }

  lemma DeleteNodePreservesWellFormed(c: Cluster, id: NodeId)
    requires WellFormed(c)
    ensures WellFormed(DeleteNode(c, id))
  {
    var r := DeleteNode(c, id);
    forall k | 0 <= k < |r.nodes| ensures NodeOk(r.nodes[k], r.pods) {
      assert r.nodes[k] in c.nodes;
    }
  }

  /**
   * Deleting a node that holds a pod leaves that pod's record naming a node
   * that no longer exists.
   */
  lemma DeleteNodeLeavesDanglingRecord(c: Cluster, k: nat, m: nat)
    requires WellFormed(c)
    requires k < |c.nodes| && m < |c.nodes[k].pods|
    ensures var pid, r := c.nodes[k].pods[m].id, DeleteNode(c, c.nodes[k].id);
      pid in r.pods && r.pods[pid].nodeId == Some(c.nodes[k].id)
      && forall j :: 0 <= j < |r.nodes| ==> r.nodes[j].id != c.nodes[k].id
  {
    assert NodeOk(c.nodes[k], c.pods);
  }
}
