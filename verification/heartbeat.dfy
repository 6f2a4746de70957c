/**
 * Heartbeat ingest (`update_heartbeat`) and the manual overrides
 * (`stop_node`, `start_node`): each touches at most the one named node.
 */
module Heartbeat {
  import opened Wrappers
  import opened ClusterState
  import FailureDetector

  /** Sets status and, when `stamp` holds a time, the heartbeat of the node `id`. */
  function Touch(c: Cluster, id: NodeId, status: NodeStatus, stamp: Option<int>): (r: (Cluster, bool))
    ensures !r.1 <==> forall k :: 0 <= k < |c.nodes| ==> c.nodes[k].id != id
    ensures !r.1 ==> r.0 == c
    ensures r.0.pods == c.pods && |r.0.nodes| == |c.nodes|
    ensures forall k :: 0 <= k < |c.nodes| && c.nodes[k].id != id ==> r.0.nodes[k] == c.nodes[k]
    ensures forall k :: 0 <= k < |c.nodes| && c.nodes[k].id == id ==>
      r.0.nodes[k] == c.nodes[k].(status := status,
                                  lastHeartbeat := if stamp.Some? then stamp.value else c.nodes[k].lastHeartbeat)
  {
    match Find(c.nodes, id)
    case None => (c, false)
    case Some(j) =>
      var n := c.nodes[j];
      var n' := if stamp.Some? then n.(status := status, lastHeartbeat := stamp.value) else n.(status := status);
      (Cluster(SetNode(c.nodes, j, n'), c.pods), true)
  }

  /** `update_heartbeat(node_id)` at time `now`. */
  function UpdateHeartbeat(c: Cluster, id: NodeId, now: int): (r: (Cluster, bool))
    ensures !r.1 <==> forall k :: 0 <= k < |c.nodes| ==> c.nodes[k].id != id
    ensures !r.1 ==> r.0 == c
    ensures r.0.pods == c.pods && |r.0.nodes| == |c.nodes|
    ensures forall k :: 0 <= k < |c.nodes| ==>
      r.0.nodes[k] == if c.nodes[k].id == id then c.nodes[k].(status := Healthy, lastHeartbeat := now) else c.nodes[k]
  {
    Touch(c, id, Healthy, Some(now))
  }

  /** `stop_node(node_id)`: marks the node Unhealthy and nothing else. */
  function StopNode(c: Cluster, id: NodeId): (r: (Cluster, bool))
    ensures !r.1 <==> forall k :: 0 <= k < |c.nodes| ==> c.nodes[k].id != id
    ensures !r.1 ==> r.0 == c
    ensures r.0.pods == c.pods && |r.0.nodes| == |c.nodes|
    ensures forall k :: 0 <= k < |c.nodes| ==>
      r.0.nodes[k] == if c.nodes[k].id == id then c.nodes[k].(status := Unhealthy) else c.nodes[k]
  {
    Touch(c, id, Unhealthy, None)
  }

  /** `start_node(node_id)` at time `now`: Healthy again, with a fresh heartbeat. */
  function StartNode(c: Cluster, id: NodeId, now: int): (r: (Cluster, bool))
    ensures !r.1 <==> forall k :: 0 <= k < |c.nodes| ==> c.nodes[k].id != id
    ensures !r.1 ==> r.0 == c
    ensures r.0.pods == c.pods && |r.0.nodes| == |c.nodes|
    ensures forall k :: 0 <= k < |c.nodes| ==>
      r.0.nodes[k] == if c.nodes[k].id == id then c.nodes[k].(status := Healthy, lastHeartbeat := now) else c.nodes[k]
  {
    Touch(c, id, Healthy, Some(now))
  }

  /** `start_node` is the same transition as a heartbeat, including the result. */
  lemma StartIsHeartbeat(c: Cluster, id: NodeId, now: int)
    ensures StartNode(c, id, now) == UpdateHeartbeat(c, id, now)
  {
  }

  /** Status and heartbeat changes leave pods lists and records as they were. */
  lemma TouchPreservesWellFormed(c: Cluster, id: NodeId, status: NodeStatus, stamp: Option<int>)
    requires WellFormed(c)
    ensures WellFormed(Touch(c, id, status, stamp).0)
  {
    var r := Touch(c, id, status, stamp).0;
    forall k | 0 <= k < |r.nodes| ensures NodeOk(r.nodes[k], r.pods) {
      assert NodeOk(c.nodes[k], c.pods);
    }
  }

  lemma HeartbeatPreservesWellFormed(c: Cluster, id: NodeId, now: int)
    requires WellFormed(c)
    ensures WellFormed(UpdateHeartbeat(c, id, now).0)
  {
    TouchPreservesWellFormed(c, id, Healthy, Some(now));
  }

  lemma StopPreservesWellFormed(c: Cluster, id: NodeId)
    requires WellFormed(c)
    ensures WellFormed(StopNode(c, id).0)
  {
    TouchPreservesWellFormed(c, id, Unhealthy, None);
  }

  lemma StartPreservesWellFormed(c: Cluster, id: NodeId, now: int)
    requires WellFormed(c)
    ensures WellFormed(StartNode(c, id, now).0)
  {
    TouchPreservesWellFormed(c, id, Healthy, Some(now));
  }

  /**
   * A node that has just sent a heartbeat is Healthy, and a sweep run within
   * `HeartbeatTimeout` seconds of it does not fail the node.
   */
  lemma HeartbeatDefersFailure(c: Cluster, id: NodeId, now: int, later: int, k: nat)
    requires AllPlacedKnown(c)
    requires k < |c.nodes| && c.nodes[k].id == id
    requires later - now <= HeartbeatTimeout
    ensures AllPlacedKnown(UpdateHeartbeat(c, id, now).0)
    ensures FailureDetector.CheckNodeHealth(UpdateHeartbeat(c, id, now).0, later).cluster.nodes[k].status == Healthy
  {
    var c1 := UpdateHeartbeat(c, id, now).0;
    assert forall j, m :: 0 <= j < |c1.nodes| && 0 <= m < |c1.nodes[j].pods| ==> c1.nodes[j].pods[m] == c.nodes[j].pods[m];
    assert !FailureDetector.Stale(c1.nodes[k], later);
  }

  /**
   * A manually stopped node is never failed by the sweep: it keeps its status
   * and its pods list, which are not rescheduled.
   */
  lemma StoppedNodeKeepsPods(c: Cluster, id: NodeId, now: int, k: nat)
    requires AllPlacedKnown(c)
    requires k < |c.nodes| && c.nodes[k].id == id
    ensures AllPlacedKnown(StopNode(c, id).0)
    ensures FailureDetector.CheckNodeHealth(StopNode(c, id).0, now).cluster.nodes[k]
            == c.nodes[k].(status := Unhealthy)
  {
    var c1 := StopNode(c, id).0;
    assert forall j, m :: 0 <= j < |c1.nodes| && 0 <= m < |c1.nodes[j].pods| ==> c1.nodes[j].pods[m] == c.nodes[j].pods[m];
  }
}
