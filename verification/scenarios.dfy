/**
 * Small concrete examples of the operations: best fit, scheduling,
 * failure handling and heartbeats.
 */
module Scenarios {
  import opened Wrappers
  import opened ClusterState
  import opened Scheduler
  import opened FailureDetector
  import opened Heartbeat
  import opened Admin

  /** A node with `used` cpu taken by one pod. */
  function Loaded(id: NodeId, cores: int, pod: PodId, used: int): Node {
    Node(id, cores, Healthy, if used == 0 then [] else [Placement(pod, used)], 0)
  }

  /** Equal leftover (10-4-2 == 6-0-2): the node inserted first wins. */
  lemma TieGoesToEarlierNode()
    ensures BestFit([Loaded("a", 10, "x", 4), Loaded("b", 6, "y", 0)], 2) == Some(0)
    ensures BestFit([Loaded("b", 6, "y", 0), Loaded("a", 10, "x", 4)], 2) == Some(0)
  {
    var ab := [Loaded("a", 10, "x", 4), Loaded("b", 6, "y", 0)];
    var ba := [Loaded("b", 6, "y", 0), Loaded("a", 10, "x", 4)];
    assert Used([Placement("x", 4)]) == 4;
    BestFitCharacterized(ab, 2, 0);
    BestFitCharacterized(ba, 2, 0);
  }

  /** A strictly tighter node later in the order is preferred. */
  lemma TighterNodeWins()
    ensures BestFit([Loaded("a", 10, "x", 0), Loaded("b", 3, "y", 0)], 2) == Some(1)
  {
    BestFitCharacterized([Loaded("a", 10, "x", 0), Loaded("b", 3, "y", 0)], 2, 1);
  }

  /** Adding a 4-core node to an empty cluster lists one node with 4 cpus available. */
  lemma AddThenList()
    ensures var v := ListNodes(AddNode(Cluster([], map[]), "n1", 4, 0).0);
      |v| == 1 && v[0].availableCpu == 4
  {
    AddedNodeListed(Cluster([], map[]), "n1", 4, 0);
  }

  /** p1 (2 cpus) lands on the sole 4-core node; p2 (3 cpus) then fits nowhere. */
  lemma ScheduleThenOverflow()
    ensures var c0 := Cluster([Node("n1", 4, Healthy, [], 0)], map[]);
      var s1 := SchedulePod(c0, "p1", 2);
      var s2 := SchedulePod(s1.cluster, "p2", 3);
      s1.outcome.Placed? && s1.outcome.index == 0
      && ListNodes(s1.cluster)[0].availableCpu == 2
      && s1.cluster.pods["p1"].status == Running
      && s2.outcome == NoFit
      && s2.cluster.pods["p2"] == Pod("p2", 3, None, Unscheduled)
      && SchedulePod(s2.cluster, "p2", 1).outcome == Duplicate
  {
    var c0 := Cluster([Node("n1", 4, Healthy, [], 0)], map[]);
    BestFitCharacterized(c0.nodes, 2, 0);
    var s1 := SchedulePod(c0, "p1", 2);
    assert Used(s1.cluster.nodes[0].pods) == 2;
    assert !Eligible(s1.cluster.nodes[0], 3);
  }

  /**
   * The failed node's pod moves to the healthy node that still has room: at
   * time 20, n1 (silent since 0) fails and p1 moves to n2 (heard from at 20),
   * whose record now names n2; nothing else changes.
   */
  lemma FailedPodRelocated()
    ensures AllPlacedKnown(TwoNodes) && CheckNodeHealth(TwoNodes, 20) == Swept(TwoNodesAfter, true)
  {
    FirstNodeFails();
    var after := TwoNodesAfter;
    assert SweepNode(TwoNodes, 0, 20) == after;
    assert SweepNode(after, 1, 20) == after;
    assert SweepFrom(after, 2, 20) == Swept(after, false);
    assert SweepFrom(after, 1, 20) == Swept(after, false);
    assert SweepFrom(TwoNodes, 0, 20) == Swept(after, true);
  }

  /** The two-node cluster of the run above at each stage of failing n1. */
  const TwoNodes := Cluster(
    [Node("n1", 4, Healthy, [Placement("p1", 2)], 0), Node("n2", 4, Healthy, [], 20)],
    map["p1" := Pod("p1", 2, Some("n1"), Running)])
  const TwoNodesDown := Cluster(
    [Node("n1", 4, Unhealthy, [Placement("p1", 2)], 0), Node("n2", 4, Healthy, [], 20)],
    map["p1" := Pod("p1", 2, Some("n1"), Running)])
  const TwoNodesMoved := Cluster(
    [Node("n1", 4, Unhealthy, [Placement("p1", 2)], 0), Node("n2", 4, Healthy, [Placement("p1", 2)], 20)],
    map["p1" := Pod("p1", 2, Some("n2"), Running)])
  const TwoNodesAfter := Cluster(
    [Node("n1", 4, Unhealthy, [], 0), Node("n2", 4, Healthy, [Placement("p1", 2)], 20)],
    map["p1" := Pod("p1", 2, Some("n2"), Running)])

  /** p1 goes to n2, the first other node with room. */
  lemma TwoNodesRelocated()
    ensures RelocateAll(TwoNodesDown, 0, [Placement("p1", 2)]) == TwoNodesMoved
  {
    var d := TwoNodesDown;
    assert IsFirstFit(d.nodes, 0, 2, 1);
    var moved := RelocateOne(d, 0, Placement("p1", 2));
    assert moved.nodes[1] == d.nodes[1].(pods := d.nodes[1].pods + [Placement("p1", 2)]);
    assert moved.nodes[0] == d.nodes[0];
    assert [] + [Placement("p1", 2)] == [Placement("p1", 2)];
    assert |moved.nodes| == 2;
    assert moved.nodes[0] == TwoNodesMoved.nodes[0];
    assert moved.nodes[1] == TwoNodesMoved.nodes[1];
    assert moved.nodes == TwoNodesMoved.nodes;
    assert moved.pods == TwoNodesMoved.pods;
    assert [Placement("p1", 2)][1..] == [];
    assert RelocateAll(d, 0, [Placement("p1", 2)]) == RelocateAll(moved, 0, []);
  }

  /** The first step of the run above: n1 is failed and p1 lands on n2. */
  lemma FirstNodeFails()
    ensures AllPlacedKnown(TwoNodes) && FailNode(TwoNodes, 0) == TwoNodesAfter
  {
    var c := TwoNodes;
    assert AllPlacedKnown(c);
    assert Downed(c, 0) == TwoNodesDown;
    TwoNodesRelocated();
    TwoNodesEmptied();
  }

  lemma TwoNodesEmptied()
    ensures var m := TwoNodesMoved;
      Cluster(SetNode(m.nodes, 0, m.nodes[0].(pods := [])), m.pods) == TwoNodesAfter
  {
    var m := TwoNodesMoved;
    var n := SetNode(m.nodes, 0, m.nodes[0].(pods := []));
    assert n[0] == TwoNodesAfter.nodes[0] && n[1] == TwoNodesAfter.nodes[1];
    assert n == TwoNodesAfter.nodes;
  }

  /**
   * With nowhere to go, the pod's record is left as it was: still Running and
   * naming the failed node, whose list is now empty.
   */
  lemma UnplaceablePodKeepsItsRecord()
    ensures var c := Cluster(
        [Node("n1", 4, Healthy, [Placement("p1", 2)], 0)],
        map["p1" := Pod("p1", 2, Some("n1"), Running)]);
      var r := CheckNodeHealth(c, 11);
      r.changed
      && r.cluster.nodes[0].pods == []
      && r.cluster.pods["p1"] == Pod("p1", 2, Some("n1"), Running)
  {
    var c := Cluster(
      [Node("n1", 4, Healthy, [Placement("p1", 2)], 0)],
      map["p1" := Pod("p1", 2, Some("n1"), Running)]);
    assert AllPlacedKnown(c);
  }

  /** Exactly ten seconds of silence is not yet a failure. */
  lemma TimeoutIsStrict()
    ensures var c := Cluster([Node("n1", 4, Healthy, [], 0)], map[]);
      CheckNodeHealth(c, 10) == Swept(c, false)
      && CheckNodeHealth(c, 11).cluster.nodes[0].status == Unhealthy
  {
    var c := Cluster([Node("n1", 4, Healthy, [], 0)], map[]);
    assert Stale(c.nodes[0], 11);
  }

  /** A heartbeat revives an Unhealthy node; an unknown id is reported and changes nothing. */
  lemma HeartbeatRevives()
    ensures var c := Cluster([Node("n1", 4, Unhealthy, [], 0)], map[]);
      var h := UpdateHeartbeat(c, "n1", 30);
      h.1 && h.0.nodes[0] == Node("n1", 4, Healthy, [], 30)
      && UpdateHeartbeat(c, "n9", 30) == (c, false)
  {
  }
}
