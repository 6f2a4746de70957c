/**
 * Pod placement (`schedule_pod`) and pod removal (`delete_pod`).
 */
module Scheduler {
  import opened Wrappers
  import opened ClusterState

  /** Capacity an eligible node would have left after taking `cpu` units. */
  function Leftover(n: Node, cpu: int): int {
    Available(n) - cpu
  }

  /**
   * `b` is the best fit among the first `i` nodes: eligible, with no eligible
   * node leaving less room, and every earlier eligible node leaving strictly
   * more (the first minimum wins).
   */
  predicate BestAmongFirst(nodes: seq<Node>, cpu: int, b: nat, i: nat) {
    b < i <= |nodes|
    && Eligible(nodes[b], cpu)
    && (forall k :: 0 <= k < i && Eligible(nodes[k], cpu) ==> Leftover(nodes[b], cpu) <= Leftover(nodes[k], cpu))
    && (forall k :: 0 <= k < b && Eligible(nodes[k], cpu) ==> Leftover(nodes[b], cpu) < Leftover(nodes[k], cpu))
  }

  /** The best-fit choice over the whole table, with insertion-order tie-break. */
  predicate IsBestFit(nodes: seq<Node>, cpu: int, b: nat) {
    BestAmongFirst(nodes, cpu, b, |nodes|)
  }

  /**
   * The scan of `schedule_pod` from position `i`, carrying the best node so
   * far (None plays the part of the `inf` score).
   */
  function BestFitFrom(nodes: seq<Node>, cpu: int, i: nat, best: Option<nat>): (r: Option<nat>)
    requires i <= |nodes|
    requires best.Some? ==> BestAmongFirst(nodes, cpu, best.value, i)
    requires best.None? ==> forall k :: 0 <= k < i ==> !Eligible(nodes[k], cpu)
    ensures r.Some? ==> IsBestFit(nodes, cpu, r.value)
    ensures r.None? ==> forall k :: 0 <= k < |nodes| ==> !Eligible(nodes[k], cpu)
    decreases |nodes| - i
  {
    if i == |nodes| then best
    else
      var take := Eligible(nodes[i], cpu)
                  && (best.None? || Leftover(nodes[i], cpu) < Leftover(nodes[best.value], cpu));
      BestFitFrom(nodes, cpu, i + 1, if take then Some(i) else best)
  }

  function BestFit(nodes: seq<Node>, cpu: int): (r: Option<nat>)
    ensures r.Some? ==> IsBestFit(nodes, cpu, r.value)
    ensures r.None? <==> forall k :: 0 <= k < |nodes| ==> !Eligible(nodes[k], cpu)
  {
    BestFitFrom(nodes, cpu, 0, None)
  }

  /** At most one node is the best fit. */
  lemma BestFitUnique(nodes: seq<Node>, cpu: int, b1: nat, b2: nat)
    requires IsBestFit(nodes, cpu, b1) && IsBestFit(nodes, cpu, b2)
    ensures b1 == b2
  {
  }

  /** The scan returns exactly the best-fit node, and nothing when none is eligible. */
  lemma BestFitCharacterized(nodes: seq<Node>, cpu: int, b: nat)
    ensures BestFit(nodes, cpu) == Some(b) <==> IsBestFit(nodes, cpu, b)
  {
    if IsBestFit(nodes, cpu, b) {
      var r := BestFit(nodes, cpu);
      assert r.Some?;
      BestFitUnique(nodes, cpu, r.value, b);
    }
  }

  datatype ScheduleOutcome =
    | Duplicate
    | Placed(index: nat, node: Node)   // the chosen node, after the append
    | NoFit                            // the source's `None`: stored Unscheduled

  datatype Scheduled = Scheduled(cluster: Cluster, outcome: ScheduleOutcome)

  /** `schedule_pod(pod_id, cpu_request)`: best-fit placement of a new pod. */
  function SchedulePod(c: Cluster, pid: PodId, cpu: int): (r: Scheduled)
    ensures pid in c.pods ==> r.cluster == c && r.outcome == Duplicate
    ensures pid !in c.pods ==>
      !r.outcome.Duplicate?
      && (r.outcome.NoFit? <==> forall k :: 0 <= k < |c.nodes| ==> !Eligible(c.nodes[k], cpu))
    ensures r.outcome.Placed? ==>
      var b := r.outcome.index;
      IsBestFit(c.nodes, cpu, b)
      && |r.cluster.nodes| == |c.nodes|
      && r.cluster.nodes[b] == c.nodes[b].(pods := c.nodes[b].pods + [Placement(pid, cpu)])
      && (forall k :: 0 <= k < |c.nodes| && k != b ==> r.cluster.nodes[k] == c.nodes[k])
      && r.cluster.pods == c.pods[pid := Pod(pid, cpu, Some(c.nodes[b].id), Running)]
      && r.outcome.node == r.cluster.nodes[b]
      && Used(r.cluster.nodes[b].pods) <= r.cluster.nodes[b].cpuCores
    ensures r.outcome.NoFit? ==>
      r.cluster.nodes == c.nodes
      && r.cluster.pods == c.pods[pid := Pod(pid, cpu, None, Unscheduled)]
  {
    if pid in c.pods then Scheduled(c, Duplicate)
    else match BestFit(c.nodes, cpu)
      case None =>
        Scheduled(Cluster(c.nodes, c.pods[pid := Pod(pid, cpu, None, Unscheduled)]), NoFit)
      case Some(b) =>
        var chosen := c.nodes[b];
        var grown := chosen.(pods := chosen.pods + [Placement(pid, cpu)]);
        UsedAppend(chosen.pods, Placement(pid, cpu));
        var nodes := SetNode(c.nodes, b, grown);
        Scheduled(Cluster(nodes, c.pods[pid := Pod(pid, cpu, Some(chosen.id), Running)]), Placed(b, grown))
  }

  /** `delete_pod(pod_id)`: drops the record and the entry on the node it names. */
  function DeletePod(c: Cluster, pid: PodId): (r: (Cluster, bool))
    ensures r.1 <==> pid in c.pods
    ensures !r.1 ==> r.0 == c
    ensures r.1 ==> r.0.pods.Keys == c.pods.Keys - {pid}
                    && forall q :: q in r.0.pods ==> r.0.pods[q] == c.pods[q]
    ensures |r.0.nodes| == |c.nodes|
    ensures r.1 ==> forall k :: 0 <= k < |c.nodes| ==>
      if c.pods[pid].nodeId == Some(c.nodes[k].id)
      then r.0.nodes[k] == c.nodes[k].(pods := Without(c.nodes[k].pods, pid))
      else r.0.nodes[k] == c.nodes[k]
  {
    if pid !in c.pods then (c, false)
    else
      var nodes :=
        match c.pods[pid].nodeId
        case None => c.nodes
        case Some(x) =>
          match Find(c.nodes, x)
          case None => c.nodes
          case Some(j) => SetNode(c.nodes, j, c.nodes[j].(pods := Without(c.nodes[j].pods, pid)));
      (Cluster(nodes, c.pods - {pid}), true)
  }

  lemma SchedulePreservesWellFormed(c: Cluster, pid: PodId, cpu: int)
    requires WellFormed(c) && cpu > 0
    ensures WellFormed(SchedulePod(c, pid, cpu).cluster)
  {
    var r := SchedulePod(c, pid, cpu);
    if pid !in c.pods {
      // No list mentions the new id, since every listed id has a record.
      forall k | 0 <= k < |c.nodes|
        ensures NodeOk(r.cluster.nodes[k], r.cluster.pods)
      {
        assert NodeOk(c.nodes[k], c.pods);
        var n := r.cluster.nodes[k];
        if r.outcome.Placed? && k == r.outcome.index {
          var old_ := c.nodes[k].pods;
          assert n.pods == old_ + [Placement(pid, cpu)];
          forall a, b | 0 <= a < b < |n.pods| ensures n.pods[a].id != n.pods[b].id {
            if b == |old_| {
              assert n.pods[a] == old_[a];
            }
          }
        }
      }
    }
  }

  lemma DeletePreservesWellFormed(c: Cluster, pid: PodId)
    requires WellFormed(c)
    ensures WellFormed(DeletePod(c, pid).0)
  {
    var r := DeletePod(c, pid).0;
    if pid in c.pods {
      forall k | 0 <= k < |c.nodes|
        ensures NodeOk(r.nodes[k], r.pods)
      {
        assert NodeOk(c.nodes[k], c.pods);
        DeleteKeepsNodeOk(c.nodes[k], c.pods, pid);
      }
    }
  }

  /** One node's list after `delete_pod(pid)` is still consistent with the remaining records. */
  lemma DeleteKeepsNodeOk(n: Node, pods: map<PodId, Pod>, pid: PodId)
    requires NodeOk(n, pods) && RecordsKeyed(pods) && pid in pods
    ensures pods[pid].nodeId == Some(n.id) ==> NodeOk(n.(pods := Without(n.pods, pid)), pods - {pid})
    ensures pods[pid].nodeId != Some(n.id) ==> NodeOk(n, pods - {pid})
  {
    var rest := pods - {pid};
    BackedPositive(n, pods);
    if pods[pid].nodeId == Some(n.id) {
      var w := Without(n.pods, pid);
      UsedWithout(n.pods, pid);
      forall m | 0 <= m < |w|
        ensures w[m].id in rest && rest[w[m].id].nodeId == Some(n.id) && rest[w[m].id].cpu == w[m].cpu
      {
        assert w[m] in n.pods;
      }
      DistinctWithout(n.pods, pid);
    } else {
      // The deleted pod was not listed here: its record names another node.
      forall m | 0 <= m < |n.pods| ensures n.pods[m].id != pid {
      }
    }
  }

  /** After `delete_pod` no node of a well-formed state still lists the pod. */
  lemma DeletedPodUnlisted(c: Cluster, pid: PodId)
    requires WellFormed(c)
    ensures var r := DeletePod(c, pid).0;
      forall k, m :: 0 <= k < |r.nodes| && 0 <= m < |r.nodes[k].pods| ==> r.nodes[k].pods[m].id != pid
  {
    var r := DeletePod(c, pid).0;
    forall k, m | 0 <= k < |r.nodes| && 0 <= m < |r.nodes[k].pods|
      ensures r.nodes[k].pods[m].id != pid
    {
      assert NodeOk(c.nodes[k], c.pods);
      if pid in c.pods && c.pods[pid].nodeId == Some(c.nodes[k].id) {
        assert r.nodes[k].pods[m] in Without(c.nodes[k].pods, pid);
      }
    }
  }

  /** Deleting a pod right after scheduling it restores the state it was scheduled in. */
  lemma ScheduleThenDelete(c: Cluster, pid: PodId, cpu: int)
    requires WellFormed(c) && pid !in c.pods
    ensures DeletePod(SchedulePod(c, pid, cpu).cluster, pid) == (c, true)
  {
    var s := SchedulePod(c, pid, cpu);
    var r := DeletePod(s.cluster, pid).0;
    assert r.pods == c.pods;
    forall k | 0 <= k < |c.nodes| ensures r.nodes[k] == c.nodes[k] {
      if s.outcome.Placed? && k == s.outcome.index {
        assert NodeOk(c.nodes[k], c.pods);
        WithoutAppended(c.nodes[k].pods, Placement(pid, cpu));
      } else if s.outcome.Placed? {
        assert c.nodes[k].id != c.nodes[s.outcome.index].id;
        assert NodeOk(c.nodes[k], c.pods);
      }
    }
    assert r.nodes == c.nodes;
  }

  lemma {:induction false} DistinctWithout(ps: seq<Placement>, pid: PodId)
    requires DistinctPods(ps)
    ensures DistinctPods(Without(ps, pid))
  {
    if ps != [] {
      DistinctWithout(ps[1..], pid);
      var rest := Without(ps[1..], pid);
      if ps[0].id != pid {
        var w := [ps[0]] + rest;
        forall a, b | 0 <= a < b < |w| ensures w[a].id != w[b].id {
          if a == 0 {
            assert w[b] in ps[1..];
          }
        }
      }
    }
  }
}
