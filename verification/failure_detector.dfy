/**
 * The heartbeat-timeout sweep `check_node_health`: fails every node that has
 * been silent for more than `HeartbeatTimeout` seconds and moves its pods,
 * first-fit, onto other healthy nodes.
 */
module FailureDetector {
  import opened Wrappers
  import opened ClusterState

  /** The node is not already Unhealthy and its last heartbeat is too old. */
  predicate Stale(n: Node, now: int) {
    n.status != Unhealthy && now - n.lastHeartbeat > HeartbeatTimeout
  }

  /** `j` is the first node, other than `failed`, that can take `cpu` units. */
  predicate IsFirstFit(nodes: seq<Node>, failed: nat, cpu: int, j: nat) {
    j < |nodes| && j != failed && Eligible(nodes[j], cpu)
    && forall k :: 0 <= k < j && k != failed ==> !Eligible(nodes[k], cpu)
  }

  function FirstFitFrom(nodes: seq<Node>, failed: nat, cpu: int, i: nat): (r: Option<nat>)
    requires i <= |nodes|
    requires forall k :: 0 <= k < i && k != failed ==> !Eligible(nodes[k], cpu)
    ensures r.Some? ==> IsFirstFit(nodes, failed, cpu, r.value)
    ensures r.None? ==> forall k :: 0 <= k < |nodes| && k != failed ==> !Eligible(nodes[k], cpu)
    decreases |nodes| - i
  {
    if i == |nodes| then None
    else if i != failed && Eligible(nodes[i], cpu) then Some(i)
    else FirstFitFrom(nodes, failed, cpu, i + 1)
  }

  /** The inner `for ... else` scan for a target node. */
  function FirstFit(nodes: seq<Node>, failed: nat, cpu: int): (r: Option<nat>)
    ensures r.Some? ==> IsFirstFit(nodes, failed, cpu, r.value)
    ensures r.None? <==> forall k :: 0 <= k < |nodes| && k != failed ==> !Eligible(nodes[k], cpu)
  {
    FirstFitFrom(nodes, failed, cpu, 0)
  }

  /** Only pods lists and pod `node_id`s change; every other field stays. */
  predicate Framed(c: Cluster, r: Cluster) {
    |r.nodes| == |c.nodes|
    && (forall k :: 0 <= k < |c.nodes| ==> r.nodes[k] == c.nodes[k].(pods := r.nodes[k].pods))
    && r.pods.Keys == c.pods.Keys
    && (forall q :: q in c.pods ==> r.pods[q] == c.pods[q].(nodeId := r.pods[q].nodeId))
  }

  /** Lists only grow, and a node that cannot receive pods keeps its list. */
  predicate OnlyAppends(c: Cluster, r: Cluster, failed: nat)
    requires |r.nodes| == |c.nodes|
  {
    forall k :: 0 <= k < |c.nodes| ==>
      c.nodes[k].pods <= r.nodes[k].pods
      && (k == failed || c.nodes[k].status != Healthy ==> r.nodes[k].pods == c.nodes[k].pods)
  }

  /**
   * Reschedules one pod of the failed node: it is appended to the first other
   * eligible node and only its record's `node_id` is updated; when no node
   * fits, nothing changes.
   */
  function RelocateOne(c: Cluster, failed: nat, p: Placement): (r: Cluster)
    requires p.id in c.pods
    ensures (forall k :: 0 <= k < |c.nodes| && k != failed ==> !Eligible(c.nodes[k], p.cpu)) ==> r == c
    ensures forall j: nat :: IsFirstFit(c.nodes, failed, p.cpu, j) ==>
      |r.nodes| == |c.nodes|
      && r.nodes[j] == c.nodes[j].(pods := c.nodes[j].pods + [p])
      && (forall k :: 0 <= k < |c.nodes| && k != j ==> r.nodes[k] == c.nodes[k])
      && r.pods == c.pods[p.id := c.pods[p.id].(nodeId := Some(c.nodes[j].id))]
      && Used(r.nodes[j].pods) <= r.nodes[j].cpuCores
    ensures Framed(c, r) && OnlyAppends(c, r, failed)
  {
    match FirstFit(c.nodes, failed, p.cpu)
    case None => c
    case Some(j) =>
      var target := c.nodes[j];
      UsedAppend(target.pods, p);
      var nodes := SetNode(c.nodes, j, target.(pods := target.pods + [p]));
      assert forall j': nat :: IsFirstFit(c.nodes, failed, p.cpu, j') ==> j' == j;
      Cluster(nodes, c.pods[p.id := c.pods[p.id].(nodeId := Some(target.id))])
  }

  /** Reschedules the pods of the failed node one after the other, in list order. */
  function RelocateAll(c: Cluster, failed: nat, ps: seq<Placement>): (r: Cluster)
    requires forall m :: 0 <= m < |ps| ==> ps[m].id in c.pods
    ensures Framed(c, r) && OnlyAppends(c, r, failed)
    decreases |ps|
  {
    if ps == [] then c
    else
      var c1 := RelocateOne(c, failed, ps[0]);
      var r := RelocateAll(c1, failed, ps[1..]);
      AppendsCompose(c, c1, r, failed);
      r
  }

  lemma AppendsCompose(c: Cluster, c1: Cluster, r: Cluster, failed: nat)
    requires Framed(c, c1) && OnlyAppends(c, c1, failed)
    requires Framed(c1, r) && OnlyAppends(c1, r, failed)
    ensures Framed(c, r) && OnlyAppends(c, r, failed)
  {
  }

  /** Relocating one pod lists only that pod anew and touches only its record. */
  lemma RelocateOneSources(c: Cluster, failed: nat, p: Placement)
    requires p.id in c.pods
    ensures var r := RelocateOne(c, failed, p);
      (forall k, e :: 0 <= k < |r.nodes| && e in r.nodes[k].pods ==> e in c.nodes[k].pods || e == p)
      && (forall q :: q in c.pods && q != p.id ==> r.pods[q] == c.pods[q])
  {
  }

  /** Relocation only lists entries that were already listed or were waiting to move. */
  lemma {:induction false} RelocateAllSources(c: Cluster, failed: nat, ps: seq<Placement>)
    requires forall m :: 0 <= m < |ps| ==> ps[m].id in c.pods
    ensures var r := RelocateAll(c, failed, ps);
      forall k, e :: 0 <= k < |r.nodes| && e in r.nodes[k].pods ==> e in c.nodes[k].pods || e in ps
    decreases |ps|
  {
    if ps != [] {
      var c1 := RelocateOne(c, failed, ps[0]);
      RelocateOneSources(c, failed, ps[0]);
      RelocateAllSources(c1, failed, ps[1..]);
      var r := RelocateAll(c, failed, ps);
      assert r == RelocateAll(c1, failed, ps[1..]);
      forall k, e | 0 <= k < |r.nodes| && e in r.nodes[k].pods
        ensures e in c.nodes[k].pods || e in ps
      {
        if e in ps[1..] { assert e in ps; }
      }
    }
  }

  /** The record of a pod that is not waiting to move survives relocation. */
  lemma {:induction false} RecordUntouched(c: Cluster, failed: nat, ps: seq<Placement>, q: PodId)
    requires forall m :: 0 <= m < |ps| ==> ps[m].id in c.pods
    requires q in c.pods && forall m :: 0 <= m < |ps| ==> ps[m].id != q
    ensures RelocateAll(c, failed, ps).pods[q] == c.pods[q]
    decreases |ps|
  {
    if ps != [] {
      var c1 := RelocateOne(c, failed, ps[0]);
      RelocateOneSources(c, failed, ps[0]);
      assert ps[0].id != q;
      assert forall m :: 0 <= m < |ps[1..]| ==> ps[1..][m] == ps[m + 1];
      RecordUntouched(c1, failed, ps[1..], q);
    }
  }

  /** Relocating one pod never makes room anywhere. */
  lemma RelocateOneShrinks(c: Cluster, failed: nat, p: Placement)
    requires p.id in c.pods && p.cpu >= 0
    ensures RoomShrinks(c.nodes, RelocateOne(c, failed, p).nodes)
  {
    var f := FirstFit(c.nodes, failed, p.cpu);
    if f.Some? {
      UsedAppend(c.nodes[f.value].pods, p);
    }
  }

  /**
   * Where relocation from `c` to `r` leaves the entry `e`: listed on a node
   * other than `failed` whose id its record names, or with its record
   * untouched and no node other than `failed` having room for it.
   */
  predicate Settled(c: Cluster, r: Cluster, failed: nat, e: Placement) {
    e.id in c.pods && e.id in r.pods
    && ((exists k :: 0 <= k < |r.nodes| && k != failed && e in r.nodes[k].pods
                     && r.pods[e.id].nodeId == Some(r.nodes[k].id))
        || (r.pods[e.id] == c.pods[e.id] && NoRoomBut(r.nodes, failed, e.cpu)))
  }

  /** The pod relocated first is settled once the rest have been relocated too. */
  lemma FirstSettled(c: Cluster, failed: nat, p: Placement, rest: seq<Placement>)
    requires p.id in c.pods && p.cpu > 0
    requires forall m :: 0 <= m < |rest| ==> rest[m].id in c.pods && rest[m].id != p.id
    requires var c1 := RelocateOne(c, failed, p);
      RoomShrinks(c1.nodes, RelocateAll(c1, failed, rest).nodes)
    ensures Settled(c, RelocateAll(RelocateOne(c, failed, p), failed, rest), failed, p)
  {
    var c1 := RelocateOne(c, failed, p);
    RecordUntouched(c1, failed, rest, p.id);
    match FirstFit(c.nodes, failed, p.cpu)
    case None =>
      assert NoRoomBut(c.nodes, failed, p.cpu);
    case Some(j) =>
      KeptPlaced(c, failed, p, rest, j);
  }

  /** A pod placed on node `j` stays listed there while later pods move. */
  lemma KeptPlaced(c: Cluster, failed: nat, p: Placement, rest: seq<Placement>, j: nat)
    requires p.id in c.pods
    requires forall m :: 0 <= m < |rest| ==> rest[m].id in c.pods
    requires IsFirstFit(c.nodes, failed, p.cpu, j)
    ensures var c1 := RelocateOne(c, failed, p); var r := RelocateAll(c1, failed, rest);
      j < |r.nodes| && p in r.nodes[j].pods && r.nodes[j].id == c.nodes[j].id
      && c1.pods[p.id].nodeId == Some(c.nodes[j].id)
  {
    var c1 := RelocateOne(c, failed, p);
    var r := RelocateAll(c1, failed, rest);
    assert c1.nodes[j].pods == c.nodes[j].pods + [p];
    assert p in c1.nodes[j].pods;
    assert c1.nodes[j].pods <= r.nodes[j].pods;
  }

  /** A later pod settled after the first move is settled from the start. */
  lemma LaterSettled(c: Cluster, c1: Cluster, r: Cluster, failed: nat, e: Placement)
    requires e.id in c.pods && e.id in c1.pods && c1.pods[e.id] == c.pods[e.id]
    requires Settled(c1, r, failed, e)
    ensures Settled(c, r, failed, e)
  {
  }

  /** Relocating a list of pods never makes room anywhere. */
  lemma {:induction false} RelocateAllShrinks(c: Cluster, failed: nat, ps: seq<Placement>)
    requires forall m :: 0 <= m < |ps| ==> ps[m].id in c.pods && ps[m].cpu > 0
    ensures RoomShrinks(c.nodes, RelocateAll(c, failed, ps).nodes)
    decreases |ps|
  {
    if ps != [] {
      var c1 := RelocateOne(c, failed, ps[0]);
      RelocateOneShrinks(c, failed, ps[0]);
      RelocateAllShrinks(c1, failed, ps[1..]);
      assert RelocateAll(c, failed, ps) == RelocateAll(c1, failed, ps[1..]);
      RoomShrinksTransitive(c.nodes, c1.nodes, RelocateAll(c1, failed, ps[1..]).nodes);
    }
  }

  lemma {:induction false} RelocateAllSettles(c: Cluster, failed: nat, ps: seq<Placement>)
    requires DistinctPods(ps)
    requires forall m :: 0 <= m < |ps| ==> ps[m].id in c.pods && ps[m].cpu > 0
    ensures forall m :: 0 <= m < |ps| ==> Settled(c, RelocateAll(c, failed, ps), failed, ps[m])
    decreases |ps|
  {
    if ps != [] {
      var p, rest := ps[0], ps[1..];
      var c1 := RelocateOne(c, failed, p);
      var r := RelocateAll(c1, failed, rest);
      assert RelocateAll(c, failed, ps) == r;
      RestMovable(c, failed, ps);
      RelocateAllShrinks(c1, failed, rest);
      RelocateAllSettles(c1, failed, rest);
      FirstSettled(c, failed, p, rest);
      RelocateOneSources(c, failed, p);
      LaterAllSettled(c, c1, r, failed, p, rest);
      AllSettled(c, r, failed, ps);
    }
  }

  /** After the first pod moves, the rest are still distinct, known and positive, and differ from it. */
  lemma RestMovable(c: Cluster, failed: nat, ps: seq<Placement>)
    requires ps != [] && DistinctPods(ps)
    requires forall m :: 0 <= m < |ps| ==> ps[m].id in c.pods && ps[m].cpu > 0
    ensures var c1, rest := RelocateOne(c, failed, ps[0]), ps[1..];
      DistinctPods(rest)
      && forall m :: 0 <= m < |rest| ==> rest[m].id in c1.pods && rest[m].cpu > 0 && rest[m].id != ps[0].id
  {
    var rest := ps[1..];
    assert forall m :: 0 <= m < |rest| ==> rest[m] == ps[m + 1];
  }

  lemma AllSettled(c: Cluster, r: Cluster, failed: nat, ps: seq<Placement>)
    requires ps != [] && Settled(c, r, failed, ps[0])
    requires forall m :: 0 <= m < |ps[1..]| ==> Settled(c, r, failed, ps[1..][m])
    ensures forall m :: 0 <= m < |ps| ==> Settled(c, r, failed, ps[m])
  {
    forall m | 0 < m < |ps|
      ensures Settled(c, r, failed, ps[m])
    {
      assert ps[m] == ps[1..][m - 1];
    }
  }

  /** Pods relocated after the first one settle as they did from the state after the first move. */
  lemma LaterAllSettled(c: Cluster, c1: Cluster, r: Cluster, failed: nat, p: Placement, rest: seq<Placement>)
    requires forall q :: q in c.pods && q != p.id ==> q in c1.pods && c1.pods[q] == c.pods[q]
    requires forall m :: 0 <= m < |rest| ==> rest[m].id in c.pods && rest[m].id != p.id
    requires forall m :: 0 <= m < |rest| ==> Settled(c1, r, failed, rest[m])
    ensures forall m :: 0 <= m < |rest| ==> Settled(c, r, failed, rest[m])
  {
    forall m | 0 <= m < |rest|
      ensures Settled(c, r, failed, rest[m])
    {
      LaterSettled(c, c1, r, failed, rest[m]);
    }
  }

  /** The node table while node `i`'s pods are relocated off it. */
  function Downed(c: Cluster, i: nat): (r: Cluster)
    requires i < |c.nodes|
    ensures |r.nodes| == |c.nodes| && r.pods == c.pods
    ensures r.nodes[i] == c.nodes[i].(status := Unhealthy)
    ensures forall k :: 0 <= k < |c.nodes| && k != i ==> r.nodes[k] == c.nodes[k]
    ensures AllPlacedKnown(c) ==> AllPlacedKnown(r)
  {
    var r := Cluster(SetNode(c.nodes, i, c.nodes[i].(status := Unhealthy)), c.pods);
    assert forall k :: 0 <= k < |c.nodes| ==> r.nodes[k].pods == c.nodes[k].pods;
    r
  }

  /** After relocating `ps` off node `i` and emptying its list, every listed id has a record. */
  lemma EvacuatedPlacedKnown(c: Cluster, i: nat, ps: seq<Placement>)
    requires i < |c.nodes| && AllPlacedKnown(c)
    requires forall m :: 0 <= m < |ps| ==> ps[m].id in c.pods
    ensures var c2 := RelocateAll(c, i, ps);
      AllPlacedKnown(Cluster(SetNode(c2.nodes, i, c2.nodes[i].(pods := [])), c2.pods))
  {
    var c2 := RelocateAll(c, i, ps);
    RelocateAllSources(c, i, ps);
    var r := Cluster(SetNode(c2.nodes, i, c2.nodes[i].(pods := [])), c2.pods);
    forall k, m | 0 <= k < |r.nodes| && 0 <= m < |r.nodes[k].pods|
      ensures r.nodes[k].pods[m].id in r.pods
    {
      assert r.nodes[k].pods[m] in c2.nodes[k].pods;
      assert r.nodes[k].pods[m] in c.nodes[k].pods || r.nodes[k].pods[m] in ps;
    }
  }

  /**
   * Fails node `i`: marks it Unhealthy, relocates its pods first-fit in list
   * order, then empties its list.
   */
  function FailNode(c: Cluster, i: nat): (r: Cluster)
    requires i < |c.nodes| && AllPlacedKnown(c)
    ensures |r.nodes| == |c.nodes| && r.pods.Keys == c.pods.Keys
    ensures r.nodes[i] == c.nodes[i].(status := Unhealthy, pods := [])
    ensures forall q :: q in c.pods ==> r.pods[q] == c.pods[q].(nodeId := r.pods[q].nodeId)
    ensures forall k :: 0 <= k < |c.nodes| && k != i ==>
      r.nodes[k] == c.nodes[k].(pods := r.nodes[k].pods)
      && c.nodes[k].pods <= r.nodes[k].pods
      && (c.nodes[k].status != Healthy ==> r.nodes[k] == c.nodes[k])
    ensures AllPlacedKnown(r)
  {
    var c1 := Downed(c, i);
    var ps := c.nodes[i].pods;
    assert forall m :: 0 <= m < |ps| ==> ps[m].id in c1.pods;
    var c2 := RelocateAll(c1, i, ps);
    EvacuatedPlacedKnown(c1, i, ps);
    Cluster(SetNode(c2.nodes, i, c2.nodes[i].(pods := [])), c2.pods)
  }

  /** One iteration of the outer loop, at position `i`. */
  function SweepNode(c: Cluster, i: nat, now: int): (r: Cluster)
    requires i < |c.nodes| && AllPlacedKnown(c)
    ensures |r.nodes| == |c.nodes| && r.pods.Keys == c.pods.Keys
    ensures !Stale(c.nodes[i], now) ==> r == c
    ensures Stale(c.nodes[i], now) ==> r.nodes[i] == c.nodes[i].(status := Unhealthy, pods := [])
    ensures forall q :: q in c.pods ==> r.pods[q] == c.pods[q].(nodeId := r.pods[q].nodeId)
    ensures forall k :: 0 <= k < |c.nodes| && k != i ==>
      r.nodes[k] == c.nodes[k].(pods := r.nodes[k].pods)
      && c.nodes[k].pods <= r.nodes[k].pods
      && (c.nodes[k].status != Healthy ==> r.nodes[k] == c.nodes[k])
    ensures AllPlacedKnown(r)
  {
    if Stale(c.nodes[i], now) then FailNode(c, i) else c
  }

  /** Sweeping a stale node: relocate its pods, then empty its list. */
  lemma SweepNodeUnfolds(c: Cluster, i: nat, now: int)
    requires WellFormed(c) && i < |c.nodes| && Stale(c.nodes[i], now)
    ensures AllPlacedKnown(c)
    ensures NodeOk(c.nodes[i], c.pods) && PositiveCpu(c.nodes[i].pods)
    ensures var c2 := RelocateAll(Downed(c, i), i, c.nodes[i].pods);
      SweepNode(c, i, now) == FailNode(c, i)
      && FailNode(c, i) == Cluster(SetNode(c2.nodes, i, c2.nodes[i].(pods := [])), c2.pods)
  {
    WellFormedPlacedKnown(c);
    assert NodeOk(c.nodes[i], c.pods);
    BackedPositive(c.nodes[i], c.pods);
  }

  /**
   * From `c` to `r` no room appears, no entry appears that was not listed
   * before, and pods listed nowhere keep their records.
   */
  predicate SweptSources(c: Cluster, r: Cluster) {
    RoomShrinks(c.nodes, r.nodes)
    && r.pods.Keys == c.pods.Keys
    && (forall k, e :: 0 <= k < |r.nodes| && e in r.nodes[k].pods ==> Listed(c, e))
    && (forall q :: q in c.pods && !ListsId(c, q) ==> r.pods[q] == c.pods[q])
  }

  /**
   * Entry `e` of stale node `i` was left behind by its step: `r` lists its
   * id nowhere, keeps its record naming node `i`, and has no room for it.
   */
  predicate LeftBehind(c: Cluster, r: Cluster, i: nat, now: int, e: Placement)
    requires i < |c.nodes|
  {
    Stale(c.nodes[i], now) && e in c.nodes[i].pods && e.id in c.pods && e.id in r.pods
    && c.pods[e.id].nodeId == Some(c.nodes[i].id)
    && r.pods[e.id] == c.pods[e.id] && !ListsId(r, e.id) && NoRoom(r.nodes, e.cpu)
  }

  /**
   * Sweeping node `i` from `c` to `r`: an entry listed before is still
   * listed, or it was on the stale node `i`, keeps its record, and no node
   * has room for it.
   */
  ghost predicate NodeSettles(c: Cluster, r: Cluster, i: nat, now: int) {
    i < |c.nodes|
    && forall e :: Listed(c, e) ==> Listed(r, e) || LeftBehind(c, r, i, now, e)
  }

  /**
   * Entry `e` is still listed in `r`, or its record in `r` names a node at
   * position `i` or later that was stale in `c` and no node has room for it.
   */
  predicate EntrySettled(c: Cluster, r: Cluster, i: nat, now: int, e: Placement) {
    Listed(r, e)
    || (e.id in r.pods
        && (exists j :: i <= j < |c.nodes| && Stale(c.nodes[j], now)
                        && r.pods[e.id].nodeId == Some(c.nodes[j].id))
        && NoRoom(r.nodes, e.cpu))
  }

  ghost predicate SweptSettles(c: Cluster, r: Cluster, i: nat, now: int) {
    forall e :: Listed(c, e) ==> EntrySettled(c, r, i, now, e)
  }

  lemma SweepNodeSources(c: Cluster, i: nat, now: int)
    requires WellFormed(c) && i < |c.nodes|
    ensures AllPlacedKnown(c) && SweptSources(c, SweepNode(c, i, now))
  {
    WellFormedPlacedKnown(c);
    if Stale(c.nodes[i], now) {
      FailNodeSources(c, i);
    } else {
      forall k, e | 0 <= k < |c.nodes| && e in c.nodes[k].pods
        ensures Listed(c, e)
      {
      }
    }
  }

  /** Failing node `i` opens no room, lists only old entries and keeps unlisted records. */
  lemma FailNodeSources(c: Cluster, i: nat)
    requires WellFormed(c) && i < |c.nodes|
    ensures AllPlacedKnown(c) && SweptSources(c, FailNode(c, i))
  {
    WellFormedPlacedKnown(c);
    FailNodeShrinks(c, i);
    FailNodeEntries(c, i);
    FailNodeRecords(c, i);
  }

  lemma FailNodeShrinks(c: Cluster, i: nat)
    requires WellFormed(c) && i < |c.nodes|
    ensures AllPlacedKnown(c) && RoomShrinks(c.nodes, FailNode(c, i).nodes)
  {
    WellFormedPlacedKnown(c);
    assert NodeOk(c.nodes[i], c.pods);
    BackedPositive(c.nodes[i], c.pods);
    var ps := c.nodes[i].pods;
    var c1 := Downed(c, i);
    var c2 := RelocateAll(c1, i, ps);
    var r := FailNode(c, i);
    RelocateAllShrinks(c1, i, ps);
    forall k | 0 <= k < |c.nodes| && r.nodes[k].status == Healthy
      ensures c.nodes[k].status == Healthy && Available(r.nodes[k]) <= Available(c.nodes[k])
    {
      assert k != i && r.nodes[k] == c2.nodes[k] && c1.nodes[k] == c.nodes[k];
    }
  }

  lemma FailNodeEntries(c: Cluster, i: nat)
    requires WellFormed(c) && i < |c.nodes|
    ensures AllPlacedKnown(c)
    ensures var r := FailNode(c, i);
      forall k, e :: 0 <= k < |r.nodes| && e in r.nodes[k].pods ==> Listed(c, e)
  {
    WellFormedPlacedKnown(c);
    var ps := c.nodes[i].pods;
    var c1 := Downed(c, i);
    var c2 := RelocateAll(c1, i, ps);
    var r := FailNode(c, i);
    RelocateAllSources(c1, i, ps);
    forall k, e | 0 <= k < |r.nodes| && e in r.nodes[k].pods
      ensures Listed(c, e)
    {
      assert k != i && e in c2.nodes[k].pods;
      if e in c1.nodes[k].pods {
        assert e in c.nodes[k].pods;
      } else {
        assert e in c.nodes[i].pods;
      }
    }
  }

  lemma FailNodeRecords(c: Cluster, i: nat)
    requires WellFormed(c) && i < |c.nodes|
    ensures AllPlacedKnown(c)
    ensures var r := FailNode(c, i);
      forall q :: q in c.pods && !ListsId(c, q) ==> r.pods[q] == c.pods[q]
  {
    WellFormedPlacedKnown(c);
    var ps := c.nodes[i].pods;
    var c1 := Downed(c, i);
    var r := FailNode(c, i);
    forall q | q in c.pods && !ListsId(c, q)
      ensures r.pods[q] == c.pods[q]
    {
      forall m | 0 <= m < |ps| ensures ps[m].id != q {
        assert c.nodes[i].pods[m].id == ps[m].id;
      }
      RecordUntouched(c1, i, ps, q);
    }
  }

  lemma SweepNodeSettles(c: Cluster, i: nat, now: int)
    requires WellFormed(c) && i < |c.nodes|
    ensures AllPlacedKnown(c) && NodeSettles(c, SweepNode(c, i, now), i, now)
  {
    WellFormedPlacedKnown(c);
    var r := SweepNode(c, i, now);
    forall e | Listed(c, e)
      ensures Listed(r, e) || LeftBehind(c, r, i, now, e)
    {
      var k :| 0 <= k < |c.nodes| && e in c.nodes[k].pods;
      if k != i || !Stale(c.nodes[i], now) {
        assert c.nodes[k].pods <= r.nodes[k].pods;
        assert e in r.nodes[k].pods;
      } else {
        StaleEntryLeftBehind(c, i, now, e);
      }
    }
  }

  lemma StaleEntryLeftBehind(c: Cluster, i: nat, now: int, e: Placement)
    requires WellFormed(c) && i < |c.nodes| && Stale(c.nodes[i], now) && e in c.nodes[i].pods
    ensures AllPlacedKnown(c)
    ensures var r := SweepNode(c, i, now);
      Listed(r, e) || LeftBehind(c, r, i, now, e)
  {
    var r := SweepNode(c, i, now);
    StaleEntrySettles(c, i, now, e);
    if !Listed(r, e) {
      assert NodeOk(c.nodes[i], c.pods);
      SweepNodePreservesWellFormed(c, i, now);
      UnlistedId(r, e);
    }
  }

  lemma StaleEntrySettles(c: Cluster, i: nat, now: int, e: Placement)
    requires WellFormed(c) && i < |c.nodes| && Stale(c.nodes[i], now) && e in c.nodes[i].pods
    ensures AllPlacedKnown(c)
    ensures var r := SweepNode(c, i, now);
      Listed(r, e) || (e.id in c.pods && r.pods[e.id] == c.pods[e.id] && NoRoom(r.nodes, e.cpu))
  {
    SweepNodeUnfolds(c, i, now);
    var ps := c.nodes[i].pods;
    var c1 := Downed(c, i);
    var c2 := RelocateAll(c1, i, ps);
    var r := SweepNode(c, i, now);
    RelocateAllSettles(c1, i, ps);
    var m :| 0 <= m < |ps| && ps[m] == e;
    assert Settled(c1, c2, i, e);
    assert r.nodes == SetNode(c2.nodes, i, c2.nodes[i].(pods := [])) && r.pods == c2.pods;
    if exists k :: 0 <= k < |c2.nodes| && k != i && e in c2.nodes[k].pods {
      var k :| 0 <= k < |c2.nodes| && k != i && e in c2.nodes[k].pods;
      assert r.nodes[k] == c2.nodes[k];
      assert e in r.nodes[k].pods;
    } else {
      assert NoRoomBut(c2.nodes, i, e.cpu) && r.pods[e.id] == c.pods[e.id];
      forall k | 0 <= k < |r.nodes|
        ensures !Eligible(r.nodes[k], e.cpu)
      {
        if k != i {
          assert r.nodes[k] == c2.nodes[k];
        }
      }
    }
  }

  lemma SourcesCompose(c: Cluster, c1: Cluster, r: Cluster)
    requires SweptSources(c, c1) && SweptSources(c1, r)
    ensures SweptSources(c, r)
  {
    forall k, e | 0 <= k < |r.nodes| && e in r.nodes[k].pods
      ensures Listed(c, e)
    {
      assert Listed(c1, e);
      var k1 :| 0 <= k1 < |c1.nodes| && e in c1.nodes[k1].pods;
    }
    forall q | q in c.pods && !ListsId(c, q)
      ensures r.pods[q] == c.pods[q]
    {
      if ListsId(c1, q) {
        var k, m :| 0 <= k < |c1.nodes| && 0 <= m < |c1.nodes[k].pods| && c1.nodes[k].pods[m].id == q;
        var e := c1.nodes[k].pods[m];
        assert e in c1.nodes[k].pods;
        ListedListsId(c, e);
        assert false;
      }
    }
  }

  /** Node `i`'s step followed by the sweep from `i + 1` settles what was listed. */
  lemma {:induction false} SettlesCompose(c: Cluster, i: nat, now: int)
    requires WellFormed(c) && i < |c.nodes| && AllPlacedKnown(c)
    ensures AllPlacedKnown(SweepNode(c, i, now))
    ensures SweptSettles(c, SweepFrom(SweepNode(c, i, now), i + 1, now).cluster, i, now)
    decreases |c.nodes| - i, 1
  {
    var c1 := SweepNode(c, i, now);
    SweepNodeSettles(c, i, now);
    SweepNodePreservesWellFormed(c, i, now);
    SweepNodeSameAfter(c, i, now);
    ComposeEntries(c, c1, i, now);
  }

  /** The sweep from `i + 1` on, run after node `i`'s step, leaves every entry settled. */
  lemma {:induction false} ComposeEntries(c: Cluster, c1: Cluster, i: nat, now: int)
    requires i < |c.nodes| && SameAfter(c, c1, i, now) && NodeSettles(c, c1, i, now) && WellFormed(c1)
    ensures AllPlacedKnown(c1) && SweptSettles(c, SweepFrom(c1, i + 1, now).cluster, i, now)
    decreases |c.nodes| - i, 0
  {
    var r := SweepFrom(c1, i + 1, now).cluster;
    SweepFromSources(c1, i + 1, now);
    SweepFromSettles(c1, i + 1, now);
    SettleEntries(c, c1, r, i, now);
  }

  /** Entries settled by node `i`'s step and then by the rest of the sweep are settled by both. */
  lemma SettleEntries(c: Cluster, c1: Cluster, r: Cluster, i: nat, now: int)
    requires i < |c.nodes| && SameAfter(c, c1, i, now) && NodeSettles(c, c1, i, now)
    requires SweptSources(c1, r) && SweptSettles(c1, r, i + 1, now)
    ensures SweptSettles(c, r, i, now)
  {
    forall e | Listed(c, e)
      ensures EntrySettled(c, r, i, now, e)
    {
      if Listed(c1, e) {
        KeptEntry(c, c1, r, i, now, e);
      } else {
        DroppedEntry(c, c1, r, i, now, e);
      }
    }
  }

  /** Nodes after `i` keep their ids and staleness through node `i`'s step. */
  predicate SameAfter(c: Cluster, c1: Cluster, i: nat, now: int) {
    |c1.nodes| == |c.nodes|
    && forall k :: i < k < |c.nodes| ==>
         c1.nodes[k].id == c.nodes[k].id && Stale(c1.nodes[k], now) == Stale(c.nodes[k], now)
  }

  lemma SweepNodeSameAfter(c: Cluster, i: nat, now: int)
    requires i < |c.nodes| && AllPlacedKnown(c)
    ensures SameAfter(c, SweepNode(c, i, now), i, now)
  {
  }

  /** An entry still listed after node `i`'s step settles as the rest of the sweep leaves it. */
  lemma KeptEntry(c: Cluster, c1: Cluster, r: Cluster, i: nat, now: int, e: Placement)
    requires SameAfter(c, c1, i, now) && EntrySettled(c1, r, i + 1, now, e)
    ensures EntrySettled(c, r, i, now, e)
  {
    if !Listed(r, e) {
      var j :| i + 1 <= j < |c1.nodes| && Stale(c1.nodes[j], now)
               && r.pods[e.id].nodeId == Some(c1.nodes[j].id);
      assert Stale(c.nodes[j], now) && c.nodes[j].id == c1.nodes[j].id;
    }
  }

  /** An entry node `i`'s step left behind stays so: its record names node `i`. */
  lemma DroppedEntry(c: Cluster, c1: Cluster, r: Cluster, i: nat, now: int, e: Placement)
    requires i < |c.nodes| && LeftBehind(c, c1, i, now, e) && SweptSources(c1, r)
    ensures EntrySettled(c, r, i, now, e)
  {
    assert r.pods[e.id] == c.pods[e.id];
  }

  datatype Swept = Swept(cluster: Cluster, changed: bool)

  /** What the outer loop from position `i` on does to the node table. */
  predicate NodesSwept(c: seq<Node>, r: seq<Node>, i: nat, now: int) {
    |r| == |c|
    && (forall k :: 0 <= k < |c| ==> r[k] == c[k].(status := r[k].status, pods := r[k].pods))
    && (forall k :: 0 <= k < |c| ==>
          r[k].status == (if i <= k && Stale(c[k], now) then Unhealthy else c[k].status))
    && (forall k :: i <= k < |c| && Stale(c[k], now) ==> r[k].pods == [])
    && (forall k :: 0 <= k < |c| && (k < i || !Stale(c[k], now)) ==> c[k].pods <= r[k].pods)
    && (forall k :: 0 <= k < |c| && c[k].status == Unhealthy ==> r[k] == c[k])
  }

  /** Pod records keep their keys, ids, cpu and status; only `node_id` may change. */
  predicate RecordsSwept(c: map<PodId, Pod>, r: map<PodId, Pod>) {
    r.Keys == c.Keys && forall q :: q in c ==> r[q] == c[q].(nodeId := r[q].nodeId)
  }

  lemma NodesSweptStep(c: Cluster, c1: Cluster, r: seq<Node>, i: nat, now: int)
    requires i < |c.nodes| && AllPlacedKnown(c) && c1 == SweepNode(c, i, now)
    requires NodesSwept(c1.nodes, r, i + 1, now)
    ensures NodesSwept(c.nodes, r, i, now)
  {
    forall k | 0 <= k < |c.nodes| && k != i
      ensures Stale(c1.nodes[k], now) == Stale(c.nodes[k], now)
    {
    }
  }

  /** The outer loop from position `i` on; `changed` is the source's write flag. */
  function SweepFrom(c: Cluster, i: nat, now: int): (r: Swept)
    requires i <= |c.nodes| && AllPlacedKnown(c)
    ensures |r.cluster.nodes| == |c.nodes| && AllPlacedKnown(r.cluster)
    decreases |c.nodes| - i
  {
    if i == |c.nodes| then Swept(c, false)
    else
      var rest := SweepFrom(SweepNode(c, i, now), i + 1, now);
      Swept(rest.cluster, Stale(c.nodes[i], now) || rest.changed)
  }

  /** What the sweep from `i` on does to each node and each pod record. */
  lemma {:induction false} SweepFromShape(c: Cluster, i: nat, now: int)
    requires i <= |c.nodes| && AllPlacedKnown(c)
    ensures NodesSwept(c.nodes, SweepFrom(c, i, now).cluster.nodes, i, now)
    ensures RecordsSwept(c.pods, SweepFrom(c, i, now).cluster.pods)
    decreases |c.nodes| - i
  {
    if i < |c.nodes| {
      var c1 := SweepNode(c, i, now);
      var r := SweepFrom(c1, i + 1, now).cluster;
      SweepFromShape(c1, i + 1, now);
      SweepFromUnfolds(c, i, now);
      NodesSweptStep(c, c1, r.nodes, i, now);
    }
  }

  /** The write flag is set exactly when some node from `i` on was stale; otherwise nothing changed. */
  lemma {:induction false} SweepFromChanged(c: Cluster, i: nat, now: int)
    requires i <= |c.nodes| && AllPlacedKnown(c)
    ensures var r := SweepFrom(c, i, now);
      (r.changed <==> exists k :: i <= k < |c.nodes| && Stale(c.nodes[k], now))
      && (!r.changed ==> r.cluster == c)
    decreases |c.nodes| - i
  {
    if i < |c.nodes| {
      var c1 := SweepNode(c, i, now);
      SweepFromChanged(c1, i + 1, now);
      SweepNodeSameAfter(c, i, now);
      if !Stale(c.nodes[i], now) {
        assert c1 == c;
      }
    }
  }

  /** One step of the outer loop. */
  lemma SweepFromUnfolds(c: Cluster, i: nat, now: int)
    requires i < |c.nodes| && AllPlacedKnown(c)
    ensures SweepFrom(c, i, now).cluster == SweepFrom(SweepNode(c, i, now), i + 1, now).cluster
  {
  }

  lemma {:induction false} SweepFromSources(c: Cluster, i: nat, now: int)
    requires WellFormed(c) && i <= |c.nodes|
    ensures AllPlacedKnown(c) && SweptSources(c, SweepFrom(c, i, now).cluster)
    decreases |c.nodes| - i
  {
    WellFormedPlacedKnown(c);
    if i < |c.nodes| {
      var c1 := SweepNode(c, i, now);
      SweepNodeSources(c, i, now);
      SweepNodePreservesWellFormed(c, i, now);
      SweepFromSources(c1, i + 1, now);
      SweepFromUnfolds(c, i, now);
      SourcesCompose(c, c1, SweepFrom(c1, i + 1, now).cluster);
    } else {
      forall k, e | 0 <= k < |c.nodes| && e in c.nodes[k].pods
        ensures Listed(c, e)
      {
      }
    }
  }

  lemma {:induction false} SweepFromSettles(c: Cluster, i: nat, now: int)
    requires WellFormed(c) && i <= |c.nodes|
    ensures AllPlacedKnown(c) && SweptSettles(c, SweepFrom(c, i, now).cluster, i, now)
    decreases |c.nodes| - i, 2
  {
    WellFormedPlacedKnown(c);
    if i < |c.nodes| {
      SweepFromUnfolds(c, i, now);
      SettlesCompose(c, i, now);
    }
  }

  /**
   * `check_node_health()` at time `now`. The pod-record lookup of the source
   * fails for a listed pod without a record, hence the precondition.
   */
  function CheckNodeHealth(c: Cluster, now: int): (r: Swept)
    requires AllPlacedKnown(c)
    ensures |r.cluster.nodes| == |c.nodes|
    ensures forall k :: 0 <= k < |c.nodes| ==>
      var n, n' := c.nodes[k], r.cluster.nodes[k];
      n'.id == n.id && n'.cpuCores == n.cpuCores && n'.lastHeartbeat == n.lastHeartbeat
      && n'.status == (if Stale(n, now) then Unhealthy else n.status)
      && (Stale(n, now) ==> n'.pods == [])
      && (!Stale(n, now) ==> n.pods <= n'.pods)
      && (n.status == Unhealthy ==> n' == n)
    ensures r.cluster.pods.Keys == c.pods.Keys
    ensures forall q :: q in c.pods ==>
      var p, p' := c.pods[q], r.cluster.pods[q];
      p'.id == p.id && p'.cpu == p.cpu && p'.status == p.status
    ensures r.changed <==> exists k :: 0 <= k < |c.nodes| && Stale(c.nodes[k], now)
    ensures !r.changed ==> r.cluster == c
  {
    SweepFromShape(c, 0, now);
    SweepFromChanged(c, 0, now);
    SweepFrom(c, 0, now)
  }

  /**
   * The invariant while the pods still to move, `ps`, are relocated off
   * `failed`: every other node is well formed, and the pending pods have
   * records naming the failed node and are listed nowhere else.
   */
  predicate Evacuating(c: Cluster, failed: nat, ps: seq<Placement>) {
    failed < |c.nodes| && c.nodes[failed].status == Unhealthy && c.nodes[failed].cpuCores >= 0
    && RecordsKeyed(c.pods)
    && (forall k :: 0 <= k < |c.nodes| && k != failed ==> NodeOk(c.nodes[k], c.pods))
    && DistinctPods(ps)
    && (forall m :: 0 <= m < |ps| ==>
          ps[m].id in c.pods
          && c.pods[ps[m].id].nodeId == Some(c.nodes[failed].id)
          && c.pods[ps[m].id].cpu == ps[m].cpu)
  }

  /** A pending pod is not listed on any node other than the failed one. */
  lemma PendingNotListed(c: Cluster, failed: nat, ps: seq<Placement>, k: nat, m: nat)
    requires Evacuating(c, failed, ps) && ps != []
    requires k < |c.nodes| && k != failed && m < |c.nodes[k].pods|
    ensures c.nodes[k].pods[m].id != ps[0].id
  {
    assert NodeOk(c.nodes[k], c.pods);
  }

  /** The node that receives the pod stays within capacity and consistent. */
  lemma TargetStaysOk(c: Cluster, failed: nat, ps: seq<Placement>, j: nat)
    requires Evacuating(c, failed, ps) && ps != []
    requires IsFirstFit(c.nodes, failed, ps[0].cpu, j)
    ensures NodeOk(RelocateOne(c, failed, ps[0]).nodes[j], RelocateOne(c, failed, ps[0]).pods)
  {
    var p := ps[0];
    var r := RelocateOne(c, failed, p);
    var n := r.nodes[j];
    var before := c.nodes[j].pods;
    assert NodeOk(c.nodes[j], c.pods);
    assert n.pods == before + [p];
    forall a, b | 0 <= a < b < |n.pods| ensures n.pods[a].id != n.pods[b].id {
      assert n.pods[a] == before[a];
      if b < |before| {
        assert n.pods[b] == before[b];
      } else {
        PendingNotListed(c, failed, ps, j, a);
      }
    }
    forall m | 0 <= m < |n.pods|
      ensures n.pods[m].id in r.pods && r.pods[n.pods[m].id].nodeId == Some(n.id)
              && r.pods[n.pods[m].id].cpu == n.pods[m].cpu
    {
      if m < |before| {
        assert n.pods[m] == before[m];
        PendingNotListed(c, failed, ps, j, m);
      }
    }
  }

  /** A node that neither fails nor receives the pod keeps its records. */
  lemma BystanderStaysOk(c: Cluster, failed: nat, ps: seq<Placement>, r: Cluster, k: nat)
    requires Evacuating(c, failed, ps) && ps != []
    requires k < |c.nodes| && k != failed
    requires |r.nodes| == |c.nodes| && r.nodes[k] == c.nodes[k]
    requires forall q :: q in c.pods && q != ps[0].id ==> q in r.pods && r.pods[q] == c.pods[q]
    ensures NodeOk(r.nodes[k], r.pods)
  {
    assert NodeOk(c.nodes[k], c.pods);
    forall m | 0 <= m < |c.nodes[k].pods|
      ensures c.nodes[k].pods[m].id != ps[0].id
    {
      PendingNotListed(c, failed, ps, k, m);
    }
  }

  lemma RelocateOneEvacuates(c: Cluster, failed: nat, ps: seq<Placement>)
    requires Evacuating(c, failed, ps) && ps != []
    ensures Evacuating(RelocateOne(c, failed, ps[0]), failed, ps[1..])
  {
    var p := ps[0];
    var r := RelocateOne(c, failed, p);
    var f := FirstFit(c.nodes, failed, p.cpu);
    if f.Some? {
      var j := f.value;
      assert r.pods == c.pods[p.id := c.pods[p.id].(nodeId := Some(c.nodes[j].id))];
      forall k | 0 <= k < |r.nodes| && k != failed
        ensures NodeOk(r.nodes[k], r.pods)
      {
        if k == j {
          TargetStaysOk(c, failed, ps, j);
        } else {
          BystanderStaysOk(c, failed, ps, r, k);
        }
      }
      forall m | 0 <= m < |ps| - 1
        ensures ps[1..][m].id != p.id
      {
        assert ps[1..][m] == ps[m + 1];
      }
    }
  }

  lemma {:induction false} RelocateAllEvacuates(c: Cluster, failed: nat, ps: seq<Placement>)
    requires Evacuating(c, failed, ps)
    ensures Evacuating(RelocateAll(c, failed, ps), failed, [])
    decreases |ps|
  {
    if ps != [] {
      RelocateOneEvacuates(c, failed, ps);
      RelocateAllEvacuates(RelocateOne(c, failed, ps[0]), failed, ps[1..]);
    }
  }

  lemma SweepNodePreservesWellFormed(c: Cluster, i: nat, now: int)
    requires WellFormed(c) && i < |c.nodes|
    ensures AllPlacedKnown(c) && WellFormed(SweepNode(c, i, now))
  {
    WellFormedPlacedKnown(c);
    if Stale(c.nodes[i], now) {
      var c1 := Downed(c, i);
      WellFormedCapacity(c, i);
      assert NodeOk(c.nodes[i], c.pods);
      assert Evacuating(c1, i, c.nodes[i].pods);
      RelocateAllEvacuates(c1, i, c.nodes[i].pods);
    }
  }

  lemma {:induction false} SweepFromPreservesWellFormed(c: Cluster, i: nat, now: int)
    requires WellFormed(c) && i <= |c.nodes|
    ensures AllPlacedKnown(c) && WellFormed(SweepFrom(c, i, now).cluster)
    decreases |c.nodes| - i
  {
    WellFormedPlacedKnown(c);
    if i < |c.nodes| {
      var c1 := SweepNode(c, i, now);
      SweepNodePreservesWellFormed(c, i, now);
      SweepFromPreservesWellFormed(c1, i + 1, now);
      assert SweepFrom(c, i, now).cluster == SweepFrom(c1, i + 1, now).cluster;
    }
  }

  /**
   * The sweep keeps all four parts of `WellFormed`: records are keyed by their
   * own id, no node holds more cpu than it has cores or lists a pod twice, and
   * every listed entry has a record naming the node that lists it.
   */
  lemma SweepPreservesWellFormed(c: Cluster, now: int)
    requires WellFormed(c)
    ensures AllPlacedKnown(c) && WellFormed(CheckNodeHealth(c, now).cluster)
  {
    SweepFromPreservesWellFormed(c, 0, now);
  }

  /**
   * Where the sweep leaves every pod. Each entry listed afterwards was listed
   * before and sits on the node its record names. Each entry listed before is
   * still listed, or is listed nowhere, its record names a node the sweep
   * failed, and no node has room for it. Pods listed nowhere keep their records.
   */
  lemma SweepRelocates(c: Cluster, now: int)
    requires WellFormed(c)
    ensures AllPlacedKnown(c)
    ensures var r := CheckNodeHealth(c, now).cluster;
      (forall k, e :: 0 <= k < |r.nodes| && e in r.nodes[k].pods ==>
         Listed(c, e) && e.id in r.pods && r.pods[e.id].nodeId == Some(r.nodes[k].id))
      && (forall e :: Listed(c, e) ==>
            Listed(r, e)
            || (!ListsId(r, e.id) && e.id in r.pods
                && (exists j :: 0 <= j < |c.nodes| && Stale(c.nodes[j], now)
                                && r.pods[e.id].nodeId == Some(c.nodes[j].id))
                && NoRoom(r.nodes, e.cpu)))
      && (forall q :: q in c.pods && !ListsId(c, q) ==> r.pods[q] == c.pods[q])
  {
    var r := CheckNodeHealth(c, now).cluster;
    SweepFromSources(c, 0, now);
    SweepFromSettles(c, 0, now);
    SweepFromPreservesWellFormed(c, 0, now);
    forall k, e | 0 <= k < |r.nodes| && e in r.nodes[k].pods
      ensures e.id in r.pods && r.pods[e.id].nodeId == Some(r.nodes[k].id)
    {
      assert NodeOk(r.nodes[k], r.pods);
    }
    forall e | Listed(c, e) && !Listed(r, e)
      ensures !ListsId(r, e.id)
    {
      var k :| 0 <= k < |c.nodes| && e in c.nodes[k].pods;
      assert NodeOk(c.nodes[k], c.pods);
      if ListsId(r, e.id) {
        ListsIdListed(r, e);
      }
    }
  }
}
