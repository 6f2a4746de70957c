/**
 * The cluster state held by the API server: an insertion-ordered table of
 * node records and a map of pod records, as the two JSON stores
 * `nodes.json` and `pods.json` hold them.
 */
module ClusterState {
  import opened Wrappers

  type NodeId = string
  type PodId = string

  /** Seconds of heartbeat silence after which the health sweep fails a node. */
  const HeartbeatTimeout: int := 10

  datatype NodeStatus = Healthy | Unhealthy
  datatype PodStatus = Running | Unscheduled

  /** One `{id, cpu}` entry of a node's `pods` list. */
  datatype Placement = Placement(id: PodId, cpu: int)

  datatype Node = Node(
    id: NodeId,
    cpuCores: int,
    status: NodeStatus,
    pods: seq<Placement>,
    lastHeartbeat: int)

  datatype Pod = Pod(id: PodId, cpu: int, nodeId: Option<NodeId>, status: PodStatus)

  /** Node ids are the keys of a dictionary, so no two records share one. */
  predicate UniqueIds(nodes: seq<Node>) {
    forall a, b :: 0 <= a < b < |nodes| ==> nodes[a].id != nodes[b].id
  }

  /** The node dictionary in its iteration (insertion) order. */
  type NodeTable = nodes: seq<Node> | UniqueIds(nodes) witness []

  datatype Cluster = Cluster(nodes: NodeTable, pods: map<PodId, Pod>)

  /** Sum of the cpu held by a `pods` list. */
  function Used(ps: seq<Placement>): int {
    if ps == [] then 0 else ps[0].cpu + Used(ps[1..])
  }

  function Available(n: Node): int {
    n.cpuCores - Used(n.pods)
  }

  /** A node the scheduler and the sweep may place a pod of `cpu` units on. */
  predicate Eligible(n: Node, cpu: int) {
    n.status == Healthy && Available(n) >= cpu
  }

  /** Position of the node whose id is `id`, or None when there is none. */
  function Find(nodes: seq<Node>, id: NodeId): (r: Option<nat>)
    ensures r.Some? ==> r.value < |nodes| && nodes[r.value].id == id
    ensures r.None? <==> forall k :: 0 <= k < |nodes| ==> nodes[k].id != id
  {
    if nodes == [] then None
    else if nodes[0].id == id then Some(0)
    else match Find(nodes[1..], id)
      case None => None
      case Some(i) => Some(i + 1)
  }

  /** Replaces the record at `j` by one with the same id. */
  function SetNode(nodes: NodeTable, j: nat, n: Node): (r: NodeTable)
    requires j < |nodes| && n.id == nodes[j].id
    ensures |r| == |nodes| && r[j] == n
    ensures forall k :: 0 <= k < |nodes| && k != j ==> r[k] == nodes[k]
  {
    nodes[j := n]
  }

  /** Drops the record at `j`, keeping the others in order. */
  function RemoveAt(nodes: NodeTable, j: nat): (r: NodeTable)
    requires j < |nodes|
    ensures |r| == |nodes| - 1
    ensures forall k :: 0 <= k < j ==> r[k] == nodes[k]
    ensures forall k :: j <= k < |r| ==> r[k] == nodes[k + 1]
  {
    var rest := nodes[..j] + nodes[j + 1..];
    assert UniqueIds(rest) by {
      forall a, b | 0 <= a < b < |rest| ensures rest[a].id != rest[b].id {
        var a' := if a < j then a else a + 1;
        var b' := if b < j then b else b + 1;
        assert rest[a] == nodes[a'] && rest[b] == nodes[b'];
      }
    }
    rest
  }

  /** Removing record `j` leaves exactly the records with another id, in order. */
  lemma RemoveAtShape(nodes: NodeTable, j: nat)
    requires j < |nodes|
    ensures var r := RemoveAt(nodes, j);
      r[..j] == nodes[..j] && r[j..] == nodes[j + 1..]
      && forall n :: n in r <==> n in nodes && n.id != nodes[j].id
  {
    var r := RemoveAt(nodes, j);
    assert r[..j] == nodes[..j] && r[j..] == nodes[j + 1..];
    forall n ensures n in r <==> n in nodes && n.id != nodes[j].id {
      if n in nodes && n.id != nodes[j].id {
        var k :| 0 <= k < |nodes| && nodes[k] == n;
        if k < j { assert r[k] == n; } else { assert r[k - 1] == n; }
      }
    }
  }

  /** The list comprehension keeping the entries whose id is not `pid`. */
  function Without(ps: seq<Placement>, pid: PodId): (r: seq<Placement>)
    ensures |r| <= |ps|
    ensures forall q :: q in r <==> q in ps && q.id != pid
    ensures (forall k :: 0 <= k < |ps| ==> ps[k].id != pid) ==> r == ps
  {
    if ps == [] then []
    else if ps[0].id == pid then Without(ps[1..], pid)
    else [ps[0]] + Without(ps[1..], pid)
  }

  /**
   * The filter works entry by entry: filtering a concatenation filters each
   * part, so the kept entries stay in their order and keep their multiplicity.
   */
  lemma {:induction false} WithoutConcat(a: seq<Placement>, b: seq<Placement>, pid: PodId)
    ensures Without(a + b, pid) == Without(a, pid) + Without(b, pid)
  {
    if a == [] {
      assert a + b == b;
    } else {
      assert (a + b)[1..] == a[1..] + b;
      WithoutConcat(a[1..], b, pid);
    }
  }

  predicate PositiveCpu(ps: seq<Placement>) {
    forall k :: 0 <= k < |ps| ==> ps[k].cpu > 0
  }

  predicate DistinctPods(ps: seq<Placement>) {
    forall a, b :: 0 <= a < b < |ps| ==> ps[a].id != ps[b].id
  }

  predicate WithinCapacity(n: Node) {
    Used(n.pods) <= n.cpuCores
  }

  /** Every entry of the node's list has a pod record pointing back at this node with the same cpu. */
  predicate Backed(n: Node, pods: map<PodId, Pod>) {
    forall k :: 0 <= k < |n.pods| ==>
      n.pods[k].id in pods
      && pods[n.pods[k].id].nodeId == Some(n.id)
      && pods[n.pods[k].id].cpu == n.pods[k].cpu
  }

  /** Pod records are stored under their own id and request a positive cpu amount. */
  predicate RecordsKeyed(pods: map<PodId, Pod>) {
    forall pid :: pid in pods ==> pods[pid].id == pid && pods[pid].cpu > 0
  }

  predicate NodeOk(n: Node, pods: map<PodId, Pod>) {
    WithinCapacity(n) && DistinctPods(n.pods) && Backed(n, pods)
  }

  /**
   * The state invariant every operation keeps: records are keyed by their own
   * id, no node holds more cpu than it has cores or lists a pod twice, and
   * every placement is the one the pod record names.
   */
  predicate WellFormed(c: Cluster) {
    RecordsKeyed(c.pods)
    && forall k :: 0 <= k < |c.nodes| ==> NodeOk(c.nodes[k], c.pods)
  }

  /** Every pod id listed on a node has a record (the sweep's lookup needs it). */
  predicate AllPlacedKnown(c: Cluster) {
    forall k, m :: 0 <= k < |c.nodes| && 0 <= m < |c.nodes[k].pods| ==> c.nodes[k].pods[m].id in c.pods
  }

  /** Some node lists the entry `e`. */
  predicate Listed(c: Cluster, e: Placement) {
    exists k :: 0 <= k < |c.nodes| && e in c.nodes[k].pods
  }

  /** Some node lists an entry for the pod `q`. */
  predicate ListsId(c: Cluster, q: PodId) {
    exists k, m :: 0 <= k < |c.nodes| && 0 <= m < |c.nodes[k].pods| && c.nodes[k].pods[m].id == q
  }

  /** No node, except possibly the one at `skip`, can take `cpu` more units. */
  predicate NoRoomBut(nodes: seq<Node>, skip: int, cpu: int) {
    forall k :: 0 <= k < |nodes| && k != skip ==> !Eligible(nodes[k], cpu)
  }

  /** No node at all can take `cpu` more units. */
  predicate NoRoom(nodes: seq<Node>, cpu: int) {
    forall k :: 0 <= k < |nodes| ==> !Eligible(nodes[k], cpu)
  }

  /**
   * Room only shrinks from `c` to `r`: a node Healthy in `r` was Healthy in
   * `c` and has no more free cpu than it had there.
   */
  predicate RoomShrinks(c: seq<Node>, r: seq<Node>) {
    |r| == |c|
    && forall k :: 0 <= k < |c| && r[k].status == Healthy ==>
         c[k].status == Healthy && Available(r[k]) <= Available(c[k])
  }

  lemma RoomShrinksTransitive(a: seq<Node>, b: seq<Node>, c: seq<Node>)
    requires RoomShrinks(a, b) && RoomShrinks(b, c)
    ensures RoomShrinks(a, c)
  {
  }

  /** In a well-formed state an id listed anywhere is listed with its record's cpu. */
  lemma ListsIdListed(c: Cluster, e: Placement)
    requires WellFormed(c) && e.id in c.pods && c.pods[e.id].cpu == e.cpu
    requires ListsId(c, e.id)
    ensures Listed(c, e)
  {
    var k, m :| 0 <= k < |c.nodes| && 0 <= m < |c.nodes[k].pods| && c.nodes[k].pods[m].id == e.id;
    assert NodeOk(c.nodes[k], c.pods);
    assert c.nodes[k].pods[m] == e;
  }

  /** In a well-formed state a pod not listed with its record's cpu is not listed at all. */
  lemma UnlistedId(c: Cluster, e: Placement)
    requires WellFormed(c) && e.id in c.pods && c.pods[e.id].cpu == e.cpu
    requires !Listed(c, e)
    ensures !ListsId(c, e.id)
  {
    if ListsId(c, e.id) {
      ListsIdListed(c, e);
    }
  }

  lemma ListedListsId(c: Cluster, e: Placement)
    requires Listed(c, e)
    ensures ListsId(c, e.id)
  {
    var k :| 0 <= k < |c.nodes| && e in c.nodes[k].pods;
    var m :| 0 <= m < |c.nodes[k].pods| && c.nodes[k].pods[m] == e;
  }

  lemma {:induction false} UsedAppend(ps: seq<Placement>, p: Placement)
    ensures Used(ps + [p]) == Used(ps) + p.cpu
  {
    if ps != [] {
      assert (ps + [p])[1..] == ps[1..] + [p];
      UsedAppend(ps[1..], p);
    }
  }

  lemma {:induction false} UsedNonNegative(ps: seq<Placement>)
    requires PositiveCpu(ps)
    ensures Used(ps) >= 0
    ensures ps != [] ==> Used(ps) > 0
  {
    if ps != [] {
      UsedNonNegative(ps[1..]);
    }
  }

  lemma {:induction false} UsedWithout(ps: seq<Placement>, pid: PodId)
    requires PositiveCpu(ps)
    ensures Used(Without(ps, pid)) <= Used(ps)
  {
    if ps != [] {
      UsedWithout(ps[1..], pid);
    }
  }

  /** Filtering out an id that was just appended gives back the earlier list. */
  lemma {:induction false} WithoutAppended(ps: seq<Placement>, p: Placement)
    requires forall k :: 0 <= k < |ps| ==> ps[k].id != p.id
    ensures Without(ps + [p], p.id) == ps
  {
    if ps == [] {
      assert [p][1..] == [];
    } else {
      assert (ps + [p])[1..] == ps[1..] + [p];
      WithoutAppended(ps[1..], p);
      assert [ps[0]] + ps[1..] == ps;
    }
  }

  /** Backed placements carry the positive cpu of their record. */
  lemma BackedPositive(n: Node, pods: map<PodId, Pod>)
    requires RecordsKeyed(pods) && Backed(n, pods)
    ensures PositiveCpu(n.pods)
  {
  }

  lemma WellFormedPlacedKnown(c: Cluster)
    requires WellFormed(c)
    ensures AllPlacedKnown(c)
  {
    forall k, m | 0 <= k < |c.nodes| && 0 <= m < |c.nodes[k].pods|
      ensures c.nodes[k].pods[m].id in c.pods
    {
      assert NodeOk(c.nodes[k], c.pods);
    }
  }

  /** The capacity half of the invariant: a well-formed node never has negative room. */
  lemma WellFormedCapacity(c: Cluster, k: nat)
    requires WellFormed(c) && k < |c.nodes|
    ensures 0 <= Used(c.nodes[k].pods) <= c.nodes[k].cpuCores
    ensures 0 <= Available(c.nodes[k]) <= c.nodes[k].cpuCores
  {
    assert NodeOk(c.nodes[k], c.pods);
    BackedPositive(c.nodes[k], c.pods);
    UsedNonNegative(c.nodes[k].pods);
  }

  /** A pod listed on a node of a well-formed state is listed on no other node. */
  lemma PlacedOnOneNode(c: Cluster, a: nat, b: nat, ma: nat, mb: nat)
    requires WellFormed(c)
    requires a < |c.nodes| && b < |c.nodes|
    requires ma < |c.nodes[a].pods| && mb < |c.nodes[b].pods|
    requires c.nodes[a].pods[ma].id == c.nodes[b].pods[mb].id
    ensures a == b && ma == mb
  {
    assert NodeOk(c.nodes[a], c.pods) && NodeOk(c.nodes[b], c.pods);
  }
}
