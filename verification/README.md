# Cluster state of the cluster-simulation API server, in Dafny

This project models the cluster-state logic of the simulation framework's API
server (`api_server/node_manager.py`): the node registry, best-fit pod
placement, the heartbeat-timeout failure sweep that moves pods off failed
nodes, heartbeat ingest, the manual stop/start overrides, and deletion.

The whole store is one immutable value `Cluster(nodes, pods)`:

- `nodes` is the node dictionary in its iteration (insertion) order, a
  sequence of `Node(id, cpuCores, status, pods, lastHeartbeat)` records whose
  ids are unique (the subset type `NodeTable`). Each node's `pods` list holds
  `Placement(id, cpu)` entries.
- `pods` maps pod ids to `Pod(id, cpu, nodeId, status)` records. `nodeId` is an
  `Option`, and `status` is `Running` or `Unscheduled`.

Every operation is a pure function from the state (plus its arguments) to the
new state and the source's return value or, for the sweep, its write flag. Time is an integer number of
seconds, `now`. Fresh node ids are parameters.

The state invariant `ClusterState.WellFormed` has four parts:

- Every pod record is stored under its own id and requests a positive cpu
  amount (`RecordsKeyed`).
- No node holds more cpu than it has cores (`WithinCapacity`).
- Pod ids on a node are distinct (`DistinctPods`).
- Every listed pod has a record stored under its id. That record names this
  node and carries the same cpu (`Backed`).

Every operation is proved to preserve `WellFormed`.

Modules: `Wrappers` (the shared `Option` type), `ClusterState` (data, sums, invariant), `Scheduler` (`schedule_pod`,
`delete_pod`), `FailureDetector` (`check_node_health`), `Heartbeat`
(`update_heartbeat`, `stop_node`, `start_node`), `Admin` (`add_node`,
`delete_node`, `list_nodes`) and `Scenarios` (small concrete runs).

## Behaviour worth noting

- Best-fit ties go to the node that comes first in insertion order, because
  the comparison at line 148 is strict.
- The sweep moves a pod to the *first* other Healthy node with room. This is
  first-fit, not best-fit (lines 97-106).
- When the sweep finds no node for a pod, it leaves the pod's record as it is.
  The record still says Running and still names the failed node, whose list is
  now empty (`Scenarios.UnplaceablePodKeepsItsRecord`).
- `delete_node` removes only the node record. Pod records that named it keep a
  dangling `node_id` (`Admin.DeleteNodeLeavesDanglingRecord`). Deleting an
  unknown node silently does nothing.
- `stop_node` does not reschedule. A stopped node is already Unhealthy, so the
  sweep never touches it, and its pods stay listed on it (`Heartbeat.StoppedNodeKeepsPods`).
- The sweep does not lose pods. Every entry listed after a sweep was listed
  before it and sits on the node its record names. Every entry listed before
  is still listed, unless no node had room for it; then it is listed nowhere
  and its record names a node the sweep failed (`FailureDetector.SweepRelocates`).
  That record need not be the one the pod had before the sweep: a pod first
  moved onto a later stale node and stranded there has a record naming that
  later node.
- One sweep can move a pod twice: first onto a later node that is itself stale,
  and then off that node again when the loop reaches it. The model runs the
  loop node by node over the state as it changes, so it has this behaviour too.

## Model

| member | source | states |
|---|---|---|
| ClusterState.Find | Distributed-Systems-Cluster-Simulation-Framework/api_server/node_manager.py:68 | the position of the node with a given id, or None exactly when no node has it (dict membership) |
| ClusterState.Without | Distributed-Systems-Cluster-Simulation-Framework/api_server/node_manager.py:191 | the filtered list keeps exactly the entries whose id differs from the pod's, and is the same list when the pod is absent; their order and multiplicity are stated by ClusterState.WithoutConcat |
| ClusterState.WithoutConcat | Distributed-Systems-Cluster-Simulation-Framework/api_server/node_manager.py:191 | filtering a concatenation gives the concatenation of the filtered parts, so the kept entries stay in their original order and keep their multiplicity |
| ClusterState.Used | Distributed-Systems-Cluster-Simulation-Framework/api_server/node_manager.py:61 | a node's used cpu is the sum of the cpu of the entries in its `pods` list |
| ClusterState.Available | Distributed-Systems-Cluster-Simulation-Framework/api_server/node_manager.py:61-62 | a node's available cpu is its core count minus its used cpu |
| ClusterState.Eligible | Distributed-Systems-Cluster-Simulation-Framework/api_server/node_manager.py:142-146 | a node can take a request when it is Healthy and its available cpu is at least the request (the sweep adds the test that it is not the failing node, lines 98-102) |
| ClusterState.UsedAppend | Distributed-Systems-Cluster-Simulation-Framework/api_server/node_manager.py:61 | appending a placement adds its cpu to the node's used sum |
| ClusterState.UsedWithout | Distributed-Systems-Cluster-Simulation-Framework/api_server/node_manager.py:191 | filtering a pod out of a list never increases its used cpu |
| ClusterState.WellFormedCapacity | Distributed-Systems-Cluster-Simulation-Framework/api_server/node_manager.py:61-62 | in a well-formed state a node's used cpu lies between 0 and its core count, so its available cpu is never negative |
| ClusterState.PlacedOnOneNode | Distributed-Systems-Cluster-Simulation-Framework/api_server/node_manager.py:152-165 | in a well-formed state a pod id is listed at most once in the whole cluster |
| Scheduler.Leftover | Distributed-Systems-Cluster-Simulation-Framework/api_server/node_manager.py:147 | the best-fit score is the available cpu left after the request |
| Scheduler.BestFitFrom | Distributed-Systems-Cluster-Simulation-Framework/api_server/node_manager.py:138-150 | the scan from a position, started with the best node so far, returns a best fit over the whole table, or None only when no node is Healthy with enough room |
| Scheduler.BestFit | Distributed-Systems-Cluster-Simulation-Framework/api_server/node_manager.py:138-150 | the chosen node is Healthy, has available cpu at least the request, leaves the least room, and is the first such node; None exactly when no node is eligible |
| Scheduler.BestFitUnique | Distributed-Systems-Cluster-Simulation-Framework/api_server/node_manager.py:148-150 | the strict comparison admits at most one best-fit node |
| Scheduler.BestFitCharacterized | Distributed-Systems-Cluster-Simulation-Framework/api_server/node_manager.py:138-150 | the scan returns node b if and only if b is the best fit with earliest-wins tie-breaking |
| Scheduler.SchedulePod | Distributed-Systems-Cluster-Simulation-Framework/api_server/node_manager.py:130-175 | a known pod id gives "duplicate" and changes nothing; otherwise the pod is appended to exactly the best-fit node and recorded Running there, and every other node is unchanged; the chosen node stays within capacity; with no eligible node the pod is recorded Unscheduled with no node and the nodes are unchanged |
| Scheduler.SchedulePreservesWellFormed | Distributed-Systems-Cluster-Simulation-Framework/api_server/node_manager.py:135-165 | scheduling keeps the capacity and back-reference invariant |
| Scheduler.DeletePod | Distributed-Systems-Cluster-Simulation-Framework/api_server/node_manager.py:180-198 | unknown pod: false and no change; otherwise the record is removed, the pod is filtered out of the node its record names, and every other node is unchanged |
| Scheduler.DeletePreservesWellFormed | Distributed-Systems-Cluster-Simulation-Framework/api_server/node_manager.py:180-198 | deleting a pod keeps the invariant |
| Scheduler.DeleteKeepsNodeOk | Distributed-Systems-Cluster-Simulation-Framework/api_server/node_manager.py:187-198 | the node the deleted record names stays consistent once the pod is filtered from its list, and every other node stays consistent as it is |
| Scheduler.DeletedPodUnlisted | Distributed-Systems-Cluster-Simulation-Framework/api_server/node_manager.py:187-195 | after deletion no node of a well-formed state lists the pod |
| Scheduler.ScheduleThenDelete | Distributed-Systems-Cluster-Simulation-Framework/api_server/node_manager.py:130-198 | deleting a newly scheduled pod gives back exactly the state it was scheduled in |
| FailureDetector.Stale | Distributed-Systems-Cluster-Simulation-Framework/api_server/node_manager.py:83-85 | a node fails when it is not already Unhealthy and more than 10 seconds, strictly, have passed since its last heartbeat |
| FailureDetector.FirstFitFrom | Distributed-Systems-Cluster-Simulation-Framework/api_server/node_manager.py:97-106 | the scan from a position returns the first later node, other than the failed one, that is Healthy with room, or None when there is none |
| FailureDetector.FirstFit | Distributed-Systems-Cluster-Simulation-Framework/api_server/node_manager.py:96-109 | the rescheduling target is the first node, other than the failed one, that is Healthy with available cpu at least the pod's; None exactly when there is none |
| FailureDetector.RelocateOne | Distributed-Systems-Cluster-Simulation-Framework/api_server/node_manager.py:91-109 | a pod of the failed node is appended to the first-fit node only, only its record's node_id changes (status untouched), and the target stays within capacity; with no target nothing changes |
| FailureDetector.RelocateAll | Distributed-Systems-Cluster-Simulation-Framework/api_server/node_manager.py:91-109 | moving the failed node's pods one after the other only appends to Healthy nodes other than the failed one and only changes node_ids of records |
| FailureDetector.RelocateAllSources | Distributed-Systems-Cluster-Simulation-Framework/api_server/node_manager.py:91-109 | after moving the failed node's pods, every listed entry was listed on that same node before or is one of the moved pods |
| FailureDetector.RecordUntouched | Distributed-Systems-Cluster-Simulation-Framework/api_server/node_manager.py:91-109 | moving pods never touches the record of a pod that is not among them |
| FailureDetector.RelocateAllShrinks | Distributed-Systems-Cluster-Simulation-Framework/api_server/node_manager.py:97-106 | moving pods never makes room: a node Healthy afterwards was Healthy before and has at most the cpu it had available |
| FailureDetector.RelocateAllSettles | Distributed-Systems-Cluster-Simulation-Framework/api_server/node_manager.py:91-109 | every moved pod ends listed on a node other than the failed one, with its record naming that node, or else keeps its record unchanged and no node other than the failed one has room for it |
| FailureDetector.SweepNode | Distributed-Systems-Cluster-Simulation-Framework/api_server/node_manager.py:82-112 | a stale node becomes Unhealthy with an empty list; a non-stale node leaves the state unchanged; other nodes only gain pods and Unhealthy ones are untouched |
| FailureDetector.Downed | Distributed-Systems-Cluster-Simulation-Framework/api_server/node_manager.py:87 | the node at the position becomes Unhealthy and nothing else changes: the other nodes, its own pods list and the pod records stay as they are |
| FailureDetector.FailNode | Distributed-Systems-Cluster-Simulation-Framework/api_server/node_manager.py:86-112 | a failed node ends Unhealthy with an empty list; the other nodes only gain pods and Unhealthy ones are untouched; pod records keep their keys and change only in node_id; every listed id still has a record |
| FailureDetector.SweepNodeSources | Distributed-Systems-Cluster-Simulation-Framework/api_server/node_manager.py:82-112 | one loop iteration opens no room, lists only entries that were listed before, and leaves the records of unlisted pods alone |
| FailureDetector.SweepNodeSettles | Distributed-Systems-Cluster-Simulation-Framework/api_server/node_manager.py:82-112 | after one loop iteration every entry listed before is still listed, or it was on the stale node, keeps its record and no node has room for it |
| FailureDetector.NodesSweptStep | Distributed-Systems-Cluster-Simulation-Framework/api_server/node_manager.py:82-112 | the loop body at one node, followed by the rest of the loop, gives the loop from that node on |
| FailureDetector.SweepFrom | Distributed-Systems-Cluster-Simulation-Framework/api_server/node_manager.py:80-116 | the outer loop from a position on, returning the state and the write flag; it keeps the number of nodes and a record for every listed pod. Its effect is stated by SweepFromShape, SweepFromChanged, SweepFromSources and SweepFromSettles |
| FailureDetector.SweepFromShape | Distributed-Systems-Cluster-Simulation-Framework/api_server/node_manager.py:80-112 | the loop from a position on makes exactly the stale nodes at or after it Unhealthy with empty lists, leaves every other field of every node alone, lets the other nodes only gain pods, leaves Unhealthy nodes untouched, and changes pod records only in node_id |
| FailureDetector.SweepFromChanged | Distributed-Systems-Cluster-Simulation-Framework/api_server/node_manager.py:80-116 | the write flag is set exactly when some node from the position on is stale, and when it is not set the state is unchanged |
| FailureDetector.CheckNodeHealth | Distributed-Systems-Cluster-Simulation-Framework/api_server/node_manager.py:77-116 | a node becomes Unhealthy exactly when it was not Unhealthy and more than 10 seconds have passed since its heartbeat; failed nodes end with empty lists; nodes already Unhealthy keep status and pods; other nodes only gain pods; pod records change only in node_id; no transition means no change and nothing written |
| FailureDetector.PendingNotListed | Distributed-Systems-Cluster-Simulation-Framework/api_server/node_manager.py:91-104 | while a failed node is evacuated, a pod still to move is listed on no other node |
| FailureDetector.TargetStaysOk | Distributed-Systems-Cluster-Simulation-Framework/api_server/node_manager.py:99-104 | the node that receives a moved pod stays within capacity and consistent with the pod records |
| FailureDetector.BystanderStaysOk | Distributed-Systems-Cluster-Simulation-Framework/api_server/node_manager.py:97-104 | a node that neither fails nor receives the pod stays consistent |
| FailureDetector.RelocateOneEvacuates | Distributed-Systems-Cluster-Simulation-Framework/api_server/node_manager.py:91-109 | moving one pod keeps the evacuation invariant for the pods still to move |
| FailureDetector.RelocateAllEvacuates | Distributed-Systems-Cluster-Simulation-Framework/api_server/node_manager.py:91-109 | moving all pods of the failed node keeps every other node well formed |
| FailureDetector.SweepNodePreservesWellFormed | Distributed-Systems-Cluster-Simulation-Framework/api_server/node_manager.py:82-112 | one loop iteration keeps the invariant |
| FailureDetector.SweepFromPreservesWellFormed | Distributed-Systems-Cluster-Simulation-Framework/api_server/node_manager.py:82-116 | the loop from any position keeps the invariant |
| FailureDetector.SweepFromSources | Distributed-Systems-Cluster-Simulation-Framework/api_server/node_manager.py:82-116 | the loop from any position opens no room, lists only entries listed before it, and keeps the records of unlisted pods |
| FailureDetector.SweepFromSettles | Distributed-Systems-Cluster-Simulation-Framework/api_server/node_manager.py:82-116 | the loop from any position keeps every listed entry listed, except one that no node has room for, whose record then names a stale node at or after the position |
| FailureDetector.SweepPreservesWellFormed | Distributed-Systems-Cluster-Simulation-Framework/api_server/node_manager.py:77-116 | the whole sweep keeps all four parts of the invariant: records keyed by id with positive cpu, every node within capacity, no repeated pod on a node, and every listed entry backed by a record that names that node with the same cpu |
| FailureDetector.SweepRelocates | Distributed-Systems-Cluster-Simulation-Framework/api_server/node_manager.py:77-116 | no pod is lost or invented: every entry listed after the sweep was listed before and sits on the node its record names; every entry listed before is still listed somewhere, or else is listed nowhere, its record names a node the sweep failed, and no node has room for it; pods listed nowhere before keep their records |
| Heartbeat.Touch | Distributed-Systems-Cluster-Simulation-Framework/api_server/node_manager.py:118-127 | for an unknown id: false and no change; otherwise only the named node gets the new status and heartbeat |
| Heartbeat.UpdateHeartbeat | Distributed-Systems-Cluster-Simulation-Framework/api_server/node_manager.py:118-127 | an unknown id gives false and no change; otherwise only that node changes, to Healthy with last_heartbeat = now |
| Heartbeat.StopNode | Distributed-Systems-Cluster-Simulation-Framework/api_server/node_manager.py:200-206 | an unknown id gives false and no change; otherwise only that node's status changes, to Unhealthy |
| Heartbeat.StartNode | Distributed-Systems-Cluster-Simulation-Framework/api_server/node_manager.py:208-215 | an unknown id gives false and no change; otherwise only that node changes, to Healthy with last_heartbeat = now |
| Heartbeat.StartIsHeartbeat | Distributed-Systems-Cluster-Simulation-Framework/api_server/node_manager.py:208-215 | starting a node is the same transition as receiving its heartbeat, with the same result |
| Heartbeat.TouchPreservesWellFormed | Distributed-Systems-Cluster-Simulation-Framework/api_server/node_manager.py:118-127 | status and heartbeat changes keep the invariant |
| Heartbeat.HeartbeatPreservesWellFormed | Distributed-Systems-Cluster-Simulation-Framework/api_server/node_manager.py:118-127 | a heartbeat keeps the invariant |
| Heartbeat.StopPreservesWellFormed | Distributed-Systems-Cluster-Simulation-Framework/api_server/node_manager.py:200-206 | stopping a node keeps the invariant |
| Heartbeat.StartPreservesWellFormed | Distributed-Systems-Cluster-Simulation-Framework/api_server/node_manager.py:208-215 | starting a node keeps the invariant |
| Heartbeat.HeartbeatDefersFailure | Distributed-Systems-Cluster-Simulation-Framework/api_server/node_manager.py:84-85 | after a heartbeat at time t, a sweep at any time up to t + 10 leaves the node Healthy |
| Heartbeat.StoppedNodeKeepsPods | Distributed-Systems-Cluster-Simulation-Framework/api_server/node_manager.py:85 | a sweep leaves a manually stopped node as it is, with its pods still listed |
| Admin.AddNode | Distributed-Systems-Cluster-Simulation-Framework/api_server/node_manager.py:44-55 | the new node is appended last in insertion order with the given id and core count, Healthy, with no pods and last_heartbeat = now; the pod records are unchanged |
| Admin.DeleteNode | Distributed-Systems-Cluster-Simulation-Framework/api_server/node_manager.py:66-75 | the node with that id is removed, the other nodes keep their order, and the pod records are not touched; an unknown id changes nothing |
| ClusterState.RemoveAt | Distributed-Systems-Cluster-Simulation-Framework/api_server/node_manager.py:74 | drops the record at a position: one record fewer, the records before it and after it kept in order |
| ClusterState.RemoveAtShape | Distributed-Systems-Cluster-Simulation-Framework/api_server/node_manager.py:74 | removing the record at a position keeps the records before it and after it in order, and leaves exactly the records with another id |
| Admin.ListNodes | Distributed-Systems-Cluster-Simulation-Framework/api_server/node_manager.py:58-63 | one entry per node in order, whose available_cpu plus the node's used cpu equals its cores |
| Admin.ListedCapacityInRange | Distributed-Systems-Cluster-Simulation-Framework/api_server/node_manager.py:58-63 | in a well-formed state every listed available_cpu lies between 0 and the node's cores |
| Admin.AddedNodeListed | Distributed-Systems-Cluster-Simulation-Framework/api_server/node_manager.py:44-63 | a node just added is listed last, Healthy, with all its cores available, after the unchanged earlier entries |
| Admin.ScheduledNodeListed | Distributed-Systems-Cluster-Simulation-Framework/api_server/node_manager.py:143-154 | placing a pod lowers the chosen node's listed available_cpu by exactly its request, and the result is not negative |
| Admin.AddThenDelete | Distributed-Systems-Cluster-Simulation-Framework/api_server/app.py:26-39 | in the model, deleting a node right after adding it restores the state; the API's rollback after a failed container start (line 38) does not restore the stored state in the source, as the Admin.AddThenDelete line under "## Left out" explains |
| Admin.AddPreservesWellFormed | Distributed-Systems-Cluster-Simulation-Framework/api_server/node_manager.py:44-55 | adding a node keeps the invariant |
| Admin.DeleteNodePreservesWellFormed | Distributed-Systems-Cluster-Simulation-Framework/api_server/node_manager.py:66-75 | deleting a node keeps the invariant |
| Admin.DeleteNodeLeavesDanglingRecord | Distributed-Systems-Cluster-Simulation-Framework/api_server/node_manager.py:66-75 | after deleting a node that holds a pod, the pod's record still names the deleted node |
| Scenarios.TieGoesToEarlierNode | Distributed-Systems-Cluster-Simulation-Framework/api_server/node_manager.py:146-150 | with equal leftover (10 cores with 4 used, and 6 cores free, for a request of 2) the node inserted first is chosen |
| Scenarios.TighterNodeWins | Distributed-Systems-Cluster-Simulation-Framework/api_server/node_manager.py:146-150 | a later node that leaves strictly less room beats an earlier one |
| Scenarios.AddThenList | Distributed-Systems-Cluster-Simulation-Framework/api_server/node_manager.py:44-63 | adding a 4-core node to an empty cluster lists one node with 4 cpus available |
| Scenarios.ScheduleThenOverflow | Distributed-Systems-Cluster-Simulation-Framework/api_server/node_manager.py:130-175 | p1 (2 cpus) goes Running on the sole 4-core node, leaving 2 available; p2 (3 cpus) is then recorded Unscheduled; reusing p2's id is a duplicate |
| Scenarios.FailedPodRelocated | Distributed-Systems-Cluster-Simulation-Framework/api_server/node_manager.py:82-112 | the pod of a silent node moves to the Healthy node with room, and its record names the new node |
| Scenarios.UnplaceablePodKeepsItsRecord | Distributed-Systems-Cluster-Simulation-Framework/api_server/node_manager.py:96-112 | with no other node, the failed node's list is emptied, but the pod record still says Running on that node |
| Scenarios.TimeoutIsStrict | Distributed-Systems-Cluster-Simulation-Framework/api_server/node_manager.py:84 | exactly 10 seconds of silence is not a failure; 11 seconds is |
| Scenarios.HeartbeatRevives | Distributed-Systems-Cluster-Simulation-Framework/api_server/node_manager.py:118-127 | a heartbeat makes an Unhealthy node Healthy with the new time; an unknown id is reported and changes nothing |

## Left out

- JSON persistence (`load_nodes_from_file`, `save_nodes_to_file`, `load_pods`, `save_pods`, lines 14-36) is left out: the store is one in-memory value. A missing or unreadable file, which the source reads as empty, is not modelled. The sweep's "save only if changed" is modelled as its `changed` result.
- `uuid.uuid4()` and `datetime.utcnow()` are left out: they become a fresh-id parameter (required to be new) and an integer `now`. ISO timestamps with microseconds become whole seconds. The source reads the clock once per node within a sweep; the model uses one `now` for the whole sweep.
- Admin.AddNode: in the source, `add_node` writes to the module-level `nodes` dict (line 8). That dict is never filled from `nodes.json` (line 220 drops the loaded value), and every other function edits a copy loaded from the file. So the save at line 54 overwrites the file with only the nodes added by this process, each as `add_node` created it: Healthy, `pods: []`, and its creation heartbeat. That save undoes, for those nodes, every placement, relocation, heartbeat, stop and failure recorded since, and brings back any of them that `delete_node` removed. `pods.json` is not rewritten, so its records can then name nodes whose lists no longer hold them. The model inserts the node into the single shared state instead and keeps everything else.
- Admin.AddThenDelete: holds of the model only. In the source, the rollback at app.py line 38 calls `delete_node`, which removes the node from a copy loaded from the file and saves that copy (node_manager.py lines 67 and 74). The node stays in the module-level dict, so the next `add_node` (line 54) writes it back to `nodes.json`. The rollback therefore does not restore the stored state once another node is added.
- The `docker rm` call in `delete_node` (lines 70-71) and the `docker run` in app.py are left out: they are external process control. Admin.AddThenDelete covers only the state effect of the rollback.
- FailureDetector.CheckNodeHealth requires every listed pod id to have a record (`AllPlacedKnown`). The source looks a record up only at line 104, so it raises KeyError only for a recordless pod on a node failing in this sweep, and only when a target node is found. The model adopts the stronger precondition as a modelling choice and does not model the KeyError path. `WellFormed` implies it.
- Scheduler.SchedulePreservesWellFormed requires a positive `cpu_request`, and Admin.AddPreservesWellFormed requires a positive `cpu_cores`. `schedule_pod` and `add_node` do not check these themselves; app.py checks them before calling (lines 23 and 90). The operations are modelled for every integer input.
- The `strategy` argument of `schedule_pod` is left out: the source never reads it.
- The source tests `if best_node_id:` by truthiness, which would treat an empty-string id as "no node". The model uses `Option`, because node ids are uuid4 strings and are never empty.
- `list_pods` is left out: it only returns the records, and a Dafny map has no insertion order to list them in.
- The `print` log lines in the sweep are left out: they have no effect on the state.
- The Flask routes, HTTP status mapping, the background thread that sweeps every 5 seconds, and the lost-update races between that thread and request handlers are left out. One sweep is one call.
- `src/api/server.js`, `src/common/storage.js` and `node_simulator/node.py` are not part of this model: they are a separate I/O prototype and a network heartbeat loop.
