# A verified model of the ovn-kubernetes master

This project models the ovn-kubernetes controller in Dafny and proves what its event handlers keep
true over whole runs. Kubernetes events drive in-memory caches and an abstract OVN northbound
database; the theorems relate both to an independent description of what the Kubernetes objects
call for. Verify it with `dafny verify dfyconfig.toml`.

## How it is built

**NetworkPolicies.** `PolicyWorld` is the reference: which policies are live, which pods and peers
they select, and what they then say about a packet. `PolicyMemory` is the controller's memory.
`AclRows` and `AclTable` are the ACL table with its find, create, set and remove commands, where an
ACL is found again by the text of its old match (`Acl`, `Gress`). `MatchReader` says how OVN reads that
text, without knowing how it is printed. `AddressSets` and
`PortGroupBackend` are the port-group back-end, `PerPortBackend` and `PerPortRuns` the per-port one,
and `PerPortDivergence` shows where the two part.
`PolicyMeaning` and `PortGroupMeaning` give the tables their meaning, `PolicyRuns` states the laws of
whole runs. `PolicyController` and `PerPortController` are the imperative methods with their loops,
each proved to take the step of the specification; `PolicySystem` and `PerPortSystem` run them over
whole event sequences. `StaleMatch` adds failing commands to match updates. `DefaultDeny` looks at one deny
counter in finer steps, with policy deletion split up. `HashNames` restates the meaning of both
tables for hashes that have no collisions among the names of the run.

**Watch factory.** `WatchFactory` interleaves store changes, dispatch, snapshots, registrations,
tombstones and deferred removal; `PeerAddresses` feeds a rule's address map from a handler;
`PodDelivery` feeds the policy code from the pod informer and says which interleavings deliver a legal
run, and `PodDeliveryClash` gives one that does not; `LockOrder` shows that the goroutines cannot
deadlock.

**Allocators.** `Net` and `Arith` hold address arithmetic and prefixes, `SubnetAllocator` and
`ClusterMaster` the node subnets, `GatewayInit` the join-address protocol under its lock.

**Data plane.** `SharedGateway` holds the OpenFlow pipeline, `LoadBalancer` the service VIPs.

## What is assumed

- Every ovn-nbctl or ovs-ofctl call is one atomic step. In the policy, service and bridge models it
  succeeds; in the gateway and node models, and for match updates, any call may fail and then
  changes nothing.
- `hashForOVN` is idealised as a function without collisions on all texts, giving texts of the form
  `a<digits>` (`PolicyMemory.GoodHash`). For the meaning of the tables no collisions among the names
  of the run is enough (`HashNames.MeaningOnNames`, `HashNames.PortMeaningOnNames`).
- Runs start from an empty database, because a row that is already there is left untouched
  (go-controller/pkg/ovn/policy.go:73-75).
- A legal run (`PolicyWorld.LegalRun`) is one the API server and the watch factory can deliver:
  policy objects are new, a policy's rules exist before its local pods are watched, peer handlers
  exist only for rules with peers, a pod's deletion reaches every live handler before its name is
  used again, a namespace is added when absent and deleted after its policies
  (go-controller/pkg/ovn/namespace.go:131, go-controller/pkg/ovn/namespace.go:144). Namespaces are
  DNS labels. Delete events carry the last stored object. For pods and their local selection, which
  of the watch factory's interleavings give such a run is proved (`PodDelivery.DeliveredRuns`); there
  the port handler is registered before any pod exists, a pod's key names its namespace, and a
  scheduled pod stays scheduled until it is deleted.
- A missing address set counts as empty, and ACL verdicts are taken one direction at a time. Both
  directions are written as to-lport, so nothing is claimed about how ingress and egress combine.
- CIDR text may mean any set of addresses whatsoever. Where verdicts are read from the text of the match
  columns, except blocks hold none of the match syntax's punctuation, and in the per-port back-end pod
  names no ampersand (`PortGroupMeaning.PlainExcepts`, `PerPortRuns.PlainPorts`), as the API server sees
  to. Endpoint addresses hold no commas.
- Label selectors appear only through the events they let through.
- In the per-port runs (`PerPortRuns.PortLegal`) each loop over local pods visits them once, in an order
  of its own. Pod objects may name any node.

## Where the code does less than one might hope

Each of these comes with the exact condition under which the property holds, and with a
counterexample wherever the condition does not speak for itself.

- The name of a rule's address set does not give a dotted policy name back (exactly
  `PolicyMemory.LocalPeerPodsReadBack`).
- A failed match update leaves a row that later updates cannot find (`StaleMatch.FailureSticks`,
  exactly `StaleMatch.RunExactly`).
- A second IP block of a rule replaces the first (`PolicyWorld.SecondBlockReplacesFirst`, exactly
  `PolicyWorld.LastBlockExactly`).
- A policy whose types list one direction twice isolates pods in the other direction too, and a longer
  list with egress may not isolate egress (`PolicyWorld.RepeatedTypeIsolatesBoth`, exactly
  `PolicyWorld.DeniesAsAsked`).
- A deny counter goes wrong when a pod is replaced while a policy that held it is being deleted
  (`DefaultDeny.LateDecrementOpensThePort`, exactly `DefaultDeny.RunExactly`).
- The default-deny ACLs stay once any pod was ever selected (`PolicyRuns.DenyRowsRemember`, exactly
  `PolicyRuns.HistoryIndependence`).
- The per-port back-end writes a pod's rows to the switch the pod object names, without looking up the
  logical port. It lets through what the policy drops when the port does not exist yet
  (`PerPortDivergence.BackendsDiverge`) or an old object is replayed for a pod that is on another node
  by now (`PerPortDivergence.LateReplayDiverges`, `WatchFactory.ReplayOfReplaced`); exactly
  `PerPortRuns.PortTableMirrorsMemory`.
- A policy keeps a pod that lost the label between the handler's snapshot and its registration, also
  when the pod is deleted and its name is used again (`PodDeliveryClash.LostLabelClashes`, exactly
  `PodDelivery.DeliveredRuns`).
- A handler misses an update dispatched between its snapshot and its registration
  (`WatchFactory.UpdateLostInBetween`, exactly `WatchFactory.ViewExact`).
- A rule's address map lacks a live address while its handler catches up with a newer snapshot
  (`PeerAddresses.WrongUntilCaughtUp`, exactly `PeerAddresses.AddressStepExact`).
- The nested namespace-and-pod selector path blocks itself, or deadlocks with a dispatch
  (`LockOrder.NestedSelectorDeadlocks`, exactly `LockOrder.NestedSelectorBlocksItself`).
- A node that crashes while it holds the gateway lock keeps every other node out until the master is set
  up again (`GatewayInit.CrashBlocksAll`).
- Resetting the gateway lock while a node is in the critical section gives out an address twice
  (`GatewayInit.ResetDuplicates`, exactly `GatewayInit.ResetExactly`).
- An existing node subnet of another length is not protected at start-up
  (`ClusterMaster.MarkProtects`), and node sync frees a stale switch's subnet even when a live node
  has it (`ClusterMaster.Master.SyncNodes`).
- Endpoints with a port that is neither TCP nor UDP crash AddEndpoints
  (`LoadBalancer.PanicsExactly`).
- Deleting a service leaves VIPs behind when a node port is zero or a load balancer is missing
  (`LoadBalancer.ZeroNodePortStays`, `LoadBalancer.MissingBalancerStops`, exactly
  `LoadBalancer.RoundTripExactly`).

## Model

| member | source | states |
|---|---|---|
| `PortGroupMeaning.CompilationPreservesMeaning` | go-controller/pkg/ovn/policy.go:125-285 | after every legal run, for every packet at a live pod's port and either direction, the stored ACLs drop it exactly when a selecting rule's except block lists the peer, or no selecting rule allows it and some selecting policy isolates it; drop and pass are never both possible; and the texts in the match columns, read clause by clause as OVN does, give the same verdict |
| `PortGroupMeaning.StateMeaning` | go-controller/pkg/ovn/policy.go:236-285 | the same for any single state whose memory and database agree with the policies |
| `PortGroupMeaning.StoredAcls` | go-controller/pkg/ovn/policy.go:47-94 | the ACLs of a direction are exactly those of the live policies' rules, plus the default deny once its groups exist; allow ACLs are allow-related exactly for ingress |
| `MatchReader.ColumnReads` | go-controller/pkg/ovn/policy.go:125-181 | the text written to the match column of an allow, except or default-deny ACL, read clause by clause with ip4.src as the source, outport as the output port and tcp.dst as a TCP destination number, holds of exactly the packets the ACL is meant to match |
| `MatchReader.AllowReads` | go-controller/pkg/ovn/policy.go:236-285 | the same for the allow columns with and without a port clause, for address sets and CIDR |
| `MatchReader.DropReads` | go-controller/pkg/ovn/policy_old.go:160-171 | the same for the except and default-deny columns |
| `PolicyMeaning.TierVerdict` | go-controller/pkg/ovn/policy_common.go:164-175 | with priorities 1010 drop, 1001 allow and 1000 drop, priority evaluation drops a packet exactly when the first tier matches or the third does and the second does not |
| `PolicyMeaning.AllowMeaning` | go-controller/pkg/ovn/policy.go:251-285 | one of a rule's allow ACLs matches exactly when the port matches, the port list allows the packet, and the peers or the CIDR contain the peer |
| `PolicyMeaning.ExceptMeaning` | go-controller/pkg/ovn/policy.go:125-137 | a rule's except ACL matches exactly when the port matches and the block excepts the peer |
| `PolicyMeaning.PeersMeaning` | go-controller/pkg/ovn/policy_common.go:87-106 | the printed address-set match holds of an address exactly when the rule has no peers, or selects the pod or a namespace containing it |
| `Gress.L4MatchesMeaning` | go-controller/pkg/ovn/policy_common.go:56-63 | a packet satisfies one of a rule's port clauses exactly when the port list is empty, or it is TCP and the list has "TCP" with its port, or UDP and the list has "UDP" with its port |
| `PolicyWorld.DeniesExactly` | go-controller/pkg/ovn/policy.go:340-354 | the default-deny tests isolate ingress exactly when the types are empty or list ingress, and egress exactly when they list it or there is an egress section; with repeated types, ingress always and egress also when there are two types |
| `PolicyWorld.DeniesAsAsked` | go-controller/pkg/ovn/policy.go:328-338 | exact condition on the types under which the tests do what the comments ask for |
| `PolicyWorld.RepeatedTypeIsolatesBoth` | go-controller/pkg/ovn/policy.go:340-354 | counterexample: types that list one direction twice isolate both |
| `PolicyWorld.LastBlockExactly` | go-controller/pkg/ovn/policy_common.go:82-85 | keeping the last IP block means "some block allows" for all addresses if and only if the rule lists no other CIDR |
| `PolicyWorld.SecondBlockReplacesFirst` | go-controller/pkg/ovn/policy_common.go:82-85 | counterexample for two blocks: the first is forgotten |
| `PolicyMemory.MemoryMirrorsWorld` | go-controller/pkg/ovn/policy.go:383-935 | over every legal run the controller's policy objects, sorted peer lists, local pods, address maps and deny counters are exactly those the reference policies call for |
| `PortGroupBackend.DatabaseMirrorsMemory` | go-controller/pkg/ovn/policy.go:383-935 | over every legal run the ACL table, port groups, deny groups and address sets hold exactly what the memory calls for, each ACL once |
| `PortGroupBackend.AclStepOk` | go-controller/pkg/ovn/policy.go:236-285 | every event keeps the ACL table equal to the rows the memory calls for |
| `PortGroupBackend.GroupStepOk` | go-controller/pkg/ovn/policy.go:383-470 | every event keeps each policy's port group equal to its existing local pods, and each deny group equal to the ports with a positive counter |
| `AddressSets.SetStepOk` | go-controller/pkg/ovn/policy.go:552-607 | every event keeps each OVN address set equal to the map in memory, and leaves no others |
| `PolicyRuns.LookupsSucceed` | go-controller/pkg/ovn/policy.go:96-123 | in every reachable state a rule with peers has a strictly sorted list naming exactly its sets, never prints "ip4", and the lookup of any of its allow ACLs by the printed match finds exactly that rule's row |
| `PolicyRuns.DenyCountersExact` | go-controller/pkg/ovn/policy.go:320-381 | over every legal run the counter of an existing port is the number of live policies holding it and isolating pods in the direction, and the port is in the deny group exactly when there is one |
| `PolicyRuns.AddressSetsExact` | go-controller/pkg/ovn/common.go:63-148 | over every legal run a rule's address set is exactly the pod addresses selected for it and a namespace's set exactly its pods' addresses |
| `PolicyRuns.HistoryIndependence` | go-controller/pkg/ovn/ovn.go:211-219 | two legal runs ending with the same live policies, local pods and peer sets have the same policy objects, counters, group members, address sets and rule ACLs; whole tables agree exactly when both event sequences or neither contain an event by which a policy selects a pod |
| `PolicyRuns.ReadyMeans` | go-controller/pkg/ovn/policy.go:320-341 | over every legal run the default-deny groups and ACLs exist exactly when some event of the run made a live policy newly select a pod that had its port |
| `PolicyRuns.DenyRowsRemember` | go-controller/pkg/ovn/policy.go:320-341 | counterexample: two legal runs end with the same policies, pods and peers, and only one has the default-deny ACLs |
| `PolicyRuns.DeletionIsFinal` | go-controller/pkg/ovn/policy.go:902-903 | once a policy object is deleted, leaving out every later call of its handlers from the run changes neither the memory nor the database |
| `PolicyMemory.LocalPeerPodsInjective` | go-controller/pkg/ovn/policy.go:772-779 | the name of a rule's address set determines namespace, policy, direction and rule, although policy names may contain dots |
| `PolicyMemory.LocalPeerPodsReadBack` | go-controller/pkg/ovn/common.go:34-61 | split at dots as at restart, the set name gives the namespace back, and the policy exactly when its name has no dot |
| `PolicyMemory.ReadableGroupInjective` | go-controller/pkg/ovn/policy.go:745-746 | the readable port-group name determines the policy |
| `Acl.MatchTextInjective` | go-controller/pkg/ovn/policy.go:274-275 | the text of an allow match determines direction, peers, port clause and port, so looking a row up by old match finds that match; `MatchReader.AllowReads` says what the text means |
| `AclRows.ModifyRowsOk` | go-controller/pkg/ovn/policy.go:636-665 | updating a rule's matches by old text rewrites every peers row of that rule and owner and nothing else |
| `AclRows.FindExactly` | go-controller/pkg/ovn/policy.go:96-107 | a lookup by old match finds exactly the row of that rule and port clause that is not rewritten yet |
| `AclTable.RemoveOwnedOk` | go-controller/pkg/ovn/common.go:176-199 | destroying a policy's port group leaves exactly the ACLs of the other policies |
| `Gress.GressPolicy.constructor` | go-controller/pkg/ovn/policy_common.go:65-73 | a new rule has no peers, ports or block |
| `Gress.GressPolicy.AddPortPolicy` | go-controller/pkg/ovn/policy_common.go:75-80 | appends the port and changes nothing else |
| `Gress.GressPolicy.AddIPBlock` | go-controller/pkg/ovn/policy_common.go:82-85 | replaces CIDR and exceptions and changes nothing else |
| `Gress.GressPolicy.GetL3MatchFromAddressSet` | go-controller/pkg/ovn/policy_common.go:87-106 | the loop prints the peers' match, "ip4" exactly when there are none; as a clause it holds of the packets whose source (ingress) or destination (egress) is in one of the sets |
| `Gress.GressPolicy.AddAddressSet` | go-controller/pkg/ovn/policy_common.go:130-142 | adds the name once, keeps the list sorted with the map's elements, and returns the old and new texts |
| `Gress.GressPolicy.DelAddressSet` | go-controller/pkg/ovn/policy_common.go:144-162 | removes the name, keeps order and elements, and returns the old and new texts |
| `Gress.InsertRemoveRoundTrip` | go-controller/pkg/ovn/policy_common.go:130-162 | adding a name and deleting it again restores the list, and the other way round |
| `PolicyController.Controller.LocalPodAddACL` | go-controller/pkg/ovn/policy.go:236-285 | the loop over port policies creates exactly the rule's rows, in order, skipping rows that are there |
| `PolicyController.Controller.HandlePeerNamespaceSelectorModify` | go-controller/pkg/ovn/policy.go:636-665 | the loop over port policies rewrites the rule's rows as the specification does |
| `PolicyController.Controller.BuildGress` | go-controller/pkg/ovn/policy.go:758-788 | the loops over ports and peers build the rule the specification starts from |
| `PolicyController.Controller.AddRule` | go-controller/pkg/ovn/policy.go:758-790 | one rule of a new policy: takes the specification's RuleAdd step on memory and database |
| `PolicyController.Controller.HandlePeerNamespaceAdd` | go-controller/pkg/ovn/policy.go:675-688 | takes the specification's step, a no-op for a deleted policy |
| `PolicyController.Controller.HandlePeerNamespaceDel` | go-controller/pkg/ovn/policy.go:689-702 | takes the specification's step, a no-op for a deleted policy |
| `PolicyController.Controller.HandlePeerPodAdd` | go-controller/pkg/ovn/policy.go:552-576 | takes the specification's step on the address map and the OVN set |
| `PolicyController.Controller.HandlePeerPodDel` | go-controller/pkg/ovn/policy.go:578-607 | takes the specification's step on the address map and the OVN set |
| `PolicyController.Controller.CreateDefaultDenyPortGroups` | go-controller/pkg/ovn/policy.go:287-318 | creates both deny groups and their ACLs once |
| `PolicyController.Controller.LocalPodAddDefaultDeny` | go-controller/pkg/ovn/policy.go:320-356 | counts the port in for exactly the directions the policy isolates, and no other port; the first holder puts the port into the deny group |
| `PolicyController.Controller.LocalPodDelDefaultDeny` | go-controller/pkg/ovn/policy.go:358-381 | counts the port out of positive counters for exactly those directions; the last holder takes the port out of the deny group |
| `PolicyController.Controller.HandleLocalPodSelectorAdd` | go-controller/pkg/ovn/policy.go:383-431 | takes the specification's LocalPodAdd step |
| `PolicyController.Controller.HandleLocalPodSelectorDel` | go-controller/pkg/ovn/policy.go:433-470 | takes the specification's LocalPodDel step |
| `PolicyController.Controller.AddNetworkPolicy` | go-controller/pkg/ovn/policy.go:718-750 | creates the policy object and its port group unless the policy is known or its namespace is not |
| `PolicyController.Controller.DeletePeerSets` | go-controller/pkg/ovn/policy.go:904-920 | the loop over rules deletes exactly their address sets |
| `PolicyController.Controller.DeleteDefaultDenies` | go-controller/pkg/ovn/policy.go:925-927 | the loop over local pods, in any order, decrements every counter once and empties the deny groups of the ports it was last for |
| `PolicyController.Controller.DeleteNetworkPolicy` | go-controller/pkg/ovn/policy.go:885-935 | takes the specification's PolicyDelete step |
| `PolicyController.Controller.AddLogicalPort` | go-controller/pkg/ovn/pods.go:218-275 | the port exists afterwards |
| `PolicyController.Controller.DeleteLogicalPort` | go-controller/pkg/ovn/pods.go:150-173 | the port leaves the database, every group and both counters |
| `PolicyController.Controller.AddNamespace` | go-controller/pkg/ovn/namespace.go:94-132 | the namespace's map and OVN set hold the listed pods' addresses |
| `PolicyController.Controller.DeleteNamespace` | go-controller/pkg/ovn/namespace.go:134-149 | map and set go; an unknown namespace changes nothing |
| `PolicyController.Controller.AddPodToNamespaceAddressSet` | go-controller/pkg/ovn/namespace.go:50-70 | map and set gain the address; unknown namespaces and known addresses change nothing |
| `PolicyController.Controller.DeletePodFromNamespaceAddressSet` | go-controller/pkg/ovn/namespace.go:72-92 | map and set lose the address; unknown namespaces and addresses change nothing |
| `PolicySystem.Handle` | go-controller/pkg/ovn/policy.go:383-935 | every watch event takes the specification's step on memory and database |
| `PolicySystem.RunController` | go-controller/pkg/ovn/policy.go:383-935 | a new controller given the events of any legal run ends with exactly the specified memory and database, and its ACLs, sets and groups drop a packet at a live port exactly when the policies do |
| `StaleMatch.UpdateExactly` | go-controller/pkg/ovn/policy.go:96-123 | with commands that may fail, an update changes the stored match exactly when it succeeds and the row was current |
| `StaleMatch.RunExactly` | go-controller/pkg/ovn/policy.go:96-123 | after any sequence of succeeding and failing updates the row is printed from exactly the specified list |
| `StaleMatch.CurrentExactly` | go-controller/pkg/ovn/policy.go:96-123 | an update leaves the row current exactly when it was current and the command succeeds, or the new list is the stored one |
| `StaleMatch.StaleUntilReturn` | go-controller/pkg/ovn/policy.go:96-123 | a stale row stays as it is until the peer list returns to what it was printed from |
| `StaleMatch.FailureSticks` | go-controller/pkg/ovn/policy.go:96-123 | counterexample family: one failed update leaves the old match in the table under every later update that does not return to it |
| `PerPortRuns.PortTableMirrorsMemory` | go-controller/pkg/ovn/policy_old.go:376-606 | over every legal run, with an order of its own for each loop over local pods, the memory equals the other back-end's and the table always holds exactly one row per live policy, rule, kind and local pod, printed from the current list, and one default-deny row per direction and existing port with a positive counter, if and only if every pod object names the right switch: a newly selected pod has its port there, a deselected one was selected there or has no rows to lose, and a deleted one was there or no default deny holds it |
| `PerPortRuns.PerPortPreservesMeaning` | go-controller/pkg/ovn/policy_old.go:376-462 | after every legal run in which pod objects name the right switches, the ACLs on a live port's switch drop a packet exactly when the policies do, and so do the texts in their match columns |
| `HashNames.MeaningOnNames` | go-controller/pkg/ovn/policy.go:125-285 | the port-group ACLs mean the policies under every hash without collisions among the namespaces, port groups and rule address sets of the run |
| `HashNames.PortMeaningOnNames` | go-controller/pkg/ovn/policy_old.go:376-462 | the same for the per-port ACLs |
| `HashNames.SameRuns` | go-controller/pkg/ovn/common.go:14-32 | two hashes that agree on the names of a run give it the same memory and database |
| `PerPortRuns.BackendsAgree` | go-controller/pkg/ovn/policy_common.go:222-238 | after the same such run both back-ends give every packet at every live port the same verdict in each direction |
| `PerPortRuns.PortStepOk` | go-controller/pkg/ovn/policy_old.go:464-606 | an event keeps the per-port table equal to the rows the memory calls for if and only if the pod object names the right switch, or a newly selected pod has no rows to add |
| `PerPortRuns.MemoryStepsAgree` | go-controller/pkg/ovn/policy_old.go:529-570 | the memories of the two back-ends take the same step if and only if a pod it newly selects has its port on the node the pod object names, because only the other back-end looks the port up |
| `PerPortDivergence.BackendsDiverge` | go-controller/pkg/ovn/policy_old.go:529-570 | counterexample: a stale pod object is selected before the pod is created again on another node; the policy and the port-group back-end drop every packet to it, the per-port back-end passes every one |
| `PerPortDivergence.LateReplayDiverges` | go-controller/pkg/ovn/policy_old.go:529-570 | counterexample: the old object is replayed after the pod was created again on another node; the verdicts differ for every packet to it in the same way |
| `PerPortBackend.ModifyPortsOk` | go-controller/pkg/ovn/policy_old.go:773-804 | visiting the local pods in any order rewrites every peers row of the rule at every port and nothing else |
| `PerPortBackend.RowsAfterPolicyDelete` | go-controller/pkg/ovn/policy_old.go:331-374 | removing rows by namespace and policy leaves exactly the rows of the other policies |
| `PerPortBackend.RowsAfterPodDel` | go-controller/pkg/ovn/policy_old.go:572-606 | deselecting a pod removes exactly the policy's rows of that pod |
| `PerPortController.PerPortController.LocalPodAddOrDelACL` | go-controller/pkg/ovn/policy_old.go:376-462 | the loop creates, or removes, exactly the rule's rows at the port |
| `PerPortController.PerPortController.ForEachRule` | go-controller/pkg/ovn/policy_old.go:561-567 | the loop over a direction's rules creates or removes the rows of all of them |
| `PerPortController.PerPortController.LocalPodAddDefaultDeny` | go-controller/pkg/ovn/policy_old.go:464-499 | counts the port in for exactly the directions the policy isolates, and the first holder creates the default-deny row |
| `PerPortController.PerPortController.LocalPodDelDefaultDeny` | go-controller/pkg/ovn/policy_old.go:501-527 | counts the port out for those directions without going below zero, and the last holder removes the default-deny row |
| `PerPortController.PerPortController.HandleLocalPodSelectorAdd` | go-controller/pkg/ovn/policy_old.go:529-570 | takes the specification's step on memory and table, for any pod object |
| `PerPortController.PerPortController.HandleLocalPodSelectorDel` | go-controller/pkg/ovn/policy_old.go:572-606 | takes the specification's step on memory and table |
| `PerPortController.PerPortController.HandlePeerNamespaceSelectorModify` | go-controller/pkg/ovn/policy_old.go:773-804 | the nested loops visit every local pod once, in some order, and take the specification's step |
| `PerPortController.PerPortController.HandlePeerNamespace` | go-controller/pkg/ovn/policy_old.go:806-855 | takes the specification's step on memory and table for the order its loop went in |
| `PerPortController.PerPortController.DeleteAclsPolicy` | go-controller/pkg/ovn/policy_old.go:331-374 | the loop over the found rows removes exactly the policy's rows |
| `PerPortController.PerPortController.DeleteNetworkPolicy` | go-controller/pkg/ovn/policy_old.go:1023-1074 | takes the specification's step on memory and table for the order its loop went in |
| `PerPortController.PerPortController.DeleteLogicalPort` | go-controller/pkg/ovn/pods.go:150-183 | the port, its counters and its default-deny rows go |
| `PerPortController.PerPortController.Handle` | go-controller/pkg/ovn/policy_old.go:464-1074 | every watch event takes the specification's step on memory and table |
| `PerPortSystem.RunController` | go-controller/pkg/ovn/policy_old.go:464-1074 | a new controller given the events of any legal run ends with the specified memory and table for the orders its loops took, whatever the pod objects say, and when these name the right switches those ACLs drop a packet at a live port exactly when the policies do |
| `DefaultDeny.CounterStaysExact` | go-controller/pkg/ovn/policy.go:320-381 | with deletion split into shutting handlers down and decrementing later, a step keeps counter and group exact if and only if it is not a late decrement hitting a replaced pod some policy denies |
| `DefaultDeny.RunExactly` | go-controller/pkg/ovn/policy.go:320-381 | over every such run, counter and group are exact throughout if and only if no step is such a late decrement |
| `DefaultDeny.CountingIsExact` | go-controller/pkg/ovn/policy.go:922-927 | over every such run in which no pod is replaced during a deletion that held it, the port is in the deny group exactly when some policy still denies it |
| `DefaultDeny.LateDecrementOpensThePort` | go-controller/pkg/ovn/policy.go:922-927 | counterexample without that restriction |
| `WatchFactory.HandlerViewEqualsFilteredStore` | go-controller/pkg/factory/factory.go:207-274 | in every reachable state with all changes dispatched, a live handler's view of an object with no change dispatched between its snapshot and its registration is the stored object if it passes the filter; for any object, exactly under ViewExact's condition |
| `WatchFactory.ViewExact` | go-controller/pkg/factory/factory.go:236-271 | a handler's view of an object is right exactly when it was registered no later than its snapshot, or a later change involved the object, or the object was the same in the store when it was snapshotted and when the handler was registered |
| `WatchFactory.ViewEqualsFilteredStore` | go-controller/pkg/factory/factory.go:236-271 | no event between snapshot and registration is enough |
| `WatchFactory.UpdateLostInBetween` | go-controller/pkg/factory/factory.go:236-271 | counterexample: an update dispatched in between is never seen |
| `WatchFactory.StepKeeps` | go-controller/pkg/factory/factory.go:41-57 | every step of every interleaving keeps each handler's view equal to the replay of its snapshot and the changes it was served |
| `WatchFactory.RemovalIsFinal` | go-controller/pkg/factory/factory.go:276-302 | each handler dies at most once, and a dead handler no dispatch had found alive is never called again |
| `WatchFactory.ShutdownStopsAll` | go-controller/pkg/factory/factory.go:127-139 | a shutdown, once no dispatch runs, ends every handler for good in every continuation |
| `WatchFactory.LastCall` | go-controller/pkg/factory/factory.go:51-56 | a call in flight at removal is still made, once: the view and the number of changes seen advance by that change, and then the handler is gone |
| `WatchFactory.WholeDispatch` | go-controller/pkg/factory/factory.go:41-57 | a dispatch that nothing interrupts, in any order of the handlers, does to them what ForEachHandler does |
| `WatchFactory.DeliveredInOrder` | go-controller/pkg/factory/factory.go:41-57 | in every reachable state a live handler has been given exactly the changes dispatched since its registration, or one more while a dispatch is under way |
| `WatchFactory.ReplayOfDeleted` | go-controller/pkg/factory/factory.go:236-271 | counterexample: a registration replays an object whose deletion was dispatched after the snapshot, and the handler keeps it |
| `WatchFactory.ReplayOfReplaced` | go-controller/pkg/factory/factory.go:236-271 | counterexample: the same when the name is used again in between; the handler keeps the replaced object while the store has the new one |
| `PodDelivery.DeliveredRuns` | go-controller/pkg/factory/factory.go:207-274 | over every interleaving of the pod informer with policies added, watched and deleted, the calls it makes to the policy code form a legal run if and only if no port is created while a live policy keeps an earlier pod of the name: its replay selected the pod and no later call took it back |
| `PodDelivery.StepExact` | go-controller/pkg/ovn/policy.go:383-495 | one step's calls are legal if and only if it creates no such port, and it then keeps ports, selections and handlers in accord with the store |
| `PodDelivery.RightRunsAreLegal` | go-controller/pkg/ovn/ovn.go:126-147 | the calls form a legal run whenever no pod a replay selects has stopped matching between the snapshot and the registration |
| `PodDeliveryClash.LostLabelClashes` | go-controller/pkg/factory/factory.go:236-271 | counterexample: a pod loses its label in that window, is deleted and created again; the run delivered is not legal |
| `WatchFactory.Informer.ForEachHandler` | go-controller/pkg/factory/factory.go:41-57 | every present live handler is called once, in any order, and no other |
| `WatchFactory.Informer.AddHandler` | go-controller/pkg/factory/factory.go:252-273 | the handler starts with the snapshot's objects that pass its filter |
| `WatchFactory.Informer.RemoveHandler` | go-controller/pkg/factory/factory.go:282-285 | succeeds exactly for a live handler |
| `PeerAddresses.AddressStepExact` | go-controller/pkg/ovn/policy.go:552-607 | a handler call keeps the address map equal to the view's addresses if and only if it neither changes an address nobody else has nor deletes one that is shared |
| `PeerAddresses.AddressesAreView` | go-controller/pkg/ovn/policy.go:609-634 | for any snapshot and registration point the map is the view's addresses as long as no call changes an address nobody else has or deletes one that is shared |
| `PeerAddresses.AddressExact` | go-controller/pkg/ovn/policy.go:552-607 | for any snapshot and registration, with unique, unchanging addresses, the map is right about an address once dispatch has passed the snapshot if and only if the handler was registered no later than its snapshot, or a later call was about the address, or snapshot and store at registration agree on it |
| `PeerAddresses.PeerAddressesExact` | go-controller/pkg/ovn/policy.go:609-634 | with unique, unchanging addresses and a snapshot at or ahead of the registration, once dispatch has caught up with the snapshot the map is at every point the addresses of the annotated pods passing the filter |
| `PeerAddresses.PeerAddressesPerObject` | go-controller/pkg/ovn/policy.go:609-634 | for a snapshot behind the registration, a selected object with no change in between has its address in the map, and an address nobody has comes from an object with a change in between |
| `PeerAddresses.WrongUntilCaughtUp` | go-controller/pkg/ovn/policy.go:552-607 | counterexample: an address handed from one pod to the next is missing while the handler catches up with its snapshot |
| `LockOrder.NoDeadlock` | go-controller/pkg/factory/factory.go:252-299 | any number of dispatches, registrations with replay, policy deletions and deferred removals, under any schedule, always leave some unfinished goroutine able to go on, and never wait in a cycle |
| `LockOrder.ProgramOrdered` | go-controller/pkg/ovn/policy.go:320-324 | every goroutine takes locks in the order policy informer, namespace or pod informer, policy, then lsp or namespace mutex |
| `LockOrder.NestedSelectorBlocksItself` | go-controller/pkg/ovn/policy.go:497-576 | with no other thread around, the nested namespace-and-pod selector path can end if and only if the policy is deleted or every replayed pod has no address or a known one; otherwise it waits for its own policy lock |
| `LockOrder.NestedSelectorDeadlocks` | go-controller/pkg/ovn/policy.go:511-537 | counterexample: whatever is replayed, it and a pod dispatch to the same policy can wait for each other |
| `LockOrder.NestedSelectorOrdered` | go-controller/pkg/ovn/policy.go:511-537 | it keeps to the lock order exactly when the policy is deleted |
| `Net.NextIPExact` | go-controller/pkg/util/net.go:20-34 | NextIP of an IPv4 address is the next one exactly when that has a nonzero first octet and is at most 255.255.255.255 |
| `Net.NextIPOther` | go-controller/pkg/util/net.go:20-34 | NextIP of a sixteen-byte address that is not mapped IPv4 is the next number, of other lengths the number one |
| `Net.AddressPlanAgrees` | go-controller/pkg/cluster/master.go:375-378 | for every host subnet of prefix at most 30 and nonzero first octet the router gets base+1, the management port base+2, the node ACL's byte addition names the same base+2, and both lie inside |
| `Net.LastByteCarry` | go-controller/pkg/ovn/policy_common.go:198-199 | adding 2 to the last byte of a base address never carries |
| `Net.LongPrefixHasNoRoom` | go-controller/pkg/ovn/management-port.go:261-264 | base+2 lies inside the subnet exactly for prefixes up to 30 |
| `Net.OverlapIsMeeting` | go-controller/cmd/ovnkube/ovnkube.go:316-324 | for canonical prefixes the test holds exactly when some address lies in both |
| `Net.CidrsOverlap` | go-controller/cmd/ovnkube/ovnkube.go:316-324 | the loop answers whether the prefix meets any of the list |
| `Net.ParseClusterSubnetEntries` | go-controller/cmd/ovnkube/ovnkube.go:275-313 | accepts exactly the lists of well-formed entries with pairwise disjoint ranges, and returns their prefixes in order, with subnet length 24 for two fields and the third field otherwise |
| `SubnetAllocator.GenIpIs` | go-controller/vendor/github.com/openshift/origin/pkg/util/netutils/subnet_allocator.go:104-106 | the shifts, masks and bitwise ors give the base of the block whose number is the rotated subnet number |
| `SubnetAllocator.BlockIsBlock` | go-controller/vendor/github.com/openshift/origin/pkg/util/netutils/subnet_allocator.go:104-108 | what is handed out is aligned, of the right length, and inside the network |
| `SubnetAllocator.BlockInjective` | go-controller/vendor/github.com/openshift/origin/pkg/util/netutils/subnet_allocator.go:104-108 | different numbers give different blocks |
| `SubnetAllocator.BlockOnto` | go-controller/vendor/github.com/openshift/origin/pkg/util/netutils/subnet_allocator.go:104-108 | every block of the network has a number |
| `SubnetAllocator.RotateBack` | go-controller/vendor/github.com/openshift/origin/pkg/util/netutils/subnet_allocator.go:50-56 | the bit rotation is invertible |
| `SubnetAllocator.NewSubnetAllocator` | go-controller/vendor/github.com/openshift/origin/pkg/util/netutils/subnet_allocator.go:23-87 | refuses host bits of zero or more than the network has, and marks the listed subnets inside it |
| `SubnetAllocator.GetNetwork` | go-controller/vendor/github.com/openshift/origin/pkg/util/netutils/subnet_allocator.go:89-118 | hands out the first free block of the scan order, or none exactly when every block is in use |
| `SubnetAllocator.ReleaseNetwork` | go-controller/vendor/github.com/openshift/origin/pkg/util/netutils/subnet_allocator.go:120-135 | succeeds exactly for an allocated subnet of the network, and frees it |
| `ClusterMaster.SubnetsDisjoint` | go-controller/pkg/cluster/master.go:351-373 | live nodes' subnets are pairwise disjoint and each is marked in exactly one allocator |
| `ClusterMaster.MarkProtects` | go-controller/pkg/cluster/master.go:213-229 | marking an existing subnet protects it exactly when it is one of the allocator's blocks |
| `ClusterMaster.StartedConsistent` | go-controller/pkg/cluster/master.go:199-232 | from annotations that are distinct blocks of disjoint networks, start-up agrees with the nodes |
| `ClusterMaster.Master.Start` | go-controller/pkg/cluster/master.go:199-232 | one allocator per network with the subnets in it marked; refused exactly for a host length below the prefix or of 32 and more |
| `ClusterMaster.Master.Allocate` | go-controller/pkg/cluster/master.go:351-373 | a block no allocator has in use from the first allocator that is not full, and none exactly when all are full |
| `ClusterMaster.Master.AddNode` | go-controller/pkg/cluster/master.go:434-464 | keeps the nodes' subnets consistent; fails exactly when set-up fails or a new node finds all full; a failed add leaves the blocks in use unchanged |
| `ClusterMaster.Master.ReleaseFirst` | go-controller/pkg/cluster/master.go:466-476 | released by the allocator that has it, and by no other |
| `ClusterMaster.Master.DeleteNode` | go-controller/pkg/cluster/master.go:494-511 | frees exactly the node's subnet |
| `ClusterMaster.Master.SyncNodes` | go-controller/pkg/cluster/master.go:513-554 | frees exactly the subnets of switches whose node is gone, and keeps the nodes' subnets consistent if and only if no live node has such a subnet |
| `ClusterMaster.Master.Run` | go-controller/pkg/cluster/master.go:556-578 | every run of adds, failed adds and deletes keeps subnets disjoint and marked in exactly one allocator |
| `GatewayInit.AllocationIsSafe` | go-controller/pkg/util/gateway-init.go:159-185 | over every interleaving with failures, crashes, removals and lock resets that find no node inside, at most one node is in the critical section, and join ports have different addresses throughout if and only if no port is added whose search found the range exhausted while the last address is still in use |
| `GatewayInit.DuplicateExactly` | go-controller/pkg/util/gateway-init.go:159-185 | a step makes two join ports share an address if and only if it adds the port of a search that found the range exhausted while the last address is still in use |
| `GatewayInit.FewNodesNeverShare` | go-controller/pkg/util/gateway-init.go:91-111 | with up to 65534 nodes join ports always have different addresses |
| `GatewayInit.ResetExactly` | go-controller/pkg/cluster/master.go:323-330 | from any state the protocol reaches, resetting the lock keeps the critical section exclusive, and keeps addresses different in every continuation, if and only if no node is in the critical section |
| `GatewayInit.ResetDuplicates` | go-controller/pkg/cluster/master.go:323-330 | counterexample: a reset in between gives two nodes one address |
| `GatewayInit.CrashBlocksAll` | go-controller/pkg/util/gateway-init.go:49-73 | after a crash in the critical section the lock stays, and until a reset no continuation lets a node in or gives it an address |
| `GatewayInit.PickIsLeastFree` | go-controller/pkg/util/gateway-init.go:91-111 | the search returns the least unused address of 100.64.0.1 to 100.64.255.255, or the last when all are used |
| `GatewayInit.GenerateGatewayIP` | go-controller/pkg/util/gateway-init.go:91-111 | the nested loops over address bytes compute that address, whose first bytes are 100 and 64, in as many turns as it is above 100.64.0.0, at most 65535 |
| `GatewayInit.AddressesContiguous` | go-controller/pkg/util/gateway-init.go:220-222 | without removals the addresses in use are contiguous from 100.64.0.1, and the first gateway gets 100.64.0.2 |
| `SharedGateway.OutsidePacket` | go-controller/pkg/cluster/gateway_shared_intf.go:209-252 | an IP packet from the physical port goes to OVN exactly when it belongs or is related to a committed connection or targets an open NodePort, else to the host |
| `SharedGateway.PodPacket` | go-controller/pkg/cluster/gateway_shared_intf.go:209-219 | pod IP traffic is decided by the committing rule alone |
| `SharedGateway.CommitsExactly` | go-controller/pkg/cluster/gateway_shared_intf.go:209-219 | only IP packets from pods meet a rule that commits their connection |
| `SharedGateway.NoConflict` | go-controller/pkg/cluster/gateway_shared_intf.go:209-252 | no two matching rules of equal priority disagree |
| `SharedGateway.PipelineOverRuns` | go-controller/pkg/cluster/gateway_shared_intf.go:17-62 | over every interleaving of arriving packets and services coming and going, each packet meets rules and connections that send an IP packet from the physical port to OVN exactly when a pod sent an IP packet on its connection or the one it is related to before, or it targets, by protocol and number, a TCP or UDP NodePort of a service added and not deleted since, else to the host; pod IP packets go out, and nothing else is matched |
| `SharedGateway.DeleteExact` | go-controller/pkg/cluster/gateway_shared_intf.go:40-62 | a deletion leaves exactly the other services' NodePorts open if and only if none is shared |
| `SharedGateway.KeysOpen` | go-controller/pkg/cluster/gateway_shared_intf.go:22-31 | rules are written for exactly the protocols and numbers of the service's own TCP and UDP NodePorts |
| `SharedGateway.Bridge.constructor` | go-controller/pkg/cluster/gateway_shared_intf.go:209-252 | an empty bridge gets exactly the default rules |
| `SharedGateway.Bridge.AddService` | go-controller/pkg/cluster/gateway_shared_intf.go:17-38 | opens exactly the service's TCP and UDP NodePorts, with the rules of the specification |
| `SharedGateway.Bridge.DeleteService` | go-controller/pkg/cluster/gateway_shared_intf.go:40-62 | the loose delete closes exactly the service's NodePorts, with the rules of the specification |
| `SharedGateway.Bridge.SyncServices` | go-controller/pkg/cluster/gateway_shared_intf.go:64-147 | closes exactly the NodePorts no listed service has |
| `SharedGateway.RunServices` | go-controller/pkg/cluster/gateway_shared_intf.go:149-185 | after any run of packets and of services that share no NodePort the bridge has exactly the rules those packets are judged by, and the live services' NodePorts are open |
| `LoadBalancer.CollectEndpoints` | go-controller/pkg/ovn/endpoints.go:35-57 | the triple loop collects as the specification does |
| `LoadBalancer.EndpointsOfPort` | go-controller/pkg/ovn/endpoints.go:35-57 | a port name gets exactly the addresses of the subsets with such a port, and the number it has in the last of them |
| `LoadBalancer.CollectIps` | go-controller/pkg/ovn/endpoints.go:35-57 | the addresses of a port name appear in visiting order, with repeats |
| `LoadBalancer.PanicsExactly` | go-controller/pkg/ovn/endpoints.go:40-54 | AddEndpoints writes to a nil map exactly when a subset with an address has a port that is neither TCP nor UDP |
| `LoadBalancer.TargetsText` | go-controller/pkg/ovn/loadbalancer.go:108-115 | the loop joins the endpoints: cut at the commas, the text has one piece address:port per endpoint, in order |
| `LoadBalancer.TargetsList` | go-controller/pkg/ovn/loadbalancer.go:108-115 | the same for the text the specification writes |
| `LoadBalancer.KeysAreVips` | go-controller/pkg/ovn/endpoints.go:59-86 | the VIPs of a port are every gateway's address with the node port on that gateway's load balancer for the protocol, the cluster IP with the port on the cluster's, and every external IP with the port on the default gateway's |
| `LoadBalancer.Balancers.CreateVIP` | go-controller/pkg/ovn/loadbalancer.go:95-125 | sets the VIP to list exactly the endpoints, or removes it when there are none |
| `LoadBalancer.Balancers.CreateGatewaysVIP` | go-controller/pkg/ovn/gateway.go:43-83 | writes the VIP of every gateway that has a load balancer |
| `LoadBalancer.Balancers.HandleExternalIPs` | go-controller/pkg/ovn/endpoints.go:124-140 | writes the VIP of every external address on the default gateway's load balancer |
| `LoadBalancer.Balancers.AddEndpoints` | go-controller/pkg/ovn/endpoints.go:33-121 | each place a service port is to be reached at lists exactly the addresses of the subsets with a port of that protocol and name, with the number it has last, and no other VIP changes, in any order of the loops |
| `LoadBalancer.Balancers.DeleteService` | go-controller/pkg/ovn/service.go:169-219 | removes exactly the VIPs of the ports it gets to, skipping zero ports and ending at a missing load balancer; other protocols are read as TCP, without external IPs |
| `LoadBalancer.RoundTripExactly` | go-controller/pkg/ovn/service.go:169-219 | adding endpoints and then deleting the service restores the tables if and only if every port with endpoints is nonzero and not behind a port whose cluster load balancer is missing, or has its VIPs removed with a port read as TCP, and no removed port without endpoints had its VIPs there before |
| `LoadBalancer.PlainRoundTripExactly` | go-controller/pkg/ovn/service.go:169-219 | for TCP and UDP ports without earlier VIPs, if and only if every port with endpoints and VIPs is nonzero and not behind a port whose cluster load balancer is missing |
| `LoadBalancer.ServiceRoundTrip` | go-controller/pkg/ovn/service.go:169-219 | it does for nonzero ports and existing cluster load balancers |
| `LoadBalancer.ZeroNodePortStays` | go-controller/pkg/ovn/service.go:178-185 | counterexample: a NodePort service with node port 0 keeps its cluster VIP |
| `LoadBalancer.MissingBalancerStops` | go-controller/pkg/ovn/service.go:204-210 | counterexample: a UDP port listed first without a UDP load balancer keeps the TCP port's VIP |

## Left out

- PolicyController.Controller.AddNamespace: the pods the API server lists are a parameter, and the namespace mutexes appear only in `LockOrder`.
- PolicyController.Controller.AddLogicalPort: only the existence of the port is modelled, not its addresses or the annotation.
- ClusterMaster.Master.AddNode: a failed add restores the blocks in use, not the search positions, because the code does not either.
- LockOrder.NoDeadlock: the nested namespace-and-pod selector path is not one of its goroutines, because that path can deadlock.
- PerPortController.PerPortController.Remember: handlers that write no ACLs in the per-port back-end are taken from the specification of the memory, not modelled again.
- The namespace, peer and policy informers, and shutting the factory down, are not joined to the policy code as the pod informer is in `PodDelivery`; that their calls are legal is assumed.
- Failing ovn-nbctl calls inside the policy code, apart from match updates.
- Policy, namespace and pod sync at restart, where the expected map keeps one policy per namespace.
- Exact peer sets for rules with overlapping selectors, where one handler's delete removes an address another still wants.
- Service updates on the shared gateway, which the code ignores.
- The HA rebuild path, the node logical network itself, and gateway clean-up beyond removing the router port.
- allow-related versus allow, IPv6, named ports, parsing of command output, MAC addresses and the FNV hash itself.
- Process execution, the Kubernetes client, CNI, netlink, Windows code, configuration and logging.
