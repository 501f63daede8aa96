# Partition event manager, modelled in Dafny

RHQ's `PartitionEventManagerBean` records *partition events*. A partition event is a topology change that may require the failover lists of agents to be recomputed. Examples are an agent registering or connecting, or a server joining or leaving the cloud. Each event has:

- a type, whose static flag `isCloudPartitionEvent` says whether it concerns the whole cloud or a single agent;
- an execution status: IMMEDIATE, REQUESTED, AUDIT or COMPLETED;
- the detail records it owns.

The bean has these entry points:

- **Agent event.** Validates the type and the agent, persists an IMMEDIATE event and asks the failover service for that one agent's list.
- **Cloud event.** Persists an IMMEDIATE event and asks for a full refresh.
- **Cloud event request.** Persists a REQUESTED event for later.
- **Audit event.** Persists an AUDIT event and computes nothing.
- **Delete.** Removes an event together with its detail records.
- **Lookup.** Finds an event by id.
- **Reconciliation pass.** Scans the REQUESTED events, calls the failover service's refresh, swallows any failure and marks every scanned event COMPLETED.

The model has three modules:

- `PartitionEventDomain` (`domain.dfy`) holds the values: event, type, status, agent, failover list, the service's outcomes and the errors. It also holds the entry points' guards as functions.
- `EventStore` (`event_store.dfy`) treats the store as a value. It has the consistency predicate `WellFormed`, the status query `RequestedIds`, the pass's effect on the store (`CompleteAll`) and on the call log (`RefreshCalls`), and the lemmas about them.
- `PartitionEventManagerBean` (`partition_event_manager.dfy`) holds the class `PartitionEventManager`, which is the bean itself. Its fields are the event map, the set of detail ids, the next id to assign and a ghost log of every call into the failover service. Its agent registry and its failover service are constants. Each entry point is a method that updates these fields in place. The delete and the reconciliation pass are loops, with their invariants. Each method's postcondition gives the complete new state in terms of the old one. A second module, `PartitionEventScenarios`, has two client scenarios that use only these contracts.

Collaborators are abstract:

- The entity manager is the event map and the detail set; `persist` assigns the next id.
- `AgentManagerLocal.getAgentByName` is a partial map from names to agents.
- `FailoverListManagerLocal.getForSingleAgent` and `refresh` are uninterpreted functions of the event. Each returns a value or throws.
- A missing agent name (Java `null`) is `None`.

The code and the intent differ on one point. The comment on the reconciliation loop says only one refresh runs per pass. The flag `completedRequest` is never set, though, so the code refreshes once for every REQUESTED event. The model follows the code. The coalescing behaviour the comment describes is modelled separately (see Findings).

## Model

| member | source | states |
|---|---|---|
| `PartitionEventDomain.CheckAgentEvent` | modules/enterprise/server/jar/src/main/java/org/rhq/enterprise/server/cluster/PartitionEventManagerBean.java:79-89 | an agent event is accepted exactly when its type is not a cloud type, a name is given and the registry knows it; the agent found is the registry's; every rejection is an illegal argument |
| `PartitionEventDomain.CheckCloudEvent` | modules/enterprise/server/jar/src/main/java/org/rhq/enterprise/server/cluster/PartitionEventManagerBean.java:99-101 | a cloud entry point accepts exactly the cloud types and rejects every other type as an illegal argument |
| `PartitionEventDomain.Propagate` | modules/enterprise/server/jar/src/main/java/org/rhq/enterprise/server/cluster/PartitionEventManagerBean.java:107 | what the failover service returns is returned to the caller; what it throws reaches the caller as a service failure carrying the same exception |
| `PartitionEventManagerBean.PartitionEventManager.GetPartitionEvent` | modules/enterprise/server/jar/src/main/java/org/rhq/enterprise/server/cluster/PartitionEventManagerBean.java:165-168 | the lookup finds an event exactly when one is stored under the id, and the event it finds carries that id |
| `PartitionEventManagerBean.PartitionEventManager.Persist` | modules/enterprise/server/jar/src/main/java/org/rhq/enterprise/server/cluster/PartitionEventManagerBean.java:91-93 | a new event is created with no details and stored under a fresh id; no existing event is overwritten; the details are unchanged, no service is called, the store stays consistent, and a lookup finds the new event |
| `PartitionEventManagerBean.PartitionEventManager.AgentPartitionEvent` | modules/enterprise/server/jar/src/main/java/org/rhq/enterprise/server/cluster/PartitionEventManagerBean.java:78-96 | a cloud type, a missing name or an unknown agent fails as an illegal argument; it persists nothing and calls nothing. Otherwise exactly one IMMEDIATE event is added under a fresh id, with the subject's name as initiator; existing events stay as they were; exactly one single-agent computation is logged, for that event and agent; its result or failure is returned |
| `PartitionEventManagerBean.PartitionEventManager.CloudPartitionEvent` | modules/enterprise/server/jar/src/main/java/org/rhq/enterprise/server/cluster/PartitionEventManagerBean.java:98-108 | a non-cloud type fails as an illegal argument; it persists nothing and calls nothing. Otherwise exactly one IMMEDIATE event is added, exactly one refresh of it is logged, and that refresh's result or failure is returned |
| `PartitionEventManagerBean.PartitionEventManager.CloudPartitionEventRequest` | modules/enterprise/server/jar/src/main/java/org/rhq/enterprise/server/cluster/PartitionEventManagerBean.java:110-118 | succeeds exactly for a cloud type and then adds one REQUESTED event; a non-cloud type persists nothing; the failover service is never called |
| `PartitionEventManagerBean.PartitionEventManager.AuditPartitionEvent` | modules/enterprise/server/jar/src/main/java/org/rhq/enterprise/server/cluster/PartitionEventManagerBean.java:120-125 | any type is accepted; exactly one AUDIT event is added and the failover service is never called |
| `PartitionEventManagerBean.PartitionEventManager.DeletePartitionEvent` | modules/enterprise/server/jar/src/main/java/org/rhq/enterprise/server/cluster/PartitionEventManagerBean.java:127-133 | for a stored id: the event and all of its detail records are gone, with exactly that many records removed; every other event and detail stays; a later lookup finds nothing. An unknown id fails on the null lookup result and changes nothing |
| `PartitionEventManagerBean.PartitionEventManager.ProcessRequestedPartitionEvents` | modules/enterprise/server/jar/src/main/java/org/rhq/enterprise/server/cluster/PartitionEventManagerBean.java:135-162 | the store becomes the one in which every event of the REQUESTED snapshot is COMPLETED. The call log grows by one refresh per snapshot event, in snapshot order, whatever the refreshes returned or threw. Details and ids are unchanged and the store stays consistent |
| `PartitionEventManagerBean.PartitionEventManager.ProcessRequestedPartitionEventsCoalesced` | modules/enterprise/server/jar/src/main/java/org/rhq/enterprise/server/cluster/PartitionEventManagerBean.java:144-146 | the pass the comment describes completes the same events, but its call log grows by a single refresh, of the first REQUESTED event, and only when there is one |
| `EventStore.RequestedIds` | modules/enterprise/server/jar/src/main/java/org/rhq/enterprise/server/cluster/PartitionEventManagerBean.java:137-140 | the status query returns exactly the stored events whose status is REQUESTED |
| `EventStore.RequestedIdsAscending` | modules/enterprise/server/jar/src/main/java/org/rhq/enterprise/server/cluster/PartitionEventManagerBean.java:140 | the snapshot lists each REQUESTED event once, in ascending id order, which is the order in which the events were persisted |
| `EventStore.CompleteAll` | modules/enterprise/server/jar/src/main/java/org/rhq/enterprise/server/cluster/PartitionEventManagerBean.java:158 | completing events neither adds nor removes any event |
| `EventStore.CompleteAllSpec` | modules/enterprise/server/jar/src/main/java/org/rhq/enterprise/server/cluster/PartitionEventManagerBean.java:142-159 | after the loop, exactly the events of the snapshot are COMPLETED; every other event, and every other field, is unchanged |
| `EventStore.RefreshCalls` | modules/enterprise/server/jar/src/main/java/org/rhq/enterprise/server/cluster/PartitionEventManagerBean.java:146-156 | the loop's i-th service call refreshes the i-th event of the snapshot, and there are as many calls as events |
| `EventStore.CountRefreshesAppend` | modules/enterprise/server/jar/src/main/java/org/rhq/enterprise/server/cluster/PartitionEventManagerBean.java:152 | the refreshes of a log are counted segment by segment |
| `EventStore.RefreshCountIsSnapshotSize` | modules/enterprise/server/jar/src/main/java/org/rhq/enterprise/server/cluster/PartitionEventManagerBean.java:136-156 | because `completedRequest` stays false, a pass makes as many refresh calls as its snapshot has events |
| `EventStore.PassAddsRefreshPerEvent` | modules/enterprise/server/jar/src/main/java/org/rhq/enterprise/server/cluster/PartitionEventManagerBean.java:142-159 | whatever the log held before, the pass adds exactly one refresh per REQUESTED event |
| `EventStore.CoalescedRefreshCount` | modules/enterprise/server/jar/src/main/java/org/rhq/enterprise/server/cluster/PartitionEventManagerBean.java:144-145 | the pass the comment describes refreshes once when anything was requested and never otherwise |
| `EventStore.CoalescedPassAddsOneRefresh` | modules/enterprise/server/jar/src/main/java/org/rhq/enterprise/server/cluster/PartitionEventManagerBean.java:144-146 | whatever the log held before, the pass the comment describes adds at most one refresh |
| `EventStore.AsWrittenPassRefreshesPerEvent` | modules/enterprise/server/jar/src/main/java/org/rhq/enterprise/server/cluster/PartitionEventManagerBean.java:136-156 | with two or more REQUESTED events, the loop as written makes one refresh per event, which is strictly more than the single refresh its comment announces |
| `EventStore.ReconciliationCompletesRequested` | modules/enterprise/server/jar/src/main/java/org/rhq/enterprise/server/cluster/PartitionEventManagerBean.java:137-158 | in a consistent store, a pass turns every REQUESTED event, and only those, into COMPLETED; events with any other status are untouched; no event appears or disappears |
| `EventStore.CompleteAllKeepsWellFormed` | modules/enterprise/server/jar/src/main/java/org/rhq/enterprise/server/cluster/PartitionEventManagerBean.java:158 | changing statuses keeps the store consistent: ids, ownership of details and their presence are preserved |
| `EventStore.SecondPassIsNoOp` | modules/enterprise/server/jar/src/main/java/org/rhq/enterprise/server/cluster/PartitionEventManagerBean.java:137-142 | a second pass right after a first one finds no REQUESTED event, so it makes no refresh call and leaves the store as it is |
| `EventStore.NothingRequestedBelow` | modules/enterprise/server/jar/src/main/java/org/rhq/enterprise/server/cluster/PartitionEventManagerBean.java:137-140 | the status query returns nothing when no event is REQUESTED |
| `EventStore.RemoveEventKeepsWellFormed` | modules/enterprise/server/jar/src/main/java/org/rhq/enterprise/server/cluster/PartitionEventManagerBean.java:129-132 | removing an event and the details it owns keeps the store consistent; the details of every other event stay stored; exactly as many detail records go as the event owned |
| `EventStore.AddEventKeepsWellFormed` | modules/enterprise/server/jar/src/main/java/org/rhq/enterprise/server/cluster/PartitionEventManagerBean.java:93 | a new event without details, stored under the next id, takes no existing id and keeps the store consistent |

## Left out

- `getPartitionEvents` and `getPartitionEventDetails` are not modelled. They are paging and counting queries whose ordering and counting are done by `PersistenceUtility`, and `PersistenceUtility` is not part of this model.
- The `@RequiredPermission` checks are not modelled. The container enforces them, and this class has no logic for them.
- The failover-list computation itself is abstract. `getForSingleAgent` and `refresh` are uninterpreted functions of the event. Any state of the failover service is not modelled, and neither are any detail records it writes. As a result, this model never creates detail records; it only removes them.
- Agent lookup is a fixed map. How the registry is kept up to date is outside this class.
- Container-managed transactions are not modelled. An exception thrown by the failover service on an immediate path would roll back the container's transaction. In the model, the IMMEDIATE event stays persisted and the failure is returned. The entity manager's flush and merge behaviour is also left out.
- Concurrency is not modelled. The model is sequential, and two reconciliation passes cannot overlap in it.
- Logging is left out, and so is the empty "notify agents" placeholder after the loop. Because logging is left out, a non-cloud type found in the reconciliation pass looks no different from any other event.
- Event creation time is left out. The REQUESTED snapshot is taken in ascending id order, which is persist order. The text of the named query is not part of this model.
- The enumeration `PartitionEventType` is not part of this model. A type is modelled as its name plus its `isCloudPartitionEvent` flag.
- A null subject or a null event argument is not modelled. `deletePartitionEvent` is modelled as taking the event's id, because the code uses only `getId()` of its argument.
- The bean's `partitionEventManager` self-reference field is not modelled. No method in this class uses it.

## Findings

| source | as written | input that shows it | evidently intended | confidence | as-written member | corrected member |
|---|---|---|---|---|---|---|
| modules/enterprise/server/jar/src/main/java/org/rhq/enterprise/server/cluster/PartitionEventManagerBean.java:136-156 | `completedRequest` is never set to true, so `refresh` runs once for every REQUESTED event | a store holding two or more REQUESTED events: one pass makes one refresh call per event (three in the scenario `PartitionEventScenarios.ThreeRequestsOnePass`) | one refresh per pass, as the comment at lines 144-145 says; every scanned event is still COMPLETED | high; not executed | `EventStore.AsWrittenPassRefreshesPerEvent` | `PartitionEventManagerBean.PartitionEventManager.ProcessRequestedPartitionEventsCoalesced` |

The bean's own reconciliation method, `ProcessRequestedPartitionEvents`, models the code as written. `ProcessRequestedPartitionEventsCoalesced` is the corrected pass. It sets the flag after the first refresh. `CoalescedPassAddsOneRefresh` proves that it makes at most one refresh call, and exactly one when any event is REQUESTED.
