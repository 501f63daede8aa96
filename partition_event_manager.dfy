/** The partition event manager bean: the entry points that record partition
    events, the cascading delete, the reconciliation pass over REQUESTED events and
    the lookup by id, over an event store held in the object's fields. */
module PartitionEventManagerBean {
  import opened PartitionEventDomain
  import opened EventStore

  class PartitionEventManager {
    /** The persisted partition events, by id. */
    var events: Events
    /** The persisted detail records, by id. */
    var details: set<DetailId>
    /** The id the store assigns to the next persisted event. */
    var nextId: EventId
    /** Every call made into the failover service, in order. */
    ghost var calls: seq<ServiceCall>

    /** The agent registry: the agent known under each name. */
    const agentRegistry: map<string, Agent>
    /** The failover list service. */
    const failoverService: FailoverService

    ghost predicate Valid()
      reads this
    {
      WellFormed(events, details, nextId)
    }

    constructor (registry: map<string, Agent>, service: FailoverService,
                 initialEvents: Events, initialDetails: set<DetailId>, initialNextId: EventId)
      requires WellFormed(initialEvents, initialDetails, initialNextId)
      ensures Valid()
      ensures events == initialEvents && details == initialDetails && nextId == initialNextId
      ensures agentRegistry == registry && failoverService == service && calls == []
    {
      events, details, nextId := initialEvents, initialDetails, initialNextId;
      agentRegistry, failoverService := registry, service;
      calls := [];
    }

    /** The event stored under the id, if any. */
    function GetPartitionEvent(partitionEventId: EventId): (r: Option<PartitionEvent>)
      reads this
      requires Valid()
      ensures r.Some? <==> partitionEventId in events
      ensures r.Some? ==> r.value == events[partitionEventId] && r.value.id == partitionEventId
    {
      if partitionEventId in events then Some(events[partitionEventId]) else None
    }

    /** Creates a new event with no details and persists it under the next id. */
    method Persist(initiator: string, eventType: PartitionEventType, status: ExecutionStatus)
      returns (e: PartitionEvent)
      requires Valid()
      modifies this
      ensures Valid()
      ensures e == PartitionEvent(old(nextId), initiator, eventType, status, [])
      ensures old(nextId) !in old(events) && events == old(events)[e.id := e]
      ensures nextId == old(nextId) + 1 && details == old(details) && calls == old(calls)
      ensures GetPartitionEvent(e.id) == Some(e)
    {
      e := PartitionEvent(nextId, initiator, eventType, status, []);
      AddEventKeepsWellFormed(events, details, nextId, e);
      events := events[nextId := e];
      nextId := nextId + 1;
    }

    /** Records an agent-scoped event as IMMEDIATE and returns the failover list the
        service computes for that agent. A cloud type, a missing agent name or an
        unknown agent is an illegal argument: nothing is persisted, nothing called. */
    method AgentPartitionEvent(subject: Subject, agentName: Option<string>, eventType: PartitionEventType)
      returns (r: Result<FailoverListComposite>)
      requires Valid()
      modifies this
      ensures Valid() && details == old(details)
      ensures var check := CheckAgentEvent(agentName, eventType, agentRegistry);
        check.Failure? ==>
          && r == Failure(check.error) && r.error.IllegalArgument?
          && events == old(events) && nextId == old(nextId) && calls == old(calls)
      ensures var check := CheckAgentEvent(agentName, eventType, agentRegistry);
        check.Success? ==>
          var e := PartitionEvent(old(nextId), subject.name, eventType, Immediate, []);
          && old(nextId) !in old(events) && events == old(events)[e.id := e]
          && nextId == old(nextId) + 1
          && calls == old(calls) + [GetForSingleAgent(e.id, check.value.name)]
          && r == Propagate(failoverService.getForSingleAgent(e, check.value.name))
    {
      var check := CheckAgentEvent(agentName, eventType, agentRegistry);
      if check.Failure? {
        return Failure(check.error);
      }
      var agent := check.value;
      var e := Persist(subject.name, eventType, Immediate);
      calls := calls + [GetForSingleAgent(e.id, agent.name)];
      r := Propagate(failoverService.getForSingleAgent(e, agent.name));
    }

    /** Records a cloud event as IMMEDIATE and returns the failover lists of a full
        refresh. A non-cloud type is an illegal argument: nothing is persisted. */
    method CloudPartitionEvent(subject: Subject, eventType: PartitionEventType)
      returns (r: Result<map<Agent, FailoverListComposite>>)
      requires Valid()
      modifies this
      ensures Valid() && details == old(details)
      ensures !eventType.isCloudPartitionEvent ==>
        && r.Failure? && r.error.IllegalArgument?
        && events == old(events) && nextId == old(nextId) && calls == old(calls)
      ensures eventType.isCloudPartitionEvent ==>
        var e := PartitionEvent(old(nextId), subject.name, eventType, Immediate, []);
        && old(nextId) !in old(events) && events == old(events)[e.id := e]
        && nextId == old(nextId) + 1
        && calls == old(calls) + [Refresh(e.id)]
        && r == Propagate(failoverService.refresh(e))
    {
      var check := CheckCloudEvent(eventType);
      if check.Failure? {
        return Failure(check.error);
      }
      var e := Persist(subject.name, eventType, Immediate);
      calls := calls + [Refresh(e.id)];
      r := Propagate(failoverService.refresh(e));
    }

    /** Records a cloud event as REQUESTED, for the next reconciliation pass, and
        computes nothing. A non-cloud type is an illegal argument. */
    method CloudPartitionEventRequest(subject: Subject, eventType: PartitionEventType)
      returns (r: Result<()>)
      requires Valid()
      modifies this
      ensures Valid() && details == old(details) && calls == old(calls)
      ensures r.Success? <==> eventType.isCloudPartitionEvent
      ensures r.Failure? ==> r.error.IllegalArgument? && events == old(events) && nextId == old(nextId)
      ensures r.Success? ==>
        var e := PartitionEvent(old(nextId), subject.name, eventType, Requested, []);
        old(nextId) !in old(events) && events == old(events)[e.id := e] && nextId == old(nextId) + 1
    {
      r := CheckCloudEvent(eventType);
      if r.Success? {
        var _ := Persist(subject.name, eventType, Requested);
      }
    }

    /** Records an event of any type as AUDIT; never computes anything and never fails. */
    method AuditPartitionEvent(subject: Subject, eventType: PartitionEventType)
      requires Valid()
      modifies this
      ensures Valid() && details == old(details) && calls == old(calls)
      ensures var e := PartitionEvent(old(nextId), subject.name, eventType, Audit, []);
        old(nextId) !in old(events) && events == old(events)[e.id := e] && nextId == old(nextId) + 1
    {
      var _ := Persist(subject.name, eventType, Audit);
    }

    /** Finds the event again by id, removes each of its detail records and then the
        event. An id the store does not hold makes the lookup yield nothing, which the
        code dereferences: a null pointer failure, with the store unchanged. */
    method DeletePartitionEvent(eventId: EventId) returns (r: Result<()>)
      requires Valid()
      modifies this
      ensures Valid() && nextId == old(nextId) && calls == old(calls)
      ensures r.Success? <==> eventId in old(events)
      ensures r.Failure? ==> r.error == NullPointer && events == old(events) && details == old(details)
      ensures r.Success? ==>
        && events == old(events) - {eventId}
        && details == old(details) - DetailSet(old(events)[eventId])
        && |details| == |old(details)| - |DetailSet(old(events)[eventId])|
        && GetPartitionEvent(eventId) == None
    {
      if eventId !in events {
        return Failure(NullPointer);
      }
      var event := events[eventId];
      RemoveEventKeepsWellFormed(events, details, nextId, eventId);
      for i := 0 to |event.eventDetails|
        invariant events == old(events) && nextId == old(nextId) && calls == old(calls)
        invariant details == old(details) - set d | d in event.eventDetails[..i]
      {
        assert event.eventDetails[..i + 1] == event.eventDetails[..i] + [event.eventDetails[i]];
        details := details - {event.eventDetails[i]};
      }
      assert event.eventDetails[..|event.eventDetails|] == event.eventDetails;
      events := events - {eventId};
      r := Success(());
    }

    /** The reconciliation pass as the code is written: every event REQUESTED at the
        start is refreshed, any failure of the refresh is swallowed, and the event is
        marked COMPLETED. The flag meant to stop after the first refresh is never set. */
    method ProcessRequestedPartitionEvents()
      requires Valid()
      modifies this
      ensures Valid() && details == old(details) && nextId == old(nextId)
      ensures events == CompleteAll(old(events), RequestedIds(old(events), old(nextId)))
      ensures calls == old(calls) + RefreshCalls(RequestedIds(old(events), old(nextId)))
    {
      var completedRequest := false;
      var requested := RequestedIds(events, nextId);
      for i := 0 to |requested|
        invariant !completedRequest
        invariant details == old(details) && nextId == old(nextId)
        invariant events == CompleteAll(old(events), requested[..i])
        invariant calls == old(calls) + RefreshCalls(requested[..i])
      {
        var next := requested[i];
        assert next in requested;
        CompleteAllStep(old(events), requested, i);
        RefreshCallsStep(requested, i);
        if !completedRequest {
          // a non-cloud type is only logged; a thrown exception is only logged
          var _ := failoverService.refresh(events[next]);
          calls := calls + [Refresh(next)];
        }
        events := MarkCompleted(events, next);
      }
      assert requested[..|requested|] == requested;
      CompleteAllKeepsWellFormed(old(events), details, nextId, requested);
    }

    /** The reconciliation pass as its comment describes it: the flag is set after
        the first refresh, so one refresh serves the whole snapshot, and every event
        of the snapshot is still marked COMPLETED. */
    method ProcessRequestedPartitionEventsCoalesced()
      requires Valid()
      modifies this
      ensures Valid() && details == old(details) && nextId == old(nextId)
      ensures events == CompleteAll(old(events), RequestedIds(old(events), old(nextId)))
      ensures calls == old(calls) + CoalescedRefreshCalls(RequestedIds(old(events), old(nextId)))
    {
      var completedRequest := false;
      var requested := RequestedIds(events, nextId);
      for i := 0 to |requested|
        invariant completedRequest <==> i > 0
        invariant details == old(details) && nextId == old(nextId)
        invariant events == CompleteAll(old(events), requested[..i])
        invariant calls == old(calls) + CoalescedRefreshCalls(requested[..i])
      {
        var next := requested[i];
        assert next in requested;
        CompleteAllStep(old(events), requested, i);
        assert requested[..i + 1][0] == requested[0];
        if !completedRequest {
          var _ := failoverService.refresh(events[next]);
          calls := calls + [Refresh(next)];
          completedRequest := true;
        }
        events := MarkCompleted(events, next);
      }
      assert requested[..|requested|] == requested;
      CompleteAllKeepsWellFormed(old(events), details, nextId, requested);
    }
  }
}

/** Client scenarios: what a caller can conclude from the manager's contracts alone. */
module PartitionEventScenarios {
  import opened PartitionEventDomain
  import opened EventStore
  import opened PartitionEventManagerBean

  /** Three deferred requests and one reconciliation pass whose refreshes all throw:
      the three events end COMPLETED, and the pass refreshed three times, not once. */
  method ThreeRequestsOnePass() {
    var service := FailoverService((e, agentName) => Threw("no servers"), e => Threw("no servers"));
    var manager := new PartitionEventManager(map[], service, map[], {}, 0);
    var admin := Subject("admin");
    var serverAdded := PartitionEventType("SERVER_ADDED", true);
    var r0 := manager.CloudPartitionEventRequest(admin, serverAdded);
    var r1 := manager.CloudPartitionEventRequest(admin, serverAdded);
    var r2 := manager.CloudPartitionEventRequest(admin, serverAdded);
    assert r0.Success? && r1.Success? && r2.Success?;
    var before := manager.events;
    assert before.Keys == {0, 1, 2} && manager.nextId == 3;
    assert IsRequested(before, 0) && IsRequested(before, 1) && IsRequested(before, 2);
    assert RequestedIds(before, 1) == [0];
    assert RequestedIds(before, 2) == [0, 1];
    assert RequestedIds(before, 3) == [0, 1, 2];
    var log := manager.calls;
    manager.ProcessRequestedPartitionEvents();
    PassAddsRefreshPerEvent(log, [0, 1, 2]);
    assert CountRefreshes(manager.calls) == CountRefreshes(log) + 3;
    CompleteAllSpec(before, [0, 1, 2]);
    assert manager.events[0].executionStatus == Completed;
    assert manager.events[2].executionStatus == Completed;
  }

  /** An agent event naming an agent the registry does not know is refused and
      leaves the store empty. */
  method UnknownAgentIsRefused() {
    var service := FailoverService((e, agentName) => Threw("no servers"), e => Threw("no servers"));
    var manager := new PartitionEventManager(map["agent-1" := Agent("agent-1")], service, map[], {}, 0);
    var agentConnect := PartitionEventType("AGENT_CONNECT", false);
    var r := manager.AgentPartitionEvent(Subject("admin"), Some("agent-7"), agentConnect);
    assert r.Failure? && r.error.IllegalArgument?;
    assert manager.events == map[] && manager.calls == [];
  }
}
