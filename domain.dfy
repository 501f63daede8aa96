/** The values the partition event manager works with: events, their types and
    statuses, the agents of the registry, the failover service's results and the
    errors an entry point reports. */
module PartitionEventDomain {

  type EventId = nat
  type DetailId = nat

  datatype Option<T> = None | Some(value: T)

  /** The caller of an entry point; only its name is used, as the event's initiator. */
  datatype Subject = Subject(name: string)

  /** An agent as the agent registry returns it. */
  datatype Agent = Agent(name: string)

  /** A partition event type: its name and the static flag that says whether an
      event of this type concerns the whole cloud (true) or a single agent (false). */
  datatype PartitionEventType = PartitionEventType(name: string, isCloudPartitionEvent: bool)

  datatype ExecutionStatus = Immediate | Requested | Audit | Completed

  /** A persisted partition event and the ids of the detail records it owns. */
  datatype PartitionEvent = PartitionEvent(
    id: EventId,
    initiator: string,
    eventType: PartitionEventType,
    executionStatus: ExecutionStatus,
    eventDetails: seq<DetailId>)

  /** The failover list the service computes for one agent: its servers, most preferred first. */
  datatype FailoverListComposite = FailoverListComposite(agentName: string, servers: seq<string>)

  /** What a call into a collaborator did: returned a value or threw an exception. */
  datatype Outcome<T> = Returned(value: T) | Threw(exception: string)

  /** The failover list service, as two uninterpreted calls that may throw. */
  datatype FailoverService = FailoverService(
    getForSingleAgent: (PartitionEvent, string) -> Outcome<FailoverListComposite>,
    refresh: PartitionEvent -> Outcome<map<Agent, FailoverListComposite>>)

  /** One invocation of the failover service, as recorded in the manager's call log. */
  datatype ServiceCall = GetForSingleAgent(eventId: EventId, agentName: string) | Refresh(eventId: EventId)

  /** The exceptions an entry point lets escape to its caller. */
  datatype Error =
    | IllegalArgument(message: string)
    | ServiceFailure(exception: string)
    | NullPointer

  datatype Result<T> = Success(value: T) | Failure(error: Error)

  /** An exception thrown by the failover service propagates unchanged to the caller. */
  function Propagate<T>(o: Outcome<T>): (r: Result<T>)
    ensures r.Success? <==> o.Returned?
    ensures o.Returned? ==> r.value == o.value
    ensures o.Threw? ==> r.error == ServiceFailure(o.exception)
  {
    match o
    case Returned(v) => Success(v)
    case Threw(x) => Failure(ServiceFailure(x))
  }

  /** The guards of agentPartitionEvent: the type must be agent-scoped, a name must
      be given, and the registry must know that name. On success, the agent found. */
  function CheckAgentEvent(agentName: Option<string>, eventType: PartitionEventType,
                           registry: map<string, Agent>): (r: Result<Agent>)
    ensures r.Success? <==>
      !eventType.isCloudPartitionEvent && agentName.Some? && agentName.value in registry
    ensures r.Success? ==> r.value == registry[agentName.value]
    ensures r.Failure? ==> r.error.IllegalArgument?
  {
    if eventType.isCloudPartitionEvent || agentName.None? then
      Failure(IllegalArgument("Invalid agent partition event or no agent specified for event type: "
                              + eventType.name))
    else if agentName.value !in registry then
      Failure(IllegalArgument("Can not perform partition event, agent not found with name: "
                              + agentName.value))
    else
      Success(registry[agentName.value])
  }

  /** The guard of the two cloud entry points: the type must be a cloud type. */
  function CheckCloudEvent(eventType: PartitionEventType): (r: Result<()>)
    ensures r.Success? <==> eventType.isCloudPartitionEvent
    ensures r.Failure? ==> r.error.IllegalArgument?
  {
    if !eventType.isCloudPartitionEvent then
      Failure(IllegalArgument("Invalid cloud partition event type: " + eventType.name))
    else
      Success(())
  }
}
