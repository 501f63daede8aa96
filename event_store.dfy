/** The event store as a value: events by id, the detail records they own, and the
    next id the store will assign. The functions here specify what the manager's
    methods do to it; the lemmas state what those changes mean. */
module EventStore {
  import opened PartitionEventDomain

  type Events = map<EventId, PartitionEvent>

  /** The detail records an event owns. */
  function DetailSet(e: PartitionEvent): set<DetailId> {
    set d | d in e.eventDetails
  }

  /** A consistent store: every event is filed under its own id, which is below the
      next id to assign; every detail it names is stored; and no detail record is
      owned by two events. */
  ghost predicate WellFormed(events: Events, details: set<DetailId>, nextId: EventId) {
    && (forall id :: id in events ==>
          id < nextId && events[id].id == id && DetailSet(events[id]) <= details)
    && (forall a, b :: a in events && b in events && a != b ==>
          DetailSet(events[a]) !! DetailSet(events[b]))
  }

  predicate IsRequested(events: Events, id: EventId) {
    id in events && events[id].executionStatus == Requested
  }

  /** The events the status query finds REQUESTED among the ids below n, in
      ascending id order, that is, in the order they were persisted. */
  function RequestedIds(events: Events, n: nat): (r: seq<EventId>)
    ensures forall id: EventId :: id in r <==> id < n && IsRequested(events, id)
  {
    if n == 0 then []
    else RequestedIds(events, n - 1) + (if IsRequested(events, n - 1) then [n - 1] else [])
  }

  predicate Ascending(s: seq<EventId>) {
    forall i, j :: 0 <= i < j < |s| ==> s[i] < s[j]
  }

  /** The query lists each REQUESTED event once, in strictly ascending id order. */
  lemma {:induction false} RequestedIdsAscending(events: Events, n: nat)
    ensures Ascending(RequestedIds(events, n))
  {
    if n > 0 {
      RequestedIdsAscending(events, n - 1);
      var earlier := RequestedIds(events, n - 1);
      assert Ascending(earlier);
      forall i | 0 <= i < |earlier| ensures earlier[i] < n - 1 {
        assert earlier[i] in earlier;
      }
      var r := RequestedIds(events, n);
      assert r == earlier + (if IsRequested(events, n - 1) then [n - 1] else []);
      forall i, j | 0 <= i < j < |r| ensures r[i] < r[j] {
        if j < |earlier| {
          assert r[i] == earlier[i] && r[j] == earlier[j];
        } else {
          assert r[i] == earlier[i] && r[j] == n - 1;
        }
      }
    }
  }

  /** One step of the reconciliation loop: the event's status becomes COMPLETED. */
  function MarkCompleted(events: Events, id: EventId): Events {
    if id in events then events[id := events[id].(executionStatus := Completed)] else events
  }

  /** The store after the events of a snapshot were marked COMPLETED, one after
      another: exactly the events of the snapshot are COMPLETED, nothing else changes. */
  function CompleteAll(events: Events, snapshot: seq<EventId>): (r: Events)
    ensures r.Keys == events.Keys
    decreases |snapshot|
  {
    if snapshot == [] then events
    else MarkCompleted(CompleteAll(events, snapshot[..|snapshot| - 1]), snapshot[|snapshot| - 1])
  }

  /** Exactly the events of the snapshot end up COMPLETED; every other event, and
      everything but the status of those, is unchanged. */
  lemma {:induction false} CompleteAllSpec(events: Events, snapshot: seq<EventId>)
    ensures var r := CompleteAll(events, snapshot);
      forall id :: id in events ==>
        r[id] == if id in snapshot then events[id].(executionStatus := Completed) else events[id]
    decreases |snapshot|
  {
    if snapshot != [] {
      var prefix, last := snapshot[..|snapshot| - 1], snapshot[|snapshot| - 1];
      assert snapshot == prefix + [last];
      CompleteAllSpec(events, prefix);
    }
  }

  /** The service calls the reconciliation loop makes as written: one refresh for
      every event of the snapshot, in snapshot order. */
  function RefreshCalls(snapshot: seq<EventId>): (r: seq<ServiceCall>)
    ensures |r| == |snapshot|
    ensures forall i :: 0 <= i < |r| ==> r[i] == Refresh(snapshot[i])
  {
    if snapshot == [] then []
    else RefreshCalls(snapshot[..|snapshot| - 1]) + [Refresh(snapshot[|snapshot| - 1])]
  }

  /** Completing a snapshot one more event further is one more MarkCompleted step. */
  lemma CompleteAllStep(events: Events, snapshot: seq<EventId>, i: nat)
    requires i < |snapshot|
    ensures CompleteAll(events, snapshot[..i + 1]) == MarkCompleted(CompleteAll(events, snapshot[..i]), snapshot[i])
  {
    assert snapshot[..i + 1][..i] == snapshot[..i];
  }

  /** One more event of the snapshot adds one more refresh to the log. */
  lemma RefreshCallsStep(snapshot: seq<EventId>, i: nat)
    requires i < |snapshot|
    ensures RefreshCalls(snapshot[..i + 1]) == RefreshCalls(snapshot[..i]) + [Refresh(snapshot[i])]
  {
    assert snapshot[..i + 1][..i] == snapshot[..i];
  }

  /** The service calls a loop that stops refreshing after its first event makes:
      a single refresh, for the first event of a non-empty snapshot. */
  function CoalescedRefreshCalls(snapshot: seq<EventId>): seq<ServiceCall> {
    if snapshot == [] then [] else [Refresh(snapshot[0])]
  }

  /** How many refreshes a call log holds. */
  function CountRefreshes(calls: seq<ServiceCall>): nat {
    if calls == [] then 0
    else CountRefreshes(calls[..|calls| - 1]) + (if calls[|calls| - 1].Refresh? then 1 else 0)
  }

  /** Refreshes in a log are counted log segment by log segment. */
  lemma {:induction false} CountRefreshesAppend(a: seq<ServiceCall>, b: seq<ServiceCall>)
    ensures CountRefreshes(a + b) == CountRefreshes(a) + CountRefreshes(b)
    decreases |b|
  {
    if b != [] {
      var b', x := b[..|b| - 1], b[|b| - 1];
      assert a + b == (a + b') + [x];
      assert (a + b)[..|a + b| - 1] == a + b';
      CountRefreshesAppend(a, b');
    } else {
      assert a + b == a;
    }
  }

  /** As written, a reconciliation pass refreshes once per event of its snapshot. */
  lemma {:induction false} RefreshCountIsSnapshotSize(snapshot: seq<EventId>)
    ensures CountRefreshes(RefreshCalls(snapshot)) == |snapshot|
    decreases |snapshot|
  {
    if snapshot != [] {
      var prefix := snapshot[..|snapshot| - 1];
      var calls := RefreshCalls(snapshot);
      assert calls[..|calls| - 1] == RefreshCalls(prefix);
      RefreshCountIsSnapshotSize(prefix);
    }
  }

  /** A pass that stops after the first refresh refreshes once when anything was
      requested, and not at all otherwise. */
  lemma CoalescedRefreshCount(snapshot: seq<EventId>)
    ensures CountRefreshes(CoalescedRefreshCalls(snapshot)) == if snapshot == [] then 0 else 1
  {
    if snapshot != [] {
      var calls := CoalescedRefreshCalls(snapshot);
      assert calls[..|calls| - 1] == [];
    }
  }

  /** Whatever the log held before, the pass as written adds one refresh per event
      of its snapshot. */
  lemma PassAddsRefreshPerEvent(log: seq<ServiceCall>, snapshot: seq<EventId>)
    ensures CountRefreshes(log + RefreshCalls(snapshot)) == CountRefreshes(log) + |snapshot|
  {
    CountRefreshesAppend(log, RefreshCalls(snapshot));
    RefreshCountIsSnapshotSize(snapshot);
  }

  /** Whatever the log held before, the coalescing pass adds at most one refresh. */
  lemma CoalescedPassAddsOneRefresh(log: seq<ServiceCall>, snapshot: seq<EventId>)
    ensures CountRefreshes(log + CoalescedRefreshCalls(snapshot)) ==
      CountRefreshes(log) + if snapshot == [] then 0 else 1
  {
    CountRefreshesAppend(log, CoalescedRefreshCalls(snapshot));
    CoalescedRefreshCount(snapshot);
  }

  /** The discrepancy between the loop and its comment: with two or more REQUESTED
      events, the loop as written refreshes more often than the once per pass the
      comment announces. */
  lemma AsWrittenPassRefreshesPerEvent(snapshot: seq<EventId>)
    requires |snapshot| >= 2
    ensures CountRefreshes(RefreshCalls(snapshot)) == |snapshot|
    ensures CountRefreshes(RefreshCalls(snapshot)) > CountRefreshes(CoalescedRefreshCalls(snapshot))
  {
    RefreshCountIsSnapshotSize(snapshot);
    CoalescedRefreshCount(snapshot);
  }

  /** A reconciliation pass over the REQUESTED snapshot completes every event that
      was REQUESTED and leaves every other event as it was. */
  lemma ReconciliationCompletesRequested(events: Events, details: set<DetailId>, nextId: EventId)
    requires WellFormed(events, details, nextId)
    ensures var after := CompleteAll(events, RequestedIds(events, nextId));
      && after.Keys == events.Keys
      && forall id :: id in events ==>
           if events[id].executionStatus == Requested
           then after[id] == events[id].(executionStatus := Completed)
           else after[id] == events[id]
  {
    var snapshot := RequestedIds(events, nextId);
    CompleteAllSpec(events, snapshot);
    forall id | id in events && events[id].executionStatus == Requested
      ensures id in snapshot
    {
      assert id < nextId;
    }
  }

  /** Reconciliation changes statuses only forward and keeps the store consistent. */
  lemma {:induction false} CompleteAllKeepsWellFormed(events: Events, details: set<DetailId>, nextId: EventId,
                                                     snapshot: seq<EventId>)
    requires WellFormed(events, details, nextId)
    ensures WellFormed(CompleteAll(events, snapshot), details, nextId)
  {
    var after := CompleteAll(events, snapshot);
    CompleteAllSpec(events, snapshot);
    forall id | id in after ensures DetailSet(after[id]) == DetailSet(events[id]) {
    }
  }

  /** A second pass right after a first one finds nothing REQUESTED, so it calls
      nothing and changes nothing. */
  lemma SecondPassIsNoOp(events: Events, nextId: EventId)
    ensures var after := CompleteAll(events, RequestedIds(events, nextId));
      && RequestedIds(after, nextId) == []
      && CompleteAll(after, []) == after
      && RefreshCalls([]) == []
  {
    var after := CompleteAll(events, RequestedIds(events, nextId));
    CompleteAllSpec(events, RequestedIds(events, nextId));
    forall id: EventId | id < nextId ensures !IsRequested(after, id) {
    }
    NothingRequestedBelow(after, nextId);
  }

  /** The status query finds nothing when no event below the bound is REQUESTED. */
  lemma {:induction false} NothingRequestedBelow(events: Events, n: nat)
    requires forall id: EventId :: id < n ==> !IsRequested(events, id)
    ensures RequestedIds(events, n) == []
  {
    if n > 0 {
      NothingRequestedBelow(events, n - 1);
    }
  }

  /** Removing an event with its detail records keeps the store consistent, leaves
      every other event and its details in place, and removes exactly as many detail
      records as the event owned. */
  lemma RemoveEventKeepsWellFormed(events: Events, details: set<DetailId>, nextId: EventId, id: EventId)
    requires WellFormed(events, details, nextId)
    requires id in events
    ensures WellFormed(events - {id}, details - DetailSet(events[id]), nextId)
    ensures forall other :: other in events && other != id ==>
      DetailSet(events[other]) <= details - DetailSet(events[id])
    ensures |details - DetailSet(events[id])| == |details| - |DetailSet(events[id])|
  {
    var owned := DetailSet(events[id]);
    assert details == (details - owned) + owned;
  }

  /** Persisting a new event under the next id keeps the store consistent. */
  lemma AddEventKeepsWellFormed(events: Events, details: set<DetailId>, nextId: EventId, e: PartitionEvent)
    requires WellFormed(events, details, nextId)
    requires e.id == nextId && e.eventDetails == []
    ensures nextId !in events
    ensures WellFormed(events[nextId := e], details, nextId + 1)
  {
    assert DetailSet(e) == {};
  }
}
