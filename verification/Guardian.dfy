/**
 The approval guardian of internal/guardian (guardian.go, timeout.go). The objects run one call at a
 time; a channel panics in Go when it is sent to or closed after a close, so both are preconditions
 here. Times are inputs, in nanoseconds; so are the encoded payloads of events. Pushing over the web
 socket and logging are left out.
 */
module Guardian {
  import opened Wrappers
  import opened Sequences
  import Events
  import Text

  const APPROVED := "approved"
  const REJECTED := "rejected"
  const TIMEOUT := "timeout"
  const ESCALATED := "escalated"

  const MINUTE := 60_000_000_000

  datatype ApprovalError = UnknownResult(result: string) | EventRefused(error: Events.EventError)

  function EventTypeOf(result: string): Option<string> {
    if result == APPROVED then Some("TaskUserApprovedV1")
    else if result == REJECTED then Some("TaskUserRejectedV1")
    else if result == TIMEOUT then Some("TaskConfirmationTimeoutV1")
    else if result == ESCALATED then Some("TaskEscalatedV1")
    else None
  }

  /** The event that reports a decision, built after the waiter has been told. */
  function EventOf(taskID: string, result: string, payload: string): Result<Events.DomainEvent, ApprovalError> {
    var eventType := EventTypeOf(result);
    if eventType == None then Err(UnknownResult(result)) else
      match Events.NewDomainEvent("Task", taskID, eventType.value, payload, 1)
      case Ok(event) => Ok(event)
      case Err(error) => Err(EventRefused(error))
  }

  /** The type spells the decision out, after its first letter. */
  ghost predicate NamesDecision(eventType: string, result: string) {
    result != "" && exists i: nat :: Text.StartsAt(eventType, result[1..], i)
  }

  /** A known decision is reported exactly when the task ID has no colon; decisions have event types of their own. */
  lemma DecisionIsReported(taskID: string, result: string, payload: string)
    ensures EventOf(taskID, result, payload).Ok? <==> result in {APPROVED, REJECTED, TIMEOUT, ESCALATED} && ':' !in taskID
    ensures forall other :: EventTypeOf(other) == EventTypeOf(result) && EventTypeOf(result).Some? ==> other == result
    ensures EventOf(taskID, result, payload).Ok? ==>
              var event := EventOf(taskID, result, payload).value;
              && event.aggregateType == "Task" && event.aggregateID == taskID && event.version == 1 && event.payload == payload
              && NamesDecision(event.eventType, result)
  {
    hide Events.NewDomainEvent, Events.MatchesPattern, NamesDecision;
    TypesNameDecisions(result);
    KnownTypesMatch();
    var eventType := EventTypeOf(result);
    if eventType.Some? {
      Events.AcceptedExactlyWhen("Task", taskID, eventType.value, payload, 1);
      if ':' !in taskID {
        Events.EventCarriesArguments("Task", taskID, eventType.value, payload, 1);
      }
    }
  }

  lemma TypesNameDecisions(result: string)
    ensures EventTypeOf(result).Some? ==> NamesDecision(EventTypeOf(result).value, result)
  {
    assert Text.StartsAt("TaskUserApprovedV1", APPROVED[1..], 9);
    assert Text.StartsAt("TaskUserRejectedV1", REJECTED[1..], 9);
    assert Text.StartsAt("TaskConfirmationTimeoutV1", TIMEOUT[1..], 17);
    assert Text.StartsAt("TaskEscalatedV1", ESCALATED[1..], 5);
  }

  lemma KnownTypesMatch()
    ensures forall result :: EventTypeOf(result).Some? ==> Events.MatchesPattern(EventTypeOf(result).value)
  {
    hide Events.MatchesPattern;
    TypesOfUsers();
    TypesOfTheSystem();
  }

  lemma TypesOfUsers()
    ensures Events.MatchesPattern("TaskUserApprovedV1") && Events.MatchesPattern("TaskUserRejectedV1")
  {
    assert "TaskUserApprovedV1" == "TaskUserApproved" + "V1" && "TaskUserRejectedV1" == "TaskUserRejected" + "V1";
    NameMatches("TaskUserApproved");
    NameMatches("TaskUserRejected");
  }

  lemma TypesOfTheSystem()
    ensures Events.MatchesPattern("TaskConfirmationTimeoutV1") && Events.MatchesPattern("TaskEscalatedV1")
  {
    assert "TaskConfirmationTimeoutV1" == "TaskConfirmationTimeout" + "V1" && "TaskEscalatedV1" == "TaskEscalated" + "V1";
    NameMatches("TaskConfirmationTimeout");
    NameMatches("TaskEscalated");
  }

  lemma NameMatches(name: string)
    requires |name| >= 2 && forall i :: 0 <= i < |name| ==> Events.IsLetter(name[i])
    ensures Events.MatchesPattern(name + "V1")
  {
    assert Events.MatchesAt(name + "V1", |name|);
  }

  /** A channel with room for one result. */
  class ResultChannel {
    var buffered: Option<string>
    var closed: bool

    constructor ()
      ensures buffered == None && !closed
    {
      buffered, closed := None, false;
    }

    /** `select` with a default: the value is dropped when the buffer is full. */
    method TrySend(value: string)
      requires !closed
      modifies this
      ensures closed == old(closed)
      ensures buffered == if old(buffered) == None then Some(value) else old(buffered)
    {
      if buffered == None {
        buffered := Some(value);
      }
    }

    method Close()
      requires !closed
      modifies this
      ensures closed && buffered == old(buffered)
    {
      closed := true;
    }
  }

  class ApprovalRequest {
    const taskID: string
    const requestedAt: int
    const expiresAt: int
    const resultCh: ResultChannel

    constructor (taskID: string, requestedAt: int, expiresAt: int, resultCh: ResultChannel)
      ensures this.taskID == taskID && this.requestedAt == requestedAt && this.expiresAt == expiresAt && this.resultCh == resultCh
    {
      this.taskID, this.requestedAt, this.expiresAt, this.resultCh := taskID, requestedAt, expiresAt, resultCh;
    }
  }

  class ApprovalGuardian {
    const defaultTimeout: int
    const maxTimeout: int
    var pendingReq: map<string, ApprovalRequest>

    ghost function Channels(): set<ResultChannel>
      reads this
    {
      set t | t in pendingReq :: pendingReq[t].resultCh
    }

    /** Pending requests have open, empty channels of their own. */
    ghost predicate Valid()
      reads this, Channels()
    {
      && (forall t :: t in pendingReq ==>
            pendingReq[t].taskID == t && !pendingReq[t].resultCh.closed && pendingReq[t].resultCh.buffered == None)
      && (forall s, t :: s in pendingReq && t in pendingReq && s != t ==> pendingReq[s].resultCh != pendingReq[t].resultCh)
    }

    constructor (defaultTimeout: int, maxTimeout: int)
      ensures Valid() && pendingReq == map[]
      ensures this.defaultTimeout == if defaultTimeout == 0 then 5 * MINUTE else defaultTimeout
      ensures this.maxTimeout == if maxTimeout == 0 then 30 * MINUTE else maxTimeout
    {
      this.defaultTimeout := if defaultTimeout == 0 then 5 * MINUTE else defaultTimeout;
      this.maxTimeout := if maxTimeout == 0 then 30 * MINUTE else maxTimeout;
      pendingReq := map[];
    }

    /** Registers a request; a custom timeout is used up to the maximum. A pending request of the same task is overwritten. */
    method RequestApproval(taskID: string, customTimeout: int, now: int) returns (req: ApprovalRequest)
      requires Valid()
      modifies this
      ensures Valid() && fresh(req) && fresh(req.resultCh)
      ensures pendingReq == old(pendingReq)[taskID := req]
      ensures req.taskID == taskID && req.requestedAt == now
      ensures customTimeout <= 0 ==> req.expiresAt == now + defaultTimeout
      ensures 0 < customTimeout <= maxTimeout ==> req.expiresAt == now + customTimeout
      ensures customTimeout > 0 && customTimeout > maxTimeout ==> req.expiresAt == now + maxTimeout
    {
      var timeout := defaultTimeout;
      if customTimeout > 0 {
        if customTimeout > maxTimeout {
          timeout := maxTimeout;
        } else {
          timeout := customTimeout;
        }
      }
      var resultCh := new ResultChannel();
      req := new ApprovalRequest(taskID, now, now + timeout, resultCh);
      pendingReq := pendingReq[taskID := req];
    }

    /** Takes the request out of the map, then tells the waiter and closes its channel. */
    method ProcessApproval(taskID: string, result: string, payload: string) returns (event: Result<Events.DomainEvent, ApprovalError>)
      requires Valid()
      modifies this, Channels()
      ensures Valid() && pendingReq == old(pendingReq) - {taskID}
      ensures event == EventOf(taskID, result, payload)
      ensures taskID in old(pendingReq) ==>
                old(pendingReq)[taskID].resultCh.closed && old(pendingReq)[taskID].resultCh.buffered == Some(result)
      ensures forall c :: c in old(Channels()) && (taskID !in old(pendingReq) || c != old(pendingReq)[taskID].resultCh) ==> unchanged(c)
    {
      if taskID in pendingReq {
        var req := pendingReq[taskID];
        pendingReq := pendingReq - {taskID};
        req.resultCh.TrySend(result);
        req.resultCh.Close();
      }
      event := EventOf(taskID, result, payload);
    }

    method HandleTimeout(taskID: string, payload: string) returns (event: Result<Events.DomainEvent, ApprovalError>)
      requires Valid()
      modifies this, Channels()
      ensures Valid() && pendingReq == old(pendingReq) - {taskID}
      ensures event == EventOf(taskID, TIMEOUT, payload) && (event.Ok? <==> ':' !in taskID)
      ensures taskID in old(pendingReq) ==>
                old(pendingReq)[taskID].resultCh.closed && old(pendingReq)[taskID].resultCh.buffered == Some(TIMEOUT)
      ensures forall c :: c in old(Channels()) && (taskID !in old(pendingReq) || c != old(pendingReq)[taskID].resultCh) ==> unchanged(c)
    {
      event := ProcessApproval(taskID, TIMEOUT, payload);
      DecisionIsReported(taskID, TIMEOUT, payload);
    }

    method ExpiredIds(now: int) returns (taskIDs: seq<string>)
      ensures Distinct(taskIDs)
      ensures forall t :: t in taskIDs <==> t in pendingReq && now >= pendingReq[t].expiresAt
    {
      taskIDs := [];
      var rest := pendingReq.Keys;
      while rest != {}
        invariant rest <= pendingReq.Keys && Distinct(taskIDs)
        invariant forall t :: t in taskIDs <==> t in pendingReq && t !in rest && now >= pendingReq[t].expiresAt
        decreases rest
      {
        var t :| t in rest;
        rest := rest - {t};
        if now > pendingReq[t].expiresAt || now == pendingReq[t].expiresAt {
          taskIDs := taskIDs + [t];
        }
      }
    }

    /** Of the requests in `start`, those of `done` have been told of their timeout and the others are still pending. */
    ghost predicate Swept(start: map<string, ApprovalRequest>, done: set<string>)
      reads this, set t | t in start :: start[t].resultCh
    {
      && pendingReq.Keys == start.Keys - done
      && (forall t :: t in pendingReq ==> pendingReq[t] == start[t])
      && (forall t :: t in start && t in done ==> start[t].resultCh.closed && start[t].resultCh.buffered == Some(TIMEOUT))
    }

    /** One iteration of a sweep. */
    method TimeOutOne(taskID: string, ghost start: map<string, ApprovalRequest>, ghost done: set<string>)
      requires Valid() && Swept(start, done) && taskID in pendingReq
      modifies this, Channels()
      ensures Valid() && Swept(start, done + {taskID})
      ensures Channels() <= old(Channels())
    {
      var payload: string := *;
      var event := HandleTimeout(taskID, payload);
    }

    /** A sweep that nothing interleaves with: what has not expired stays pending, the rest is told of the timeout. */
    method CheckExpiredApprovals(now: int)
      requires Valid()
      modifies this, Channels()
      ensures Valid()
      ensures pendingReq == map t | t in old(pendingReq) && old(pendingReq)[t].expiresAt > now :: old(pendingReq)[t]
      ensures forall t :: t in old(pendingReq) && old(pendingReq)[t].expiresAt <= now ==>
                old(pendingReq)[t].resultCh.closed && old(pendingReq)[t].resultCh.buffered == Some(TIMEOUT)
    {
      var taskIDs := ExpiredIds(now);
      ghost var start := pendingReq;
      for k := 0 to |taskIDs|
        invariant Valid() && Channels() <= old(Channels())
        invariant Swept(start, Elements(taskIDs[..k]))
      {
        assert taskIDs[..k + 1] == taskIDs[..k] + [taskIDs[k]];
        assert Elements(taskIDs[..k + 1]) == Elements(taskIDs[..k]) + {taskIDs[k]};
        TimeOutOne(taskIDs[k], start, Elements(taskIDs[..k]));
      }
      assert taskIDs[..|taskIDs|] == taskIDs;
    }
  }
}
