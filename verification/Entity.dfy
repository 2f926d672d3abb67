/**
 The Task and Subtask aggregates of internal/domain/entity.go and their transition tables
 (internal/domain/statemachine.go). Only the identity, status and version are kept.
 */
module Entity {
  import opened Wrappers
  import opened StateMachine

  datatype TaskStatus = Pending | Dispatched | Running | Reviewing | Confirming | Completed | Failed | Cancelled

  /** The events of the tables; the code's events are strings, and `Other` is any string not named there. */
  datatype Event =
    | Dispatch | Assign | Cancel | StartExecution | NoAgentAvailable
    | CompleteExecution | AutoComplete | ExecutionFailed | RequestConfirmation
    | ReviewPassed | ReviewFailedRetry | ReviewFailedFatal
    | UserApproved | UserRejected | ConfirmationTimeout
    | Other(name: string)

  type Rule = Transition<TaskStatus, Event>

  function On(from: TaskStatus, to: TaskStatus, event: Event): Rule {
    Transition(from, to, event, [], [])
  }

  function TaskRulesFrom(from: TaskStatus): seq<Rule> {
    match from
    case Pending => [
      On(Pending, Dispatched, Dispatch),
      On(Pending, Cancelled, Cancel)]
    case Dispatched => [
      On(Dispatched, Running, StartExecution),
      On(Dispatched, Failed, NoAgentAvailable),
      On(Dispatched, Cancelled, Cancel)]
    case Running => [
      On(Running, Reviewing, CompleteExecution),
      On(Running, Completed, AutoComplete),
      On(Running, Failed, ExecutionFailed),
      On(Running, Confirming, RequestConfirmation),
      On(Running, Cancelled, Cancel)]
    case Reviewing => [
      On(Reviewing, Completed, ReviewPassed),
      On(Reviewing, Running, ReviewFailedRetry),
      On(Reviewing, Failed, ReviewFailedFatal)]
    case Confirming => [
      On(Confirming, Running, UserApproved),
      On(Confirming, Failed, UserRejected),
      On(Confirming, Failed, ConfirmationTimeout),
      On(Confirming, Cancelled, Cancel)]
    case _ => []
  }

  function SubtaskRulesFrom(from: TaskStatus): seq<Rule> {
    match from
    case Pending => [
      On(Pending, Dispatched, Assign),
      On(Pending, Cancelled, Cancel)]
    case Dispatched => [
      On(Dispatched, Running, StartExecution),
      On(Dispatched, Failed, NoAgentAvailable),
      On(Dispatched, Cancelled, Cancel)]
    case Running => [
      On(Running, Reviewing, CompleteExecution),
      On(Running, Completed, AutoComplete),
      On(Running, Failed, ExecutionFailed),
      On(Running, Cancelled, Cancel)]
    case Reviewing => [
      On(Reviewing, Completed, ReviewPassed),
      On(Reviewing, Running, ReviewFailedRetry),
      On(Reviewing, Failed, ReviewFailedFatal)]
    case _ => []
  }

  /** A table: the rules of the states that have any, in the order of the source. */
  function Table(rulesFrom: TaskStatus -> seq<Rule>): seq<Rule> {
    rulesFrom(Pending) + rulesFrom(Dispatched) + rulesFrom(Running) + rulesFrom(Reviewing) + rulesFrom(Confirming)
  }

  const TASK_RULES := Table(TaskRulesFrom)

  const SUBTASK_RULES := Table(SubtaskRulesFrom)

  predicate IsTerminal(s: TaskStatus) {
    s == Completed || s == Failed || s == Cancelled
  }

  /** Where an event leads according to a table. */
  function Move(rules: seq<Rule>, from: TaskStatus, event: Event): (to: Option<TaskStatus>) {
    var i := FirstMatch(rules, from, event);
    if i.Some? then Some(rules[i.value].to) else None
  }

  // ----- the aggregates -----

  datatype Progress = Progress(status: TaskStatus, version: int)

  const NEW := Progress(Pending, 1)

  /** A call of `TransitionTo` as a function: a refused event leaves the aggregate as it was. */
  function Step(rules: seq<Rule>, p: Progress, event: Event): Progress {
    var to := Move(rules, p.status, event);
    if to.Some? then Progress(to.value, p.version + 1) else p
  }

  /** Builds the machine, moves it to the aggregate's status and version, and triggers the event. */
  method TransitionBy(rules: seq<Rule>, p: Progress, event: Event) returns (after: Progress, error: Option<TransitionError>)
    ensures after == Step(rules, p, event)
    ensures error == if Move(rules, p.status, event).Some? then None else Some(NotFound)
  {
    var sm := Build(Pending, rules);
    sm.State, sm.Version := p.status, p.version;
    assert sm.RuleFor(event) == FirstAdded(rules, p.status, event);
    var r := sm.Trigger(event);
    if r.Err? {
      return p, Some(r.error);
    }
    return Progress(r.value, sm.Version), None;
  }

  class Task {
    const id: string
    var Status: TaskStatus
    var Version: int

    ghost function Current(): Progress
      reads this
    {
      Progress(Status, Version)
    }

    constructor (id: string)
      ensures Current() == NEW && this.id == id
    {
      this.id, Status, Version := id, Pending, 1;
    }

    method TransitionTo(event: Event) returns (error: Option<TransitionError>)
      modifies this
      ensures Current() == Step(TASK_RULES, old(Current()), event)
      ensures error == if Move(TASK_RULES, old(Status), event).Some? then None else Some(NotFound)
    {
      var after;
      after, error := TransitionBy(TASK_RULES, Progress(Status, Version), event);
      if error.Some? {
        return;
      }
      Status, Version := after.status, after.version;
    }

    method CanTransitionTo(event: Event) returns (ok: bool)
      ensures ok <==> Move(TASK_RULES, Status, event).Some?
    {
      var sm := Build(Pending, TASK_RULES);
      sm.State := Status;
      assert sm.RuleFor(event) == FirstAdded(TASK_RULES, Status, event);
      ok := sm.CanTransition(event);
    }
  }

  class Subtask {
    const id: string
    var Status: TaskStatus
    var Version: int

    ghost function Current(): Progress
      reads this
    {
      Progress(Status, Version)
    }

    constructor (id: string)
      ensures Current() == NEW && this.id == id
    {
      this.id, Status, Version := id, Pending, 1;
    }

    method TransitionTo(event: Event) returns (error: Option<TransitionError>)
      modifies this
      ensures Current() == Step(SUBTASK_RULES, old(Current()), event)
      ensures error == if Move(SUBTASK_RULES, old(Status), event).Some? then None else Some(NotFound)
    {
      var after;
      after, error := TransitionBy(SUBTASK_RULES, Progress(Status, Version), event);
      if error.Some? {
        return;
      }
      Status, Version := after.status, after.version;
    }
  }

  // ----- runs -----

  /** Where a new aggregate stands after calls of `TransitionTo` with these events, refused ones included. */
  function Run(rules: seq<Rule>, events: seq<Event>): Progress {
    if events == [] then NEW
    else Step(rules, Run(rules, events[..|events| - 1]), events[|events| - 1])
  }

  /** The events of a run that were not refused. */
  function Successes(rules: seq<Rule>, events: seq<Event>): seq<Event> {
    if events == [] then [] else
      var before := events[..|events| - 1];
      var event := events[|events| - 1];
      if Move(rules, Run(rules, before).status, event).Some?
      then Successes(rules, before) + [event] else Successes(rules, before)
  }

  /** The version counts the successful calls, and these alone lead to the same place. */
  lemma {:induction false} VersionCountsSuccesses(rules: seq<Rule>, events: seq<Event>)
    ensures Run(rules, events).version == 1 + |Successes(rules, events)|
    ensures Run(rules, Successes(rules, events)) == Run(rules, events)
  {
    if events != [] {
      var before := events[..|events| - 1];
      var done := Successes(rules, before);
      VersionCountsSuccesses(rules, before);
      assert (done + [events[|events| - 1]])[..|done|] == done;
    }
  }

  lemma RunGrows(rules: seq<Rule>, events: seq<Event>, n: nat)
    requires n < |events|
    ensures Run(rules, events[..n + 1]) == Step(rules, Run(rules, events[..n]), events[n])
  {
    assert events[..n + 1][..n] == events[..n];
  }

  lemma {:induction false} FirstMatchConcat(a: seq<Rule>, b: seq<Rule>, from: TaskStatus, event: Event)
    ensures Move(a + b, from, event) == if Move(a, from, event).Some? then Move(a, from, event) else Move(b, from, event)
  {
    var i, j := FirstMatch(a, from, event), FirstMatch(b, from, event);
    if i.Some? {
      FirstMatchIs(a + b, from, event, i.value);
    } else if j.Some? {
      FirstMatchIs(a + b, from, event, |a| + j.value);
    } else {
      assert FirstMatch(a + b, from, event) == None;
    }
  }

  /** In a table only the rules of a state decide what happens in it. */
  lemma OnlyOwnRules(rulesFrom: TaskStatus -> seq<Rule>, s: TaskStatus, event: Event)
    requires forall t, i :: 0 <= i < |rulesFrom(t)| ==> rulesFrom(t)[i].from == t
    requires IsTerminal(s) ==> rulesFrom(s) == []
    ensures Move(Table(rulesFrom), s, event) == Move(rulesFrom(s), s, event)
  {
    var a, b, c, d, e := rulesFrom(Pending), rulesFrom(Dispatched), rulesFrom(Running), rulesFrom(Reviewing), rulesFrom(Confirming);
    FirstMatchConcat(a, b, s, event);
    FirstMatchConcat(a + b, c, s, event);
    FirstMatchConcat(a + b + c, d, s, event);
    FirstMatchConcat(a + b + c + d, e, s, event);
    assert forall t :: t != s ==> Move(rulesFrom(t), s, event) == None;
  }

  lemma TablesByState(s: TaskStatus, event: Event)
    ensures Move(TASK_RULES, s, event) == Move(TaskRulesFrom(s), s, event)
    ensures Move(SUBTASK_RULES, s, event) == Move(SubtaskRulesFrom(s), s, event)
  {
    OnlyOwnRules(TaskRulesFrom, s, event);
    OnlyOwnRules(SubtaskRulesFrom, s, event);
  }

  /** The states in which a task accepts an event. */
  function SourcesOf(event: Event): set<TaskStatus> {
    match event
    case Dispatch => {Pending}
    case Cancel => {Pending, Dispatched, Running, Confirming}
    case StartExecution | NoAgentAvailable => {Dispatched}
    case CompleteExecution | AutoComplete | ExecutionFailed | RequestConfirmation => {Running}
    case ReviewPassed | ReviewFailedRetry | ReviewFailedFatal => {Reviewing}
    case UserApproved | UserRejected | ConfirmationTimeout => {Confirming}
    case Assign | Other(_) => {}
  }

  /** An event leads to the same state from wherever it is accepted. */
  function TargetOf(event: Event): TaskStatus {
    match event
    case StartExecution | ReviewFailedRetry | UserApproved => Running
    case CompleteExecution => Reviewing
    case RequestConfirmation => Confirming
    case AutoComplete | ReviewPassed => Completed
    case Cancel => Cancelled
    case NoAgentAvailable | ExecutionFailed | ReviewFailedFatal | UserRejected | ConfirmationTimeout => Failed
    case Dispatch | Assign | Other(_) => Dispatched
  }

  lemma RowsByEvent(s: TaskStatus, event: Event)
    ensures Move(TaskRulesFrom(s), s, event) == if s in SourcesOf(event) then Some(TargetOf(event)) else None
  {
    var row := TaskRulesFrom(s);
    var i := FirstMatch(row, s, event);
    assert i.Some? ==> row[i.value] == On(s, TargetOf(event), event) && s in SourcesOf(event);
    if s in SourcesOf(event) { RowHasEvent(s, event); }
  }

  lemma RowHasEvent(s: TaskStatus, event: Event)
    requires s in SourcesOf(event)
    ensures exists i :: 0 <= i < |TaskRulesFrom(s)| && Matches(TaskRulesFrom(s)[i], s, event)
  {
    var row := TaskRulesFrom(s);
    match s
    case Pending => assert Matches(row[0], s, event) || Matches(row[1], s, event);
    case Dispatched => assert Matches(row[0], s, event) || Matches(row[1], s, event) || Matches(row[2], s, event);
    case Running =>
      assert Matches(row[0], s, event) || Matches(row[1], s, event) || Matches(row[2], s, event)
          || Matches(row[3], s, event) || Matches(row[4], s, event);
    case Reviewing => assert Matches(row[0], s, event) || Matches(row[1], s, event) || Matches(row[2], s, event);
    case Confirming =>
      assert Matches(row[0], s, event) || Matches(row[1], s, event) || Matches(row[2], s, event) || Matches(row[3], s, event);
    case _ =>
  }

  /** A task accepts an event exactly in its source states, and it decides alone where that leads. */
  lemma EventDecidesTarget(s: TaskStatus, event: Event)
    ensures Move(TASK_RULES, s, event) == if s in SourcesOf(event) then Some(TargetOf(event)) else None
  {
    TablesByState(s, event);
    RowsByEvent(s, event);
  }

  lemma TerminalHasNoMove(s: TaskStatus, event: Event)
    requires IsTerminal(s)
    ensures Move(TASK_RULES, s, event) == None && Move(SUBTASK_RULES, s, event) == None
  {
    TablesByState(s, event);
  }

  /** Once completed, failed or cancelled, an aggregate never changes again. */
  lemma {:induction false} TerminalIsNeverLeft(rules: seq<Rule>, events: seq<Event>, m: nat, n: nat)
    requires rules == TASK_RULES || rules == SUBTASK_RULES
    requires m <= n <= |events| && IsTerminal(Run(rules, events[..m]).status)
    ensures Run(rules, events[..n]) == Run(rules, events[..m])
  {
    if m < n {
      TerminalIsNeverLeft(rules, events, m, n - 1);
      RunGrows(rules, events, n - 1);
      TerminalHasNoMove(Run(rules, events[..n - 1]).status, events[n - 1]);
    }
  }

  lemma Entering(from: TaskStatus, event: Event, to: TaskStatus)
    requires Move(TASK_RULES, from, event) == Some(to) || Move(SUBTASK_RULES, from, event) == Some(to)
    ensures to == Dispatched ==> from == Pending
    ensures to == Running ==> from in {Dispatched, Reviewing, Confirming}
    ensures to in {Reviewing, Confirming} ==> from == Running
    ensures to == Completed ==> from in {Running, Reviewing}
    ensures to != Pending
  {
    TablesByState(from, event);
  }

  /** Nothing runs, is reviewed, awaits confirmation or completes without being dispatched and then run. */
  lemma {:induction false} RunningFollowsDispatched(rules: seq<Rule>, events: seq<Event>, n: nat)
    requires rules == TASK_RULES || rules == SUBTASK_RULES
    requires n <= |events| && Run(rules, events[..n]).status in {Running, Reviewing, Confirming, Completed}
    ensures exists i: nat, j: nat :: i < j <= n && Run(rules, events[..i]).status == Dispatched && Run(rules, events[..j]).status == Running
  {
    assert events[..0] == [];
    RunGrows(rules, events, n - 1);
    var before := Run(rules, events[..n - 1]).status;
    var now := Run(rules, events[..n]).status;
    if before != now { Entering(before, events[n - 1], now); }
    if before in {Running, Reviewing, Confirming, Completed} {
      RunningFollowsDispatched(rules, events, n - 1);
    }
  }

  // ----- subtasks against tasks -----

  function Rename(event: Event): Event {
    if event == Assign then Dispatch else event
  }

  function RenameAll(events: seq<Event>): seq<Event> {
    seq(|events|, i requires 0 <= i < |events| => Rename(events[i]))
  }

  /** A subtask refuses these two events where the task would move. */
  predicate Diverges(s: TaskStatus, event: Event) {
    (s == Pending && event == Dispatch) || (s == Running && event == RequestConfirmation)
  }

  lemma MoveIs(rules: seq<Rule>, i: nat)
    requires i < |rules| && forall j :: 0 <= j < i ==> !Matches(rules[j], rules[i].from, rules[i].event)
    ensures Move(rules, rules[i].from, rules[i].event) == Some(rules[i].to)
  {
    FirstMatchIs(rules, rules[i].from, rules[i].event, i);
  }

  lemma DivergingMoves()
    ensures Move(TaskRulesFrom(Pending), Pending, Dispatch) == Some(Dispatched)
    ensures Move(TaskRulesFrom(Running), Running, RequestConfirmation) == Some(Confirming)
    ensures Move(SubtaskRulesFrom(Pending), Pending, Assign) == Some(Dispatched)
  {
    MoveIs(TaskRulesFrom(Pending), 0);
    MoveIs(TaskRulesFrom(Running), 3);
    MoveIs(SubtaskRulesFrom(Pending), 0);
  }

  /** Dropping the rule for confirmation changes nothing for other events. */
  lemma RunningMovesAgree(event: Event)
    requires event != RequestConfirmation
    ensures Move(SubtaskRulesFrom(Running), Running, event) == Move(TaskRulesFrom(Running), Running, Rename(event))
  {
    var t, u := TaskRulesFrom(Running), SubtaskRulesFrom(Running);
    assert t == t[..3] + [t[3]] + t[4..] && u == t[..3] + t[4..];
    FirstMatchConcat(t[..3] + [t[3]], t[4..], Running, event);
    FirstMatchConcat(t[..3], [t[3]], Running, event);
    FirstMatchConcat(t[..3], t[4..], Running, event);
    assert event == Assign ==> Move(u, Running, Assign) == None && Move(t, Running, Dispatch) == None;
  }

  lemma PendingMovesAgree(event: Event)
    requires event != Dispatch
    ensures Move(SubtaskRulesFrom(Pending), Pending, event) == Move(TaskRulesFrom(Pending), Pending, Rename(event))
  {
    DivergingMoves();
    if event == Cancel {
      MoveIs(TaskRulesFrom(Pending), 1);
      MoveIs(SubtaskRulesFrom(Pending), 1);
    }
  }

  lemma OtherMovesAgree(s: TaskStatus, event: Event)
    requires s !in {Pending, Running, Confirming}
    ensures Move(SubtaskRulesFrom(s), s, event) == Move(TaskRulesFrom(s), s, Rename(event))
  {
    assert TaskRulesFrom(s) == SubtaskRulesFrom(s);
  }

  lemma SubtasksNeverConfirm(s: TaskStatus, event: Event)
    ensures Move(SUBTASK_RULES, s, event) != Some(Confirming)
  {
    TablesByState(s, event);
  }

  /** A subtask and a task move alike on a renamed event unless the two tables really differ there. */
  lemma MovesAgree(s: TaskStatus, event: Event)
    requires s != Confirming && !Diverges(s, event)
    ensures Move(SUBTASK_RULES, s, event) == Move(TASK_RULES, s, Rename(event))
  {
    TablesByState(s, event);
    TablesByState(s, Rename(event));
    if s == Pending { PendingMovesAgree(event); }
    else if s == Running { RunningMovesAgree(event); }
    else { OtherMovesAgree(s, event); }
  }

  lemma MovesDiverge(s: TaskStatus, event: Event)
    requires Diverges(s, event)
    ensures Move(SUBTASK_RULES, s, event) == None
    ensures Move(TASK_RULES, s, Rename(event)) in {Some(Dispatched), Some(Confirming)}
  {
    TablesByState(s, event);
    DivergingMoves();
  }

  // ----- runs of both -----

  /** After each of the first `n` events the subtask and the task that got the renamed events have the same status. */
  ghost predicate SameStatuses(events: seq<Event>, n: nat)
    requires n <= |events|
  {
    forall k: nat :: k <= n ==> Run(SUBTASK_RULES, events[..k]).status == Run(TASK_RULES, RenameAll(events[..k])).status
  }

  ghost predicate NeverDiverges(events: seq<Event>, n: nat)
    requires n <= |events|
  {
    forall k: nat :: k < n ==> !Diverges(Run(SUBTASK_RULES, events[..k]).status, events[k])
  }

  lemma {:induction false} SubtaskNeverConfirming(events: seq<Event>)
    ensures Run(SUBTASK_RULES, events).status != Confirming
  {
    if events != [] {
      var before := events[..|events| - 1];
      SubtaskNeverConfirming(before);
      SubtasksNeverConfirm(Run(SUBTASK_RULES, before).status, events[|events| - 1]);
    }
  }

  lemma RenamedRunGrows(events: seq<Event>, n: nat)
    requires n < |events|
    ensures Run(TASK_RULES, RenameAll(events[..n + 1])) == Step(TASK_RULES, Run(TASK_RULES, RenameAll(events[..n])), Rename(events[n]))
  {
    var renamed := RenameAll(events[..n + 1]);
    assert renamed[..n] == RenameAll(events[..n]);
  }

  /** A subtask's calls, renamed, take a task through the same statuses exactly when no call meets one of the two rules only tasks have. */
  lemma {:induction false} SameStatusesExactlyWhen(events: seq<Event>, n: nat)
    requires n <= |events|
    ensures SameStatuses(events, n) <==> NeverDiverges(events, n)
  {
    hide Step, Diverges, Move;
    if n == 0 {
      assert events[..0] == [] && RenameAll([]) == [];
    } else {
      SameStatusesExactlyWhen(events, n - 1);
      RunGrows(SUBTASK_RULES, events, n - 1);
      RenamedRunGrows(events, n - 1);
      var s, event := Run(SUBTASK_RULES, events[..n - 1]).status, events[n - 1];
      SubtaskNeverConfirming(events[..n - 1]);
      LastStepAgrees(s, event, Run(SUBTASK_RULES, events[..n - 1]), Run(TASK_RULES, RenameAll(events[..n - 1])));
      var same := Run(SUBTASK_RULES, events[..n]).status == Run(TASK_RULES, RenameAll(events[..n])).status;
      assert SameStatuses(events, n) <==> SameStatuses(events, n - 1) && same;
      assert NeverDiverges(events, n) <==> NeverDiverges(events, n - 1) && !Diverges(s, event);
      assert SameStatuses(events, n - 1) ==> Run(TASK_RULES, RenameAll(events[..n - 1])).status == s;
    }
  }

  lemma LastStepAgrees(s: TaskStatus, event: Event, subtask: Progress, task: Progress)
    requires subtask.status == s && s != Confirming
    ensures task.status == s ==>
              (Step(SUBTASK_RULES, subtask, event).status == Step(TASK_RULES, task, Rename(event)).status <==> !Diverges(s, event))
  {
    if Diverges(s, event) { MovesDiverge(s, event); } else { MovesAgree(s, event); }
  }

  /** The calls a subtask accepted, renamed, are all accepted by a task and take it through the same statuses and versions. */
  lemma {:induction false} SubtaskRunIsTaskRun(events: seq<Event>, n: nat)
    requires n <= |Successes(SUBTASK_RULES, events)|
    ensures Run(TASK_RULES, RenameAll(Successes(SUBTASK_RULES, events)[..n])) == Run(SUBTASK_RULES, Successes(SUBTASK_RULES, events)[..n])
    ensures Run(TASK_RULES, RenameAll(Successes(SUBTASK_RULES, events)[..n])).version == 1 + n
  {
    var done := Successes(SUBTASK_RULES, events);
    if n == 0 {
      assert RenameAll(done[..0]) == [];
    } else {
      SubtaskRunIsTaskRun(events, n - 1);
      RunGrows(SUBTASK_RULES, done, n - 1);
      RenamedRunGrows(done, n - 1);
      SuccessesAreAccepted(SUBTASK_RULES, events, n - 1);
      SubtaskNeverConfirming(done[..n - 1]);
      AcceptedMoveAgrees(Run(SUBTASK_RULES, done[..n - 1]).status, done[n - 1]);
    }
  }

  lemma AcceptedMoveAgrees(s: TaskStatus, event: Event)
    requires s != Confirming && Move(SUBTASK_RULES, s, event).Some?
    ensures Move(TASK_RULES, s, Rename(event)) == Move(SUBTASK_RULES, s, event)
  {
    if Diverges(s, event) { MovesDiverge(s, event); } else { MovesAgree(s, event); }
  }

  lemma {:induction false} SuccessesAreAccepted(rules: seq<Rule>, events: seq<Event>, k: nat)
    requires k < |Successes(rules, events)|
    ensures Move(rules, Run(rules, Successes(rules, events)[..k]).status, Successes(rules, events)[k]).Some?
  {
    var before := events[..|events| - 1];
    var done := Successes(rules, before);
    assert Successes(rules, events)[..|done|] == done;
    if k < |done| {
      SuccessesAreAccepted(rules, before, k);
      assert Successes(rules, events)[..k] == done[..k];
    } else {
      VersionCountsSuccesses(rules, before);
    }
  }
}
