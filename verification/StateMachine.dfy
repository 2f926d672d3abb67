/**
 The generic state machine of internal/domain/statemachine.go. Guards see the machine's state and
 version; an action may also write them. Audit logging is left out.
 */
module StateMachine {
  import opened Wrappers

  datatype View<S> = View(state: S, version: int)

  datatype Verdict = Allowed | Blocked | Errored(error: string)

  type Guard<!S> = View<S> -> Verdict

  /** What the machine looks like afterwards, and the error if the action failed. */
  type Action<!S> = View<S> -> (View<S>, Option<string>)

  datatype Transition<!S, !E> = Transition(from: S, to: S, event: E, guards: seq<Guard<S>>, actions: seq<Action<S>>)

  datatype TransitionError = NotFound | GuardBlocked | GuardFailed(error: string) | ActionFailed(error: string)

  // ----- rule lists -----

  predicate Matches<S(==), E(==)>(rule: Transition<S, E>, from: S, event: E) {
    rule.from == from && rule.event == event
  }

  /** The first rule of a list for a state and an event. */
  function FirstMatch<S(==), E(==)>(rules: seq<Transition<S, E>>, from: S, event: E): (r: Option<nat>)
    ensures r.Some? ==> r.value < |rules| && Matches(rules[r.value], from, event)
    ensures r.Some? ==> forall j :: 0 <= j < r.value ==> !Matches(rules[j], from, event)
    ensures r.None? ==> forall j :: 0 <= j < |rules| ==> !Matches(rules[j], from, event)
  {
    if rules == [] then None else
      var last := |rules| - 1;
      var before := FirstMatch(rules[..last], from, event);
      if before.Some? then before
      else if Matches(rules[last], from, event) then Some(last)
      else None
  }

  lemma FirstMatchIs<S, E>(rules: seq<Transition<S, E>>, from: S, event: E, i: nat)
    requires i < |rules| && Matches(rules[i], from, event)
    requires forall j :: 0 <= j < i ==> !Matches(rules[j], from, event)
    ensures FirstMatch(rules, from, event) == Some(i)
  {
    var r := FirstMatch(rules, from, event);
    assert r.Some? && r.value >= i;
  }

  method FindTransition<S(==), E(==)>(from: S, event: E, transitions: seq<Transition<S, E>>) returns (r: Option<nat>)
    ensures r == FirstMatch(transitions, from, event)
  {
    for i := 0 to |transitions|
      invariant forall j :: 0 <= j < i ==> !Matches(transitions[j], from, event)
    {
      if transitions[i].from == from && transitions[i].event == event {
        FirstMatchIs(transitions, from, event, i);
        return Some(i);
      }
    }
    return None;
  }

  // ----- guards and actions -----

  /** The verdict of guards asked in turn. */
  function Ask<S>(guards: seq<Guard<S>>, view: View<S>): Verdict {
    if guards == [] then Allowed
    else if guards[0](view) != Allowed then guards[0](view)
    else Ask(guards[1..], view)
  }

  /** Guards allow a transition exactly when each of them does; otherwise the first that does not decides. */
  lemma {:induction false} AskMeans<S>(guards: seq<Guard<S>>, view: View<S>)
    ensures Ask(guards, view) == Allowed <==> forall i :: 0 <= i < |guards| ==> guards[i](view) == Allowed
    ensures Ask(guards, view) != Allowed ==>
              exists i :: 0 <= i < |guards| && guards[i](view) == Ask(guards, view)
                && forall j :: 0 <= j < i ==> guards[j](view) == Allowed
  {
    if guards != [] && guards[0](view) == Allowed {
      AskMeans(guards[1..], view);
      assert forall i :: 0 < i < |guards| ==> guards[i] == guards[1..][i - 1];
      if Ask(guards, view) != Allowed {
        var i :| 0 <= i < |guards| - 1 && guards[1..][i](view) == Ask(guards, view)
          && forall j :: 0 <= j < i ==> guards[1..][j](view) == Allowed;
        assert guards[i + 1](view) == Ask(guards, view);
      }
    }
  }

  /** Actions run in turn, up to the first that fails. */
  function RunActions<S>(actions: seq<Action<S>>, view: View<S>): (View<S>, Option<string>) {
    if actions == [] then (view, None)
    else
      var (after, error) := actions[0](view);
      if error.Some? then (after, error) else RunActions(actions[1..], after)
  }

  /** Each action starts from where the one before it left off; the first that fails is the last to run. */
  lemma {:induction false} RunActionsMeans<S>(actions: seq<Action<S>>, view: View<S>) returns (views: seq<View<S>>)
    ensures 0 < |views| <= |actions| + 1 && views[0] == view
    ensures forall i :: 0 <= i < |views| - 1 ==> views[i + 1] == actions[i](views[i]).0
    ensures forall i :: 0 <= i < |views| - 2 ==> actions[i](views[i]).1 == None
    ensures RunActions(actions, view).0 == views[|views| - 1]
    ensures RunActions(actions, view).1 == if |views| == 1 then None else actions[|views| - 2](views[|views| - 2]).1
    ensures RunActions(actions, view).1 == None ==> |views| == |actions| + 1
  {
    views := [view];
    if actions != [] {
      var after, error := actions[0](view).0, actions[0](view).1;
      views := [view, after];
      if error == None {
        var rest := RunActionsMeans(actions[1..], after);
        views := [view] + rest;
        assert forall i :: 1 <= i < |views| ==> views[i] == rest[i - 1];
      }
    }
  }

  ghost predicate OnlyReads<S(!new)>(action: Action<S>) {
    forall view: View<S> :: action(view).0 == view
  }

  ghost predicate AllOnlyRead<S(!new)>(actions: seq<Action<S>>) {
    forall i :: 0 <= i < |actions| ==> OnlyReads(actions[i])
  }

  lemma {:induction false} ReadingActionsChangeNothing<S(!new)>(actions: seq<Action<S>>, view: View<S>)
    requires AllOnlyRead(actions)
    ensures RunActions(actions, view).0 == view
  {
    if actions != [] {
      assert OnlyReads(actions[0]);
      ReadingActionsChangeNothing(actions[1..], view);
    }
  }

  // ----- the ready-made guards and actions -----

  function GuardAnd<S>(guards: seq<Guard<S>>): Guard<S> {
    view => Ask(guards, view)
  }

  function Either<S>(guards: seq<Guard<S>>, view: View<S>): Verdict {
    if guards == [] then Blocked
    else if guards[0](view) != Blocked then guards[0](view)
    else Either(guards[1..], view)
  }

  /** A disjunction blocks exactly when each guard does; otherwise the first that does not block decides. */
  lemma {:induction false} EitherMeans<S>(guards: seq<Guard<S>>, view: View<S>)
    ensures Either(guards, view) == Blocked <==> forall i :: 0 <= i < |guards| ==> guards[i](view) == Blocked
    ensures Either(guards, view) != Blocked ==>
              exists i :: 0 <= i < |guards| && guards[i](view) == Either(guards, view)
                && forall j :: 0 <= j < i ==> guards[j](view) == Blocked
  {
    if guards != [] && guards[0](view) == Blocked {
      EitherMeans(guards[1..], view);
      assert forall i :: 0 < i < |guards| ==> guards[i] == guards[1..][i - 1];
      if Either(guards, view) != Blocked {
        var i :| 0 <= i < |guards| - 1 && guards[1..][i](view) == Either(guards, view)
          && forall j :: 0 <= j < i ==> guards[1..][j](view) == Blocked;
        assert guards[i + 1](view) == Either(guards, view);
      }
    }
  }

  function GuardOr<S>(guards: seq<Guard<S>>): Guard<S> {
    view => Either(guards, view)
  }

  function GuardNot<S>(guard: Guard<S>): Guard<S> {
    view => match guard(view) case Allowed => Blocked case Blocked => Allowed case Errored(error) => Errored(error)
  }

  function Negated<S>(guards: seq<Guard<S>>): seq<Guard<S>> {
    seq(|guards|, i requires 0 <= i < |guards| => GuardNot(guards[i]))
  }

  /** De Morgan's law, errors and the order of asking included. */
  lemma {:induction false} OrIsNotAndOfNots<S>(guards: seq<Guard<S>>, view: View<S>)
    ensures GuardOr(guards)(view) == GuardNot(GuardAnd(Negated(guards)))(view)
  {
    if guards != [] {
      OrIsNotAndOfNots(guards[1..], view);
      assert Negated(guards)[1..] == Negated(guards[1..]);
      assert Negated(guards)[0] == GuardNot(guards[0]);
    }
  }

  function ActionChain<S>(actions: seq<Action<S>>): Action<S> {
    view => RunActions(actions, view)
  }

  function ActionIncrementVersion<S>(): Action<S> {
    (view: View<S>) => (view.(version := view.version + 1), None)
  }

  /** Guards and actions may be grouped: a conjunction or chain in a list does what its members would do there. */
  lemma {:induction false} GroupingChangesNothing<S>(before: seq<Guard<S>>, group: seq<Guard<S>>, view: View<S>)
    ensures Ask(before + [GuardAnd(group)], view) == Ask(before + group, view)
  {
    if before == [] {
      assert before + group == group && (before + [GuardAnd(group)]) == [GuardAnd(group)];
    } else {
      GroupingChangesNothing(before[1..], group, view);
      assert (before + group)[1..] == before[1..] + group;
      assert (before + [GuardAnd(group)])[1..] == before[1..] + [GuardAnd(group)];
    }
  }

  lemma {:induction false} ChainingChangesNothing<S>(before: seq<Action<S>>, chain: seq<Action<S>>, view: View<S>)
    ensures RunActions(before + [ActionChain(chain)], view) == RunActions(before + chain, view)
  {
    if before == [] {
      assert before + chain == chain && before + [ActionChain(chain)] == [ActionChain(chain)];
    } else {
      ChainingChangesNothing(before[1..], chain, before[0](view).0);
      assert (before + chain)[1..] == before[1..] + chain;
      assert (before + [ActionChain(chain)])[1..] == before[1..] + [ActionChain(chain)];
    }
  }

  // ----- the machine -----

  class StateMachine<S(==, !new), E(==, !new)> {
    var State: S
    var Version: int
    var transitions: seq<Transition<S, E>>
    var transitionsMap: map<(S, E), nat>
    const initialState: S

    /** The index holds exactly the rules of the list, which has one rule for a state and an event. */
    ghost predicate Valid()
      reads this
    {
      && (forall key :: key in transitionsMap ==>
            transitionsMap[key] < |transitions| && Matches(transitions[transitionsMap[key]], key.0, key.1))
      && (forall i :: 0 <= i < |transitions| ==>
            (transitions[i].from, transitions[i].event) in transitionsMap
            && transitionsMap[(transitions[i].from, transitions[i].event)] == i)
    }

    constructor (initialState: S)
      ensures Valid() && State == initialState && Version == 1 && this.initialState == initialState
      ensures transitions == [] && transitionsMap == map[]
    {
      this.initialState, State, Version, transitions, transitionsMap := initialState, initialState, 1, [], map[];
    }

    /** The first rule for a state and an event stays; adding another one only returns its index. */
    method AddTransition(from: S, to: S, event: E) returns (index: nat)
      requires Valid()
      modifies `transitions, `transitionsMap
      ensures Valid() && transitionsMap.Keys == old(transitionsMap).Keys + {(from, event)}
      ensures index < |transitions| && index == transitionsMap[(from, event)]
      ensures forall s, e :: RuleOf(s, e) ==
                if old(RuleOf(s, e)).Some? || s != from || e != event then old(RuleOf(s, e))
                else Some(Transition(from, to, event, [], []))
    {
      var key := (from, event);
      if key in transitionsMap {
        return transitionsMap[key];
      }
      index := |transitions|;
      transitions := transitions + [Transition(from, to, event, [], [])];
      transitionsMap := transitionsMap[key := index];
    }

    method WithGuard(index: nat, guard: Guard<S>)
      requires Valid() && index < |transitions|
      modifies `transitions
      ensures Valid()
      ensures transitions == old(transitions)[index := old(transitions)[index].(guards := old(transitions)[index].guards + [guard])]
    {
      var t := transitions[index];
      transitions := transitions[index := t.(guards := t.guards + [guard])];
    }

    method WithAction(index: nat, action: Action<S>)
      requires Valid() && index < |transitions|
      modifies `transitions
      ensures Valid()
      ensures transitions == old(transitions)[index := old(transitions)[index].(actions := old(transitions)[index].actions + [action])]
    {
      var t := transitions[index];
      transitions := transitions[index := t.(actions := t.actions + [action])];
    }

    /** The rule the index finds. */
    ghost function RuleOf(from: S, event: E): Option<Transition<S, E>>
      reads this
    {
      if (from, event) in transitionsMap && transitionsMap[(from, event)] < |transitions|
      then Some(transitions[transitionsMap[(from, event)]]) else None
    }

    /** The hash index and the linear search find the same rule. */
    lemma IndexIsFirstMatch(from: S, event: E)
      requires Valid()
      ensures FirstMatch(transitions, from, event) ==
                if (from, event) in transitionsMap then Some(transitionsMap[(from, event)]) else None
    {
      var r := FirstMatch(transitions, from, event);
      assert (from, event) in transitionsMap ==> Matches(transitions[transitionsMap[(from, event)]], from, event);
      assert r.Some? ==> Matches(transitions[r.value], from, event);
    }

    ghost function Now(): View<S>
      reads this
    {
      View(State, Version)
    }

    /** The rule an event finds in the current state. */
    ghost function RuleFor(event: E): Option<Transition<S, E>>
      reads this
    {
      RuleOf(State, event)
    }

    ghost function Permission(event: E): Result<bool, string>
      reads this
    {
      var rule := RuleFor(event);
      if rule.None? then Ok(false) else
        match Ask(rule.value.guards, Now())
        case Allowed => Ok(true)
        case Blocked => Ok(false)
        case Errored(error) => Err(error)
    }

    method CanTransition(event: E) returns (ok: bool)
      requires Valid()
      ensures ok <==> RuleFor(event).Some?
    {
      ok := (State, event) in transitionsMap;
    }

    method AskGuards(guards: seq<Guard<S>>) returns (verdict: Verdict)
      ensures verdict == Ask(guards, Now())
    {
      assert guards[0..] == guards;
      for i := 0 to |guards|
        invariant Ask(guards, Now()) == Ask(guards[i..], Now())
      {
        verdict := guards[i](View(State, Version));
        if verdict != Allowed {
          return;
        }
        assert guards[i..][1..] == guards[i + 1..];
      }
      verdict := Allowed;
    }

    method TransitionAllowed(event: E) returns (r: Result<bool, string>)
      requires Valid()
      ensures r == Permission(event)
    {
      var key := (State, event);
      if key !in transitionsMap {
        return Ok(false);
      }
      var transition := transitions[transitionsMap[key]];
      var verdict := AskGuards(transition.guards);
      match verdict
      case Allowed => r := Ok(true);
      case Blocked => r := Ok(false);
      case Errored(error) => r := Err(error);
    }

    method Perform(actions: seq<Action<S>>) returns (error: Option<string>)
      modifies `State, `Version
      ensures (Now(), error) == RunActions(actions, old(Now()))
    {
      ghost var start := Now();
      assert actions[0..] == actions;
      for i := 0 to |actions|
        invariant RunActions(actions, start) == RunActions(actions[i..], Now())
      {
        var (after, failure) := actions[i](View(State, Version));
        assert actions[i..][1..] == actions[i + 1..];
        State, Version := after.state, after.version;
        if failure.Some? {
          return failure;
        }
      }
      error := None;
    }

    /**
     `TransitionAllowed` predicts the lookup and the guards. A refused event changes nothing. A successful
     one enters the target state with one version more than its actions left. A failing action is not undone,
     so that only with actions that do not write the machine every error leaves it as it was.
     */
    method Trigger(event: E) returns (r: Result<S, TransitionError>)
      requires Valid()
      modifies `State, `Version
      ensures Valid()
      ensures old(Permission(event)) == Ok(true) <==> r.Ok? || r.error.ActionFailed?
      ensures old(Permission(event)) == Ok(false) <==> r == Err(NotFound) || r == Err(GuardBlocked)
      ensures r == Err(NotFound) <==> old(RuleFor(event)) == None
      ensures forall error :: old(Permission(event)) == Err(error) <==> r == Err(GuardFailed(error))
      ensures old(Permission(event)) != Ok(true) ==> Now() == old(Now())
      ensures old(Permission(event)) == Ok(true) ==>
                var (after, failure) := RunActions(old(RuleFor(event)).value.actions, old(Now()));
                if failure.Some? then r == Err(ActionFailed(failure.value)) && Now() == after
                else r == Ok(State) && State == old(RuleFor(event)).value.to && Version == after.version + 1
      ensures old(RuleFor(event)).Some? && AllOnlyRead(old(RuleFor(event)).value.actions) ==>
                Now() == if r.Ok? then View(r.value, old(Version) + 1) else old(Now())
    {
      if RuleFor(event).Some? && AllOnlyRead(RuleFor(event).value.actions) {
        ReadingActionsChangeNothing(RuleFor(event).value.actions, Now());
      }
      var key := (State, event);
      if key !in transitionsMap {
        return Err(NotFound);
      }
      var transition := transitions[transitionsMap[key]];
      var verdict := AskGuards(transition.guards);
      match verdict {
        case Errored(error) => return Err(GuardFailed(error));
        case Blocked => return Err(GuardBlocked);
        case Allowed =>
      }
      var failure := Perform(transition.actions);
      if failure.Some? {
        return Err(ActionFailed(failure.value));
      }
      State := transition.to;
      Version := Version + 1;
      return Ok(State);
    }

    method Reset()
      modifies `State, `Version
      ensures State == initialState && Version == 1
    {
      State := initialState;
      Version := 1;
    }
  }

  lemma {:induction false} RunActionsConcat<S>(first: seq<Action<S>>, second: seq<Action<S>>, view: View<S>)
    ensures var (after, error) := RunActions(first, view);
            RunActions(first + second, view) == if error.Some? then (after, error) else RunActions(second, after)
  {
    if first == [] {
      assert first + second == second;
    } else {
      assert (first + second)[1..] == first[1..] + second;
      var (after, error) := first[0](view);
      if error == None { RunActionsConcat(first[1..], second, after); }
    }
  }

  /** After a failing action the machine is as it was exactly when the actions before it left it so: nothing is undone. */
  lemma FailedActionIsUndoneExactlyWhen<S(!new)>(done: seq<Action<S>>, failing: Action<S>, later: seq<Action<S>>, view: View<S>)
    requires RunActions(done, view).1 == None
    requires OnlyReads(failing) && failing(RunActions(done, view).0).1.Some?
    ensures var (after, error) := RunActions(done + [failing] + later, view);
            error.Some? && (after == view <==> RunActions(done, view).0 == view)
  {
    RunActionsConcat(done, [failing] + later, view);
    assert done + [failing] + later == done + ([failing] + later);
    assert ([failing] + later)[0] == failing;
  }

  /** With `n` increments before it, a failing action leaves a version raised by `n`. */
  lemma {:induction false} IncrementsAreNotUndone<S(!new)>(n: nat, failing: Action<S>, view: View<S>)
    requires OnlyReads(failing) && forall v: View<S> :: failing(v).1.Some?
    ensures var (after, error) := RunActions(seq(n, _ => ActionIncrementVersion<S>()) + [failing], view);
            error.Some? && after == view.(version := view.version + n)
  {
    var actions := seq(n, _ => ActionIncrementVersion<S>()) + [failing];
    if n == 0 {
      assert actions == [failing];
    } else {
      assert actions[1..] == seq(n - 1, _ => ActionIncrementVersion<S>()) + [failing];
      IncrementsAreNotUndone(n - 1, failing, view.(version := view.version + 1));
      assert actions[0](view) == (view.(version := view.version + 1), None);
    }
  }

  /** What the first of several calls of `AddTransition` for a state and an event adds. */
  ghost function FirstAdded<S, E>(rules: seq<Transition<S, E>>, from: S, event: E): Option<Transition<S, E>> {
    var i := FirstMatch(rules, from, event);
    if i.Some? then Some(Transition(from, rules[i.value].to, event, [], [])) else None
  }

  lemma AddedNext<S, E>(rules: seq<Transition<S, E>>, k: nat, from: S, event: E)
    requires k < |rules|
    ensures FirstAdded(rules[..k + 1], from, event) ==
              if FirstAdded(rules[..k], from, event).Some? || from != rules[k].from || event != rules[k].event
              then FirstAdded(rules[..k], from, event)
              else Some(Transition(from, rules[k].to, event, [], []))
  {
    assert rules[..k + 1][..k] == rules[..k];
  }

  /**
   A machine built by any sequence of calls of `AddTransition`, repeated ones included, looks up what a
   linear search of that sequence finds.
   */
  method Build<S(==, !new), E(==, !new)>(initialState: S, rules: seq<Transition<S, E>>) returns (sm: StateMachine<S, E>)
    ensures fresh(sm) && sm.Valid() && sm.State == initialState && sm.Version == 1
    ensures forall from, event :: sm.RuleOf(from, event) == FirstAdded(rules, from, event)
  {
    sm := new StateMachine(initialState);
    for k := 0 to |rules|
      invariant fresh(sm) && sm.Valid() && sm.State == initialState && sm.Version == 1
      invariant forall from, event :: sm.RuleOf(from, event) == FirstAdded(rules[..k], from, event)
    {
      forall from, event { AddedNext(rules, k, from, event); }
      var index := sm.AddTransition(rules[k].from, rules[k].to, rules[k].event);
    }
    assert rules[..|rules|] == rules;
  }
}
