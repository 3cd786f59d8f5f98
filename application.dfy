/**
 * `Application.run`: builds the setting once, then, for each requested action name in order,
 * looks up the first registered action of that name and runs it with the setting. An unknown
 * name raises `ActionNotFoundException`; an exception of an action's `run` leaves the loop as
 * it is, so the names after it are not processed.
 *
 * The requested names are `properties.actions()`: `None` when the property is unset, and then
 * the `for` over the null array throws `NullPointerException` once the setting is built.
 *
 * What an action's `run` does to the world is outside this module: `perform(action, setting, k)`
 * is the exception (or none) that the run raises when `k` runs have completed before it.
 */
module App {
  import opened Wrappers
  import opened Exceptions
  import opened Settings
  import opened Sequences

  /** A registered `Action` bean: the name `getName` returns, and which bean it is. */
  datatype Registered = Registered(name: string, bean: nat)

  /** What the loop has done: the actions whose `run` returned, in order, and the exception that ended it. */
  datatype Report = Report(completed: seq<Registered>, error: Option<Throwable>)

  /** `actions.stream().filter(a -> a.getName().equals(name)).findFirst()`. */
  function Lookup(actions: seq<Registered>, name: string): (r: Option<Registered>)
    ensures r.Some? ==> r.value in actions && r.value.name == name
    ensures r.None? <==> forall i :: 0 <= i < |actions| ==> actions[i].name != name
    ensures r.Some? ==> exists i :: 0 <= i < |actions| && actions[i] == r.value
                                    && forall j :: 0 <= j < i ==> actions[j].name != name
    decreases |actions|
  {
    if actions == [] then None
    else if actions[0].name == name then Some(actions[0])
    else
      var r := Lookup(actions[1..], name);
      if r.Some? then
        var i :| 0 < i + 1 <= |actions[1..]| && actions[1..][i] == r.value
                  && forall j :: 0 <= j < i ==> actions[1..][j].name != name;
        assert actions[i + 1] == r.value;
        assert forall j :: 0 <= j < i + 1 ==> actions[j].name != name by {
          forall j | 0 <= j < i + 1 ensures actions[j].name != name {
            if j > 0 {
              assert actions[j] == actions[1..][j - 1];
            }
          }
        }
        r
      else
        assert forall i :: 1 <= i < |actions| ==> actions[i] == actions[1..][i - 1];
        r
  }

  /** The exception for a requested name with no registered action. */
  function NotFound(name: string): Throwable {
    NewActionNotFoundException(name, None, None)
  }

  /**
   * The loop from the name `names[0]` on, after `count` completed runs: the actions it completes
   * and the exception, if any, of the first unknown name or of the first `run` that raises one.
   */
  function RunFrom(names: seq<string>, count: nat, actions: seq<Registered>, setting: Setting,
                   perform: (Registered, Setting, nat) -> Option<Throwable>): Report
    decreases |names|
  {
    if names == [] then Report([], None)
    else
      var a := Lookup(actions, names[0]);
      if a.None? then Report([], Some(NotFound(names[0])))
      else
        var e := perform(a.value, setting, count);
        if e.Some? then Report([], e)
        else
          var rest := RunFrom(names[1..], count + 1, actions, setting, perform);
          Report([a.value] + rest.completed, rest.error)
  }

  /** Iterating over a null array. */
  const NullActions := Throwable(NullPointerException, "", None)

  /**
   * `Application.run`: the construction of the setting, given as its outcome, then the loop over
   * the requested names.
   */
  function RunSpec(requested: Option<seq<string>>, actions: seq<Registered>, construct: Result<Setting, Throwable>,
                   perform: (Registered, Setting, nat) -> Option<Throwable>): Report
  {
    if construct.Failure? then Report([], Some(construct.error))
    else if requested.None? then Report([], Some(NullActions))
    else RunFrom(requested.value, 0, actions, construct.value, perform)
  }

  /** The loop over `properties.actions()`, against `RunSpec`. */
  method Run(requested: Option<seq<string>>, actions: seq<Registered>, construct: Result<Setting, Throwable>,
             perform: (Registered, Setting, nat) -> Option<Throwable>)
    returns (completed: seq<Registered>, error: Option<Throwable>)
    ensures Report(completed, error) == RunSpec(requested, actions, construct, perform)
  {
    if construct.Failure? {
      return [], Some(construct.error);
    }
    var setting := construct.value;
    if requested.None? {
      return [], Some(NullActions);
    }
    var names := requested.value;
    ghost var goal := RunFrom(names, 0, actions, setting, perform);
    completed := [];
    Whole(names);
    var i := 0;
    while i < |names|
      invariant 0 <= i <= |names| && |completed| == i
      invariant var rest := RunFrom(names[i..], i, actions, setting, perform);
        goal == Report(completed + rest.completed, rest.error)
    {
      var name := names[i];
      DropNext(names, i);
      var action := Lookup(actions, name);
      if action.None? {
        AppendEmpty(completed);
        return completed, Some(NotFound(name));
      }
      var e := perform(action.value, setting, i);
      if e.Some? {
        AppendEmpty(completed);
        return completed, e;
      }
      ghost var rest := RunFrom(names[i + 1..], i + 1, actions, setting, perform);
      AppendAssociates(completed, [action.value], rest.completed);
      completed := completed + [action.value];
      i := i + 1;
    }
    AppendEmpty(completed);
    error := None;
  }

  // ---------------------------------------------------------------------------
  // Properties of the loop
  // ---------------------------------------------------------------------------

  /** The action that the `j`-th requested name resolves to, if any. */
  function Resolved(names: seq<string>, actions: seq<Registered>, j: nat): Option<Registered>
    requires j < |names|
  {
    Lookup(actions, names[j])
  }

  /**
   * `completed` are the actions the first names resolve to, in order, each of whose runs,
   * after `count` earlier ones, raised nothing.
   */
  ghost predicate RanInOrder(names: seq<string>, count: nat, completed: seq<Registered>, actions: seq<Registered>,
                             setting: Setting, perform: (Registered, Setting, nat) -> Option<Throwable>)
  {
    |completed| <= |names|
    && forall j :: 0 <= j < |completed| ==>
         Resolved(names, actions, j) == Some(completed[j]) && perform(completed[j], setting, count + j).None?
  }

  /** What the `k`-th name raises: `NotFound` when no action has its name, else what its run raises. */
  function StepError(names: seq<string>, k: nat, count: nat, actions: seq<Registered>, setting: Setting,
                     perform: (Registered, Setting, nat) -> Option<Throwable>): Option<Throwable>
    requires k < |names|
  {
    var a := Resolved(names, actions, k);
    if a.None? then Some(NotFound(names[k])) else perform(a.value, setting, count + k)
  }

  lemma RanInOrderCons(names: seq<string>, count: nat, a: Registered, rest: seq<Registered>, actions: seq<Registered>,
                       setting: Setting, perform: (Registered, Setting, nat) -> Option<Throwable>)
    requires names != [] && Lookup(actions, names[0]) == Some(a) && perform(a, setting, count).None?
    requires RanInOrder(names[1..], count + 1, rest, actions, setting, perform)
    ensures RanInOrder(names, count, [a] + rest, actions, setting, perform)
  {
    var completed := [a] + rest;
    forall j | 0 < j < |completed|
      ensures Resolved(names, actions, j) == Some(completed[j]) && perform(completed[j], setting, count + j).None?
    {
      var i := j - 1;
      assert completed[j] == rest[i];
      assert Resolved(names[1..], actions, i) == Some(rest[i]) && perform(rest[i], setting, count + 1 + i).None?;
      assert names[1..][i] == names[j] && count + 1 + i == count + j;
    }
  }

  /** What the `k`-th of the remaining names raises is what it raises as name `k + 1` of all. */
  lemma StepErrorShift(names: seq<string>, k: nat, count: nat, actions: seq<Registered>, setting: Setting,
                       perform: (Registered, Setting, nat) -> Option<Throwable>)
    requires k + 1 < |names|
    ensures StepError(names[1..], k, count + 1, actions, setting, perform)
         == StepError(names, k + 1, count, actions, setting, perform)
  {
    assert names[1..][k] == names[k + 1];
  }

  /**
   * The loop runs the names in order: the completed actions are those the first names resolve
   * to, none of whose runs raised anything; the loop ends without an exception exactly when
   * every name completed; otherwise the exception is what the next name raises.
   */
  lemma {:induction false} RunFromCharacterized(names: seq<string>, count: nat, actions: seq<Registered>,
                                                setting: Setting, perform: (Registered, Setting, nat) -> Option<Throwable>)
    ensures var r := RunFrom(names, count, actions, setting, perform);
      RanInOrder(names, count, r.completed, actions, setting, perform)
    ensures var r := RunFrom(names, count, actions, setting, perform);
      r.error.None? <==> |r.completed| == |names|
    ensures var r := RunFrom(names, count, actions, setting, perform);
      |r.completed| < |names| ==>
        r.error == StepError(names, |r.completed|, count, actions, setting, perform) && r.error.Some?
    decreases |names|
  {
    if names != [] {
      var a := Lookup(actions, names[0]);
      if a.Some? && perform(a.value, setting, count).None? {
        var rest := RunFrom(names[1..], count + 1, actions, setting, perform);
        RunFromCharacterized(names[1..], count + 1, actions, setting, perform);
        RanInOrderCons(names, count, a.value, rest.completed, actions, setting, perform);
        var k := |rest.completed|;
        if k < |names[1..]| {
          StepErrorShift(names, k, count, actions, setting, perform);
        }
      }
    }
  }

  /** Without failures every requested name runs once, in order, repeats included. */
  lemma RunCompletesAll(requested: Option<seq<string>>, actions: seq<Registered>, construct: Result<Setting, Throwable>,
                        perform: (Registered, Setting, nat) -> Option<Throwable>)
    ensures var r := RunSpec(requested, actions, construct, perform);
      r.error.None? ==>
        construct.Success? && requested.Some? && |r.completed| == |requested.value|
        && forall j :: 0 <= j < |requested.value| ==> Resolved(requested.value, actions, j) == Some(r.completed[j])
  {
    if construct.Success? && requested.Some? {
      RunFromCharacterized(requested.value, 0, actions, construct.value, perform);
    }
  }

  /**
   * A failure at the `k`-th name: exactly the actions of the names before it completed, and the
   * exception is `NotFound` of that name if it is unknown, else the one its run raised.
   */
  lemma RunStopsAtFailure(names: seq<string>, actions: seq<Registered>, setting: Setting,
                          perform: (Registered, Setting, nat) -> Option<Throwable>)
    ensures var r := RunSpec(Some(names), actions, Success(setting), perform);
      var k := |r.completed|;
      r.error.Some? ==>
        k < |names|
        && (forall j :: 0 <= j < k ==> Resolved(names, actions, j) == Some(r.completed[j]))
        && (Resolved(names, actions, k).None? ==> r.error == Some(NotFound(names[k])))
        && (Resolved(names, actions, k).Some? ==> r.error == perform(Resolved(names, actions, k).value, setting, k))
  {
    RunFromCharacterized(names, 0, actions, setting, perform);
  }

  /** From `count` completed runs on: an unknown `i`-th name after `i` names that raise nothing. */
  lemma {:induction false} UnknownNameStopsFrom(names: seq<string>, count: nat, actions: seq<Registered>, setting: Setting,
                                                perform: (Registered, Setting, nat) -> Option<Throwable>, i: nat)
    requires i < |names| && Lookup(actions, names[i]).None?
    requires forall j :: 0 <= j < i ==> StepError(names, j, count, actions, setting, perform).None?
    ensures var r := RunFrom(names, count, actions, setting, perform);
      r.error == Some(NotFound(names[i])) && |r.completed| == i
    decreases i
  {
    if i > 0 {
      assert StepError(names, 0, count, actions, setting, perform).None?;
      var rest, next := names[1..], count + 1;
      forall j | 0 <= j < i - 1
        ensures StepError(rest, j, next, actions, setting, perform).None?
      {
        StepErrorShift(names, j, count, actions, setting, perform);
      }
      assert names[1..][i - 1] == names[i];
      UnknownNameStopsFrom(names[1..], count + 1, actions, setting, perform, i - 1);
    }
  }

  /** An unknown name stops the loop there, with `ActionNotFoundException` naming it, when all names before it complete. */
  lemma UnknownNameStops(names: seq<string>, actions: seq<Registered>, setting: Setting,
                         perform: (Registered, Setting, nat) -> Option<Throwable>, i: nat)
    requires i < |names| && Lookup(actions, names[i]).None?
    requires forall j :: 0 <= j < i ==>
               Lookup(actions, names[j]).Some? && perform(Lookup(actions, names[j]).value, setting, j).None?
    ensures var r := RunSpec(Some(names), actions, Success(setting), perform);
      r.error == Some(NotFound(names[i])) && |r.completed| == i
      && r.error.value.kind == ActionNotFoundException
      && r.error.value.message == "Action \"" + names[i] + "\": not found"
  {
    forall j | 0 <= j < i
      ensures StepError(names, j, 0, actions, setting, perform).None?
    {
    }
    UnknownNameStopsFrom(names, 0, actions, setting, perform, i);
    NotFoundMessage(names[i], "");
  }

  /**
   * A setting that cannot be built ends the run before any action, and before the requested
   * names are read: its exception escapes as is.
   */
  lemma ConstructionFailureRunsNothing(requested: Option<seq<string>>, actions: seq<Registered>, error: Throwable,
                                       perform: (Registered, Setting, nat) -> Option<Throwable>)
    ensures RunSpec(requested, actions, Failure(error), perform) == Report([], Some(error))
  {
  }

  /**
   * With the `actions` property unset, a setting that was built, and so a destination that was
   * created, is followed by an unchecked `NullPointerException` and no action.
   */
  lemma UnsetActionsThrow(requested: Option<seq<string>>, actions: seq<Registered>, setting: Setting,
                          perform: (Registered, Setting, nat) -> Option<Throwable>)
    ensures requested.None? ==>
      RunSpec(requested, actions, Success(setting), perform) == Report([], Some(NullActions))
      && IsUnchecked(NullActions.kind)
  {
    assert Super(NullPointerException) == Some(RuntimeException);
  }

  /** A name requested twice runs its action twice, the second time after the first completed. */
  lemma RepeatedNameRunsTwice(name: string, actions: seq<Registered>, setting: Setting,
                              perform: (Registered, Setting, nat) -> Option<Throwable>)
    requires Lookup(actions, name).Some?
    requires perform(Lookup(actions, name).value, setting, 0).None?
    requires perform(Lookup(actions, name).value, setting, 1).None?
    ensures var a := Lookup(actions, name).value;
      RunSpec(Some([name, name]), actions, Success(setting), perform) == Report([a, a], None)
  {
    var a := Lookup(actions, name).value;
    assert [name, name][1..] == [name];
    assert [name][1..] == [];
    assert RunFrom([name], 1, actions, setting, perform) == Report([a], None) by {
      assert RunFrom([], 2, actions, setting, perform) == Report([], None);
      assert [a] + [] == [a];
    }
    assert [a] + [a] == [a, a];
  }
}
