/**
 * The exception hierarchy the core throws, and the message formats of the action exceptions.
 *
 * Every Java exception object is a value: its class, its message and its optional cause.
 * A constructor with and without a trailing `cause` argument is one function with an
 * `Option` cause.
 */
module Exceptions {
  import opened Wrappers
  import opened JavaText
  import opened Sequences

  /** The exception classes that occur in the core, including the JDK and JavaCV ones it lets through. */
  datatype Kind =
    | Exception
    | RuntimeException
    | IOException
    | UncheckedIOException
    | NullPointerException
    | IndexOutOfBoundsException
    | ArrayIndexOutOfBoundsException
    | InterruptedException
    | FrameGrabberException
    | FrameRecorderException
    | ActionException
    | ActionInitException
    | ActionPropertyException
    | ActionRunException
    | ActionNotFoundException
    | ActionRuntimeException
    | SettingException
    | PathException
    | PathNotFoundException

  /** Distance from `Exception` in the class hierarchy. */
  function Depth(k: Kind): nat {
    match k
    case Exception => 0
    case RuntimeException | IOException | InterruptedException | ActionException | SettingException => 1
    case UncheckedIOException | NullPointerException | IndexOutOfBoundsException | FrameGrabberException
      | FrameRecorderException | ActionInitException | ActionRunException | ActionNotFoundException
      | ActionRuntimeException | PathException => 2
    case ArrayIndexOutOfBoundsException | ActionPropertyException | PathNotFoundException => 3
  }

  /** The direct superclass; `Exception` is the root of everything modelled here. */
  function Super(k: Kind): (s: Option<Kind>)
    ensures s.None? <==> k == Exception
    ensures s.Some? ==> Depth(s.value) + 1 == Depth(k)
  {
    match k
    case Exception => None
    case RuntimeException | IOException | InterruptedException | ActionException | SettingException => Some(Exception)
    case UncheckedIOException | NullPointerException | IndexOutOfBoundsException => Some(RuntimeException)
    case ArrayIndexOutOfBoundsException => Some(IndexOutOfBoundsException)
    case FrameGrabberException | FrameRecorderException => Some(IOException)
    case ActionInitException | ActionRunException | ActionNotFoundException => Some(ActionException)
    case ActionPropertyException => Some(ActionInitException)
    case ActionRuntimeException => Some(RuntimeException)
    case PathException => Some(SettingException)
    case PathNotFoundException => Some(PathException)
  }

  /** `k` is `base` or a subclass of it (Java's `instanceof`). */
  predicate IsA(k: Kind, base: Kind)
    decreases Depth(k)
  {
    k == base || (Super(k).Some? && IsA(Super(k).value, base))
  }

  /** An unchecked exception: one that may leave a lambda such as the body of `forEach`. */
  predicate IsUnchecked(k: Kind) {
    IsA(k, RuntimeException)
  }

  /** `instanceof` is a partial order with `Exception` at the top: every class is one. */
  lemma {:induction false} EveryKindIsAnException(k: Kind)
    ensures IsA(k, Exception)
    decreases Depth(k)
  {
    if k != Exception {
      EveryKindIsAnException(Super(k).value);
    }
  }

  /** `IsA` only climbs the hierarchy: a class is at least as deep as each of its ancestors. */
  lemma {:induction false} IsAClimbs(k: Kind, base: Kind)
    requires IsA(k, base)
    ensures Depth(base) <= Depth(k)
    decreases Depth(k)
  {
    if k != base {
      IsAClimbs(Super(k).value, base);
    }
  }

  /** Two exception classes that are each an instance of the other are the same class. */
  lemma IsAAntisymmetric(a: Kind, b: Kind)
    requires IsA(a, b) && IsA(b, a)
    ensures a == b
  {
    IsAClimbs(a, b);
    IsAClimbs(b, a);
    if a != b {
      assert Super(a).Some?;
      IsAClimbs(Super(a).value, b);
    }
  }

  datatype Throwable = Throwable(kind: Kind, message: string, cause: Option<Throwable>)

  // ---------------------------------------------------------------------------
  // Message formats
  // ---------------------------------------------------------------------------

  /** `ActionException.buildMessage` and `ActionRuntimeException.buildMessage`. */
  function ActionMessage(actionName: string, error: string): string {
    "Action \"" + actionName + "\": " + error
  }

  /** `ActionPropertyException.buildError`. */
  function PropertyError(propertyName: string, error: string): string {
    "property/argument \"" + propertyName + "\": " + error
  }

  /** The default error of `ActionNotFoundException`. */
  const NotFoundError := "not found"

  /** Reads an action name and an error back out of an action message; the name ends at its first `"`. */
  function ParseActionMessage(m: string): (r: Option<(string, string)>)
    ensures r.Some? ==> ActionMessage(r.value.0, r.value.1) == m && '"' !in r.value.0
  {
    var head := "Action \"";
    if !StartsWith(m, head) then None
    else
      var rest := m[|head|..];
      var k := IndexOf(rest, '"');
      if k < 0 || !StartsWith(rest[k..], "\": ") then None
      else
        var name, error := rest[..k], rest[k + 3..];
        BeforeIndexOf(rest, '"');
        TakeDrop(m, |head|);
        Around(rest, k, "\": ");
        AppendAssociates(head + name, "\": ", error);
        AppendAssociates(head, name, "\": " + error);
        AppendAssociates(name, "\": ", error);
        Some((name, error))
  }

  /** For names without `"`, the message determines the name and the error. */
  lemma ActionMessageRoundTrip(actionName: string, error: string)
    requires '"' !in actionName
    ensures ParseActionMessage(ActionMessage(actionName, error)) == Some((actionName, error))
  {
    var m := ActionMessage(actionName, error);
    var head := "Action \"";
    assert m[..|head|] == head;
    var rest := m[|head|..];
    assert rest == actionName + "\": " + error;
    var k := IndexOf(rest, '"');
    assert rest[|actionName|] == '"';
    assert k == |actionName|;
    assert rest[k..] == "\": " + error;
    assert rest[..k] == actionName;
  }

  /** Distinct (name, error) pairs give distinct messages when names contain no `"`. */
  lemma ActionMessageInjective(n1: string, e1: string, n2: string, e2: string)
    requires '"' !in n1 && '"' !in n2
    requires ActionMessage(n1, e1) == ActionMessage(n2, e2)
    ensures n1 == n2 && e1 == e2
  {
    ActionMessageRoundTrip(n1, e1);
    ActionMessageRoundTrip(n2, e2);
  }

  // ---------------------------------------------------------------------------
  // Constructors
  // ---------------------------------------------------------------------------

  /**
   * An exception of one of the action-exception classes, which all share `ActionException`'s
   * constructor; `ActionMessageRoundTrip` states what its message determines.
   */
  function ActionFailure(kind: Kind, actionName: string, error: string, cause: Option<Throwable>): (t: Throwable)
    requires IsA(kind, ActionException) || kind == ActionRuntimeException
    ensures t.kind == kind && t.cause == cause
  {
    Throwable(kind, ActionMessage(actionName, error), cause)
  }

  function NewActionException(actionName: string, error: string, cause: Option<Throwable>): Throwable {
    ActionFailure(ActionException, actionName, error, cause)
  }

  function NewActionRunException(actionName: string, error: string, cause: Option<Throwable>): Throwable {
    ActionFailure(ActionRunException, actionName, error, cause)
  }

  function NewActionRuntimeException(actionName: string, error: string, cause: Option<Throwable>): Throwable {
    ActionFailure(ActionRuntimeException, actionName, error, cause)
  }

  function NewActionPropertyException(actionName: string, propertyName: string, error: string,
                                      cause: Option<Throwable>): Throwable
  {
    ActionFailure(ActionPropertyException, actionName, PropertyError(propertyName, error), cause)
  }

  /** `error == None` stands for the constructors without an error argument, which use "not found". */
  function NewActionNotFoundException(actionName: string, error: Option<string>, cause: Option<Throwable>): Throwable {
    ActionFailure(ActionNotFoundException, actionName, if error.Some? then error.value else NotFoundError, cause)
  }

  function NewSettingException(message: string, cause: Option<Throwable>): Throwable {
    Throwable(SettingException, message, cause)
  }

  /** `PathException.buildMessage`, given the path already made absolute. */
  function PathMessage(absolutePath: string, error: string): string {
    "Path \"" + absolutePath + "\": " + error
  }

  function NewPathException(absolutePath: string, error: string, cause: Option<Throwable>): Throwable {
    Throwable(PathException, PathMessage(absolutePath, error), cause)
  }

  /** `error == None` stands for the constructors without an error argument, which use "not found". */
  function NewPathNotFoundException(absolutePath: string, error: Option<string>, cause: Option<Throwable>): Throwable {
    Throwable(PathNotFoundException, PathMessage(absolutePath, if error.Some? then error.value else NotFoundError), cause)
  }

  // ---------------------------------------------------------------------------
  // Properties of the constructors
  // ---------------------------------------------------------------------------

  /**
   * With and without a cause, each action-exception constructor gives the same class and message;
   * the variant with a cause keeps it.
   */
  lemma ConstructorsAgree(actionName: string, error: string, cause: Throwable)
    ensures var a, b := NewActionException(actionName, error, None), NewActionException(actionName, error, Some(cause));
      a.kind == b.kind && a.message == b.message && a.cause == None && b.cause == Some(cause)
    ensures var a, b := NewActionRuntimeException(actionName, error, None), NewActionRuntimeException(actionName, error, Some(cause));
      a.kind == b.kind && a.message == b.message && a.cause == None && b.cause == Some(cause)
    ensures var a, b := NewActionNotFoundException(actionName, None, None), NewActionNotFoundException(actionName, None, Some(cause));
      a.kind == b.kind && a.message == b.message && a.cause == None && b.cause == Some(cause)
  {
  }

  /**
   * `ActionException`, `ActionRunException` and `ActionRuntimeException` format their messages
   * alike, and for a name without `"` the name and the error can be read back from each.
   */
  lemma SharedMessageFormat(actionName: string, error: string, cause: Option<Throwable>)
    requires '"' !in actionName
    ensures var m := NewActionException(actionName, error, cause).message;
      m == NewActionRunException(actionName, error, cause).message
      && m == NewActionRuntimeException(actionName, error, cause).message
      && ParseActionMessage(m) == Some((actionName, error))
  {
    ActionMessageRoundTrip(actionName, error);
  }

  /** The property exception's message is the action format around the property format. */
  lemma PropertyMessageFormat(actionName: string, propertyName: string, error: string, cause: Option<Throwable>)
    ensures NewActionPropertyException(actionName, propertyName, error, cause).message
         == "Action \"" + actionName + "\": property/argument \"" + propertyName + "\": " + error
  {
  }

  /** Without an explicit error, "not found" is used; an explicit one replaces it. */
  lemma NotFoundMessage(actionName: string, error: string)
    ensures NewActionNotFoundException(actionName, None, None).message == "Action \"" + actionName + "\": not found"
    ensures NewActionNotFoundException(actionName, Some(error), None).message == ActionMessage(actionName, error)
  {
  }

  /**
   * Where the action exceptions sit: the property exception is an init exception and so an
   * action exception; the not-found and run exceptions are action exceptions.
   */
  lemma ActionHierarchy()
    ensures IsA(ActionPropertyException, ActionInitException) && IsA(ActionPropertyException, ActionException)
    ensures IsA(ActionNotFoundException, ActionException) && IsA(ActionRunException, ActionException)
    ensures IsA(PathNotFoundException, PathException) && IsA(PathException, SettingException)
  {
    assert IsA(ActionInitException, ActionException) by {
      assert Super(ActionInitException) == Some(ActionException);
    }
    assert IsA(ActionPropertyException, ActionInitException) by {
      assert Super(ActionPropertyException) == Some(ActionInitException);
    }
    assert Super(ActionNotFoundException) == Some(ActionException);
    assert Super(ActionRunException) == Some(ActionException);
    assert IsA(PathNotFoundException, PathException) by {
      assert Super(PathNotFoundException) == Some(PathException);
    }
    assert IsA(PathException, SettingException) by {
      assert Super(PathException) == Some(SettingException);
    }
  }

  /** The action exceptions are checked; the runtime variant is unchecked and not an action exception. */
  lemma CheckedAndUnchecked()
    ensures IsUnchecked(ActionRuntimeException) && !IsA(ActionRuntimeException, ActionException)
    ensures !IsUnchecked(ActionException) && !IsUnchecked(ActionRunException)
    ensures IsUnchecked(UncheckedIOException) && !IsUnchecked(IOException)
  {
    assert !IsA(Exception, ActionException) && !IsA(Exception, RuntimeException);
    assert !IsA(RuntimeException, ActionException);
    assert !IsA(ActionException, RuntimeException);
    assert !IsA(IOException, RuntimeException);
  }
}
