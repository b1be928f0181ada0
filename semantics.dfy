/** The meaning of processPasswordCredential as a function of its inputs and of the
    collaborator's script: the `try` block, its two `catch` clauses, the `finally`
    block's single inner `try` that closes the acquired resources, and how Java combines
    the completions of the three. */
module Semantics {
  import opened JavaLang
  import opened Jdbc

  /** Message of the exception thrown when the procedure answers with no row. */
  const NoResponseMessage: string :=
    "processPasswordCredential :: error validating username/password"
  /** Message of the exception that wraps whatever else escapes the `try` block. */
  const OtherErrorMessage: string :=
    "processPasswordCredential :: other error validating username/password"
  /** Message of the exception that wraps an SQLException thrown while closing. */
  const SqlErrorMessage: string :=
    "processPasswordCredential :: other SQL error validating username/password"
  /** The one attribute put on success. */
  const UsernameAttribute: string := "username"

  /** An AttributeMap. */
  type Attributes = map<string, string>

  /** How a block of code completes: normally, with the value `attrs` then holds, or by
      throwing. */
  datatype Completion = Normal(attrs: Nullable<Attributes>) | Abrupt(exception: Throwable)

  /** What the caller sees: a returned map (possibly null), or an exception. */
  datatype Outcome = Returned(attributes: Nullable<Attributes>) | Raised(exception: Throwable)

  /** What the `try` block did: how it completed, what it acquired, what it called. */
  datatype Body = Body(completion: Completion, acquired: set<Resource>, events: seq<Event>)

  /** What the `finally` block's inner `try` did: the exception it ended with, if any,
      and the close calls it made. */
  datatype Closed = Closed(failure: Nullable<Throwable>, events: seq<Event>)

  /** One whole call: the outcome and every collaborator call, in order. */
  datatype Run = Run(outcome: Outcome, events: seq<Event>)

  /** The statement text handed to prepareCall. */
  function CallString(procedureName: Nullable<string>): string
  {
    "{call " + JavaString(procedureName) + "(?,?)}"
  }

  /** A call the `try` block makes, with the exception it throws, if any. */
  datatype Attempt = Attempt(call: Call, thrown: Nullable<Throwable>)

  /** What the collaborator observes of an attempted call. */
  function Observed(a: Attempt): Event
  {
    Event(a.call, a.thrown.NonNull?)
  }

  /** The call `c` answered by `step`. */
  function Try<T>(c: Call, step: Step<T>): Attempt
  {
    Attempt(c, Thrown(step))
  }

  /** The calls `calls` made one after the other inside the `try` block, followed by
      `rest`: the first that throws ends the block with its exception; each that
      completes hands out its resource, which is then acquired. */
  function Sequence(calls: seq<Attempt>, rest: Body): Body
    decreases |calls|
  {
    if calls == [] then rest
    else
      var e := Observed(calls[0]);
      match calls[0].thrown
      case NonNull(ex) => Body(Abrupt(ex), {}, [e])
      case Null =>
        var after := Sequence(calls[1..], rest);
        Body(after.completion, HandedOut(e) + after.acquired, [e] + after.events)
  }

  /** The calls of the `try` block that acquire the connection and the statement. */
  function Open(dataSource: Nullable<string>, procedureName: Nullable<string>, s: Script): seq<Attempt>
  {
    [Try(GetConnection(dataSource), s.getConnection),
     Try(PrepareCall(CallString(procedureName)), s.prepareCall)]
  }

  /** The calls of the `try` block on the statement: the two bindings, the query, and
      the advance to the first row. */
  function Execute(username: string, password: string, s: Script): seq<Attempt>
  {
    [Try(SetString(1, username), s.setString1),
     Try(SetString(2, password), s.setString2),
     Try(ExecuteQuery, s.executeQuery),
     Try(Next, s.next)]
  }

  /** The `try` block of processPasswordCredential. */
  function TryBlock(dataSource: Nullable<string>, procedureName: Nullable<string>,
                    username: Nullable<string>, password: Nullable<string>, s: Script): Body
  {
    if !(IsNotBlank(username) && IsNotBlank(password)) then Body(Normal(Null), {}, [])
    else Sequence(Open(dataSource, procedureName, s),
                  Sequence(Execute(username.value, password.value, s), ReadRow(username.value, s)))
  }

  /** The two reads of column 1, once for the debug message and once for the decision. */
  function Reads(s: Script): seq<Attempt>
  {
    [Try(GetInt(1), s.getInt), Try(GetInt(1), s.getInt)]
  }

  /** The attribute map the answer `answer` to getInt(1) leads to. */
  function Decision(username: string, answer: Step<int>): Nullable<Attributes>
  {
    if answer == Returns(1) then NonNull(map[UsernameAttribute := username]) else Null
  }

  /** The `try` block after `next()` completed: no row throws; otherwise column 1 is
      read twice, and 1 puts the username in the attribute map. */
  function ReadRow(username: string, s: Script): Body
  {
    if s.next != Returns(true) then
      Body(Abrupt(PasswordValidationException(NoResponseMessage, Null)), {}, [])
    else
      Sequence(Reads(s), Body(Normal(Decision(username, s.getInt)), {}, []))
  }

  /** The two `catch` clauses: an authentication exception is re-thrown as a new one with
      the same message key, marked not recoverable; any other Exception is wrapped; an
      Error is caught by neither. */
  function Catch(c: Completion): Completion
  {
    match c
    case Normal(_) => c
    case Abrupt(PasswordCredentialValidatorAuthnException(_, key)) =>
      Abrupt(PasswordCredentialValidatorAuthnException(false, key))
    case Abrupt(Error(_)) => c
    case Abrupt(e) => Abrupt(PasswordValidationException(OtherErrorMessage, NonNull(e)))
  }

  /** The acquired resources in the order the `finally` block closes them. */
  function CloseOrder(acquired: set<Resource>): (order: seq<Resource>)
    ensures forall r :: r in order <==> r in acquired
    ensures forall i, j :: 0 <= i < j < |order| ==> Rank(order[i]) < Rank(order[j])
  {
    var order := (if ResultSet in acquired then [ResultSet] else [])
      + (if Statement in acquired then [Statement] else [])
      + (if Connection in acquired then [Connection] else []);
    assert forall r: Resource :: r in order <==> r in acquired by {
      forall r: Resource ensures r in order <==> r in acquired {
        assert r == [ResultSet, Statement, Connection][Rank(r)];
      }
    }
    order
  }

  /** Position of a resource in the closing order. */
  function Rank(r: Resource): nat
  {
    match r
    case ResultSet => 0
    case Statement => 1
    case Connection => 2
  }

  /** The inner `try` of the `finally` block: closes `order` one after the other, and
      the first close that throws ends it, so the closes after it are never made. */
  function Closing(order: seq<Resource>, s: Script): Closed
  {
    if order == [] then Closed(Null, [])
    else match CloseAnswer(s, order[0])
      case Throws(e) => Closed(NonNull(e), [Event(Close(order[0]), true)])
      case Returns(_) =>
        var rest := Closing(order[1..], s);
        Closed(rest.failure, [Event(Close(order[0]), false)] + rest.events)
  }

  /** How the whole `try` statement completes: an exception from the `finally` block
      replaces whatever the `try` and `catch` blocks ended with; the `catch` around the
      closes turns an SQLException into a PasswordValidationException first. */
  function Complete(pending: Completion, closeFailure: Nullable<Throwable>): Outcome
  {
    match closeFailure
    case NonNull(SQLException(m)) =>
      Raised(PasswordValidationException(SqlErrorMessage, NonNull(SQLException(m))))
    case NonNull(e) => Raised(e)
    case Null =>
      match pending
      case Normal(attrs) => Returned(attrs)
      case Abrupt(e) => Raised(e)
  }

  /** processPasswordCredential with the given configuration, credentials and script. */
  function Validate(dataSource: Nullable<string>, procedureName: Nullable<string>,
                    username: Nullable<string>, password: Nullable<string>, s: Script): Run
  {
    Conclude(TryBlock(dataSource, procedureName, username, password, s), s)
  }

  /** The `catch` clauses and the `finally` block applied to what the `try` block did. */
  function Conclude(body: Body, s: Script): Run
  {
    var closed := Closing(CloseOrder(body.acquired), s);
    Run(Complete(Catch(body.completion), closed.failure), body.events + closed.events)
  }
}
