/** The database as the validator sees it: the data-source lookup and the JDBC calls it
    makes, each of which either answers or throws. What the driver and the stored
    procedure do is not modelled; a `Script` fixes the answer to each kind of call, and
    the collaborator records every call it receives. */
module Jdbc {
  import opened JavaLang

  /** The three resources one validation can acquire. */
  datatype Resource = ResultSet | Statement | Connection

  /** The calls the validator makes on its collaborators. */
  datatype Call =
    | GetConnection(dataSource: Nullable<string>)
    | PrepareCall(sql: string)
    | SetString(index: int, value: string)
    | ExecuteQuery
    | Next
    | GetInt(column: int)
    | Close(resource: Resource)

  /** One call as observed by the collaborator, and whether it threw. */
  datatype Event = Event(call: Call, threw: bool)

  /** What a call does: completes with a value, or throws. */
  datatype Step<+T> = Returns(value: T) | Throws(exception: Throwable)

  /** The collaborator's answer to each kind of call. `getInt` answers both reads of
      column 1 of the current row; `next` answers whether a row is present. */
  datatype Script = Script(
    getConnection: Step<()>,
    prepareCall: Step<()>,
    setString1: Step<()>,
    setString2: Step<()>,
    executeQuery: Step<()>,
    next: Step<bool>,
    getInt: Step<int>,
    closeResultSet: Step<()>,
    closeStatement: Step<()>,
    closeConnection: Step<()>)

  /** The exception a step throws, if it throws. */
  function Thrown<T>(step: Step<T>): Nullable<Throwable>
  {
    match step
    case Throws(e) => NonNull(e)
    case Returns(_) => Null
  }

  /** The scripted answer to closing resource `r`. */
  function CloseAnswer(s: Script, r: Resource): Step<()>
  {
    match r
    case ResultSet => s.closeResultSet
    case Statement => s.closeStatement
    case Connection => s.closeConnection
  }

  /** The resource a call hands out when it completes normally. */
  function Acquires(c: Call): Nullable<Resource>
  {
    match c
    case GetConnection(_) => NonNull(Connection)
    case PrepareCall(_) => NonNull(Statement)
    case ExecuteQuery => NonNull(ResultSet)
    case _ => Null
  }

  /** `r` was handed out by a call of `t` that did not throw. */
  ghost predicate AcquiredIn(t: seq<Event>, r: Resource)
  {
    exists i :: 0 <= i < |t| && !t[i].threw && Acquires(t[i].call) == NonNull(r)
  }

  /** The resource one observed call handed out, if any. */
  function HandedOut(e: Event): set<Resource>
  {
    if !e.threw && Acquires(e.call).NonNull? then {Acquires(e.call).value} else {}
  }

  /** Everything the calls of `t` handed out. */
  function Acquisitions(t: seq<Event>): set<Resource>
  {
    if t == [] then {} else HandedOut(t[0]) + Acquisitions(t[1..])
  }

  /** Acquisitions collects exactly the resources some call of `t` handed out. */
  lemma {:induction false} AcquisitionsAreAcquired(t: seq<Event>, r: Resource)
    ensures r in Acquisitions(t) <==> AcquiredIn(t, r)
  {
    if t != [] {
      var tail := t[1..];
      AcquisitionsAreAcquired(tail, r);
      if AcquiredIn(tail, r) {
        var i :| 0 <= i < |tail| && !tail[i].threw && Acquires(tail[i].call) == NonNull(r);
        assert t[i + 1] == tail[i];
      }
      if AcquiredIn(t, r) {
        var i :| 0 <= i < |t| && !t[i].threw && Acquires(t[i].call) == NonNull(r);
        if i > 0 {
          assert tail[i - 1] == t[i];
        }
      }
    }
  }

  /** The number of calls in `t` that close `r`. */
  function CloseCount(t: seq<Event>, r: Resource): nat
  {
    if t == [] then 0
    else (if t[0].call == Close(r) then 1 else 0) + CloseCount(t[1..], r)
  }

  /** The collaborator: a data-source accessor together with the connection, the callable
      statement and the result set it hands out, answering as `script` says. */
  class Database {
    const script: Script
    ghost var trace: seq<Event>

    constructor (script: Script)
      ensures this.script == script && trace == []
    {
      this.script := script;
      trace := [];
    }

    /** DataSourceAccessor.getConnection */
    method GetConnection(dataSource: Nullable<string>) returns (r: Step<()>)
      modifies this
      ensures r == script.getConnection
      ensures trace == old(trace) + [Event(Call.GetConnection(dataSource), r.Throws?)]
    {
      r := script.getConnection;
      trace := trace + [Event(Call.GetConnection(dataSource), r.Throws?)];
    }

    /** Connection.prepareCall */
    method PrepareCall(sql: string) returns (r: Step<()>)
      modifies this
      ensures r == script.prepareCall
      ensures trace == old(trace) + [Event(Call.PrepareCall(sql), r.Throws?)]
    {
      r := script.prepareCall;
      trace := trace + [Event(Call.PrepareCall(sql), r.Throws?)];
    }

    /** PreparedStatement.setString; parameter 1 is answered by `setString1`, any other
        by `setString2`. */
    method SetString(index: int, value: string) returns (r: Step<()>)
      modifies this
      ensures r == if index == 1 then script.setString1 else script.setString2
      ensures trace == old(trace) + [Event(Call.SetString(index, value), r.Throws?)]
    {
      r := if index == 1 then script.setString1 else script.setString2;
      trace := trace + [Event(Call.SetString(index, value), r.Throws?)];
    }

    /** PreparedStatement.executeQuery */
    method ExecuteQuery() returns (r: Step<()>)
      modifies this
      ensures r == script.executeQuery
      ensures trace == old(trace) + [Event(Call.ExecuteQuery, r.Throws?)]
    {
      r := script.executeQuery;
      trace := trace + [Event(Call.ExecuteQuery, r.Throws?)];
    }

    /** ResultSet.next */
    method Next() returns (r: Step<bool>)
      modifies this
      ensures r == script.next
      ensures trace == old(trace) + [Event(Call.Next, r.Throws?)]
    {
      r := script.next;
      trace := trace + [Event(Call.Next, r.Throws?)];
    }

    /** ResultSet.getInt on the current row */
    method GetInt(column: int) returns (r: Step<int>)
      modifies this
      ensures r == script.getInt
      ensures trace == old(trace) + [Event(Call.GetInt(column), r.Throws?)]
    {
      r := script.getInt;
      trace := trace + [Event(Call.GetInt(column), r.Throws?)];
    }

    /** ResultSet.close, Statement.close or Connection.close */
    method Close(resource: Resource) returns (r: Step<()>)
      modifies this
      ensures r == CloseAnswer(script, resource)
      ensures trace == old(trace) + [Event(Call.Close(resource), r.Throws?)]
    {
      r := CloseAnswer(script, resource);
      trace := trace + [Event(Call.Close(resource), r.Throws?)];
    }
  }
}
