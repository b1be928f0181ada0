/** What processPasswordCredential guarantees, stated over `Validate` for every
    configuration, every pair of credentials and every behaviour of the database. */
module Properties {
  import opened JavaLang
  import opened Jdbc
  import opened Configuration
  import opened Semantics

  /** Every close the `finally` block may make completes normally. */
  predicate AllClosesSucceed(s: Script)
  {
    s.closeResultSet.Returns? && s.closeStatement.Returns? && s.closeConnection.Returns?
  }

  /** The calls before the first read of the row all complete, and a row is present. */
  predicate RowPresent(s: Script)
  {
    && s.getConnection.Returns? && s.prepareCall.Returns?
    && s.setString1.Returns? && s.setString2.Returns?
    && s.executeQuery.Returns? && s.next == Returns(true)
  }

  /** The exception of the first call of the `try` block, in program order, that throws;
      the row is read only when `next()` answers true. */
  function FirstThrow(s: Script): Nullable<Throwable>
  {
    if s.getConnection.Throws? then NonNull(s.getConnection.exception)
    else if s.prepareCall.Throws? then NonNull(s.prepareCall.exception)
    else if s.setString1.Throws? then NonNull(s.setString1.exception)
    else if s.setString2.Throws? then NonNull(s.setString2.exception)
    else if s.executeQuery.Throws? then NonNull(s.executeQuery.exception)
    else if s.next.Throws? then NonNull(s.next.exception)
    else if s.next == Returns(true) && s.getInt.Throws? then NonNull(s.getInt.exception)
    else Null
  }

  /** Making the calls `a + b` is making those of `a`, then those of `b`. */
  lemma {:induction false} SequenceAppend(a: seq<Attempt>, b: seq<Attempt>, rest: Body)
    ensures Sequence(a + b, rest) == Sequence(a, Sequence(b, rest))
    decreases |a|
  {
    if a == [] {
      assert a + b == b;
    } else {
      assert (a + b)[0] == a[0];
      assert (a + b)[1..] == a[1..] + b;
      SequenceAppend(a[1..], b, rest);
    }
  }

  /** Two calls: the first that throws ends the block. */
  lemma SequencePair(a: Attempt, b: Attempt, rest: Body)
    ensures Sequence([a, b], rest) ==
      if a.thrown.NonNull? then Body(Abrupt(a.thrown.value), {}, [Observed(a)])
      else if b.thrown.NonNull? then
        Body(Abrupt(b.thrown.value), HandedOut(Observed(a)), [Observed(a), Observed(b)])
      else
        Body(rest.completion, HandedOut(Observed(a)) + HandedOut(Observed(b)) + rest.acquired,
             [Observed(a), Observed(b)] + rest.events)
  {
    var calls := [a, b];
    assert calls[1..] == [b] && calls[1..][1..] == [];
    assert Sequence(calls[1..][1..], rest) == rest;
    if a.thrown.Null? && b.thrown.Null? {
      assert [Observed(a)] + ([Observed(b)] + rest.events) == [Observed(a), Observed(b)] + rest.events;
    } else if a.thrown.Null? {
      assert [Observed(a)] + [Observed(b)] == [Observed(a), Observed(b)];
    }
  }

  /** The connection and statement calls, one Java statement at a time. */
  lemma OpenUnrolled(ds: Nullable<string>, name: Nullable<string>, s: Script, rest: Body)
    ensures var connect, prepare := GetConnection(ds), PrepareCall(CallString(name));
      Sequence(Open(ds, name, s), rest) ==
      if s.getConnection.Throws? then
        Body(Abrupt(s.getConnection.exception), {}, [Event(connect, true)])
      else if s.prepareCall.Throws? then
        Body(Abrupt(s.prepareCall.exception), {Connection}, [Event(connect, false), Event(prepare, true)])
      else
        Body(rest.completion, {Connection, Statement} + rest.acquired,
             [Event(connect, false), Event(prepare, false)] + rest.events)
  {
    SequencePair(Open(ds, name, s)[0], Open(ds, name, s)[1], rest);
  }

  /** The calls on the statement, one Java statement at a time. */
  lemma ExecuteUnrolled(u: string, p: string, s: Script, rest: Body)
    ensures var bind1, bind2 := SetString(1, u), SetString(2, p);
      Sequence(Execute(u, p, s), rest) ==
      if s.setString1.Throws? then
        Body(Abrupt(s.setString1.exception), {}, [Event(bind1, true)])
      else if s.setString2.Throws? then
        Body(Abrupt(s.setString2.exception), {}, [Event(bind1, false), Event(bind2, true)])
      else if s.executeQuery.Throws? then
        Body(Abrupt(s.executeQuery.exception), {},
             [Event(bind1, false), Event(bind2, false), Event(ExecuteQuery, true)])
      else if s.next.Throws? then
        Body(Abrupt(s.next.exception), {ResultSet},
             [Event(bind1, false), Event(bind2, false), Event(ExecuteQuery, false), Event(Next, true)])
      else
        Body(rest.completion, {ResultSet} + rest.acquired,
             [Event(bind1, false), Event(bind2, false), Event(ExecuteQuery, false), Event(Next, false)]
             + rest.events)
  {
    var bind := [Try(SetString(1, u), s.setString1), Try(SetString(2, p), s.setString2)];
    var run := [Try(ExecuteQuery, s.executeQuery), Try(Next, s.next)];
    var query := Sequence(run, rest);
    assert Execute(u, p, s) == bind + run;
    SequenceAppend(bind, run, rest);
    QueryUnrolled(s, rest);
    BindUnrolled(u, p, s, query);
    var x, y := Event(SetString(1, u), false), Event(SetString(2, p), false);
    Flatten(x, y, Event(ExecuteQuery, false), Event(Next, s.next.Throws?), rest.events);
    Flatten(x, y, Event(ExecuteQuery, true), Event(Next, true), []);
  }

  /** Two events followed by two more and a tail, and by one more, as flat lists. */
  lemma Flatten(x: Event, y: Event, z: Event, w: Event, tail: seq<Event>)
    ensures [x, y] + ([z, w] + tail) == [x, y, z, w] + tail
    ensures [x, y] + [z, w] == [x, y, z, w]
    ensures [x, y] + [z] == [x, y, z]
  {
  }

  /** The two bindings. */
  lemma BindUnrolled(u: string, p: string, s: Script, rest: Body)
    ensures var bind1, bind2 := SetString(1, u), SetString(2, p);
      Sequence([Try(bind1, s.setString1), Try(bind2, s.setString2)], rest) ==
      if s.setString1.Throws? then
        Body(Abrupt(s.setString1.exception), {}, [Event(bind1, true)])
      else if s.setString2.Throws? then
        Body(Abrupt(s.setString2.exception), {}, [Event(bind1, false), Event(bind2, true)])
      else
        Body(rest.completion, rest.acquired, [Event(bind1, false), Event(bind2, false)] + rest.events)
  {
    SequencePair(Try(SetString(1, u), s.setString1), Try(SetString(2, p), s.setString2), rest);
  }

  /** The query and the advance to the first row. */
  lemma QueryUnrolled(s: Script, rest: Body)
    ensures Sequence([Try(ExecuteQuery, s.executeQuery), Try(Next, s.next)], rest) ==
      if s.executeQuery.Throws? then
        Body(Abrupt(s.executeQuery.exception), {}, [Event(ExecuteQuery, true)])
      else if s.next.Throws? then
        Body(Abrupt(s.next.exception), {ResultSet}, [Event(ExecuteQuery, false), Event(Next, true)])
      else
        Body(rest.completion, {ResultSet} + rest.acquired,
             [Event(ExecuteQuery, false), Event(Next, false)] + rest.events)
  {
    SequencePair(Try(ExecuteQuery, s.executeQuery), Try(Next, s.next), rest);
  }

  /** The row handling, one Java statement at a time. */
  lemma ReadRowUnrolled(u: string, s: Script)
    ensures ReadRow(u, s) ==
      if s.next != Returns(true) then
        Body(Abrupt(PasswordValidationException(NoResponseMessage, Null)), {}, [])
      else if s.getInt.Throws? then
        Body(Abrupt(s.getInt.exception), {}, [Event(GetInt(1), true)])
      else
        Body(Normal(Decision(u, s.getInt)), {}, [Event(GetInt(1), false), Event(GetInt(1), false)])
  {
    var read := Body(Normal(Decision(u, s.getInt)), {}, []);
    SequencePair(Try(GetInt(1), s.getInt), Try(GetInt(1), s.getInt), read);
    assert [Event(GetInt(1), false), Event(GetInt(1), false)] + [] == [Event(GetInt(1), false), Event(GetInt(1), false)];
  }

  /** The block's resources are those its calls handed out, and it closes nothing. */
  ghost predicate Consistent(b: Body)
  {
    && b.acquired == Acquisitions(b.events)
    && forall i :: 0 <= i < |b.events| ==> !b.events[i].call.Close?
  }

  /** Calls that close nothing keep a block consistent. */
  lemma {:induction false} SequenceConsistent(calls: seq<Attempt>, rest: Body)
    requires forall i :: 0 <= i < |calls| ==> !calls[i].call.Close?
    requires Consistent(rest)
    ensures Consistent(Sequence(calls, rest))
    decreases |calls|
  {
    if calls != [] && calls[0].thrown.Null? {
      SequenceConsistent(calls[1..], rest);
      var after := Sequence(calls[1..], rest);
      var e := Observed(calls[0]);
      assert ([e] + after.events)[1..] == after.events;
      assert forall i :: 1 <= i < |[e] + after.events| ==> ([e] + after.events)[i] == after.events[i - 1];
    } else if calls != [] {
      assert [Observed(calls[0])][1..] == [];
    }
  }

  /** The `try` block closes nothing, and what it holds is exactly what its calls handed
      out. */
  lemma TryBlockConsistent(ds: Nullable<string>, name: Nullable<string>,
                           u: Nullable<string>, p: Nullable<string>, s: Script)
    ensures Consistent(TryBlock(ds, name, u, p, s))
  {
    if IsNotBlank(u) && IsNotBlank(p) {
      if s.next == Returns(true) {
        SequenceConsistent(Reads(s), Body(Normal(Decision(u.value, s.getInt)), {}, []));
      }
      SequenceConsistent(Execute(u.value, p.value, s), ReadRow(u.value, s));
      SequenceConsistent(Open(ds, name, s), Sequence(Execute(u.value, p.value, s), ReadRow(u.value, s)));
    }
  }

  /** How the `try` block completes: with blank credentials normally, with null; otherwise
      with the first exception of its calls; failing that, with no row, by its own
      exception; otherwise normally, holding the attribute map exactly when column 1
      holds 1. */
  lemma TryBlockCompletion(ds: Nullable<string>, name: Nullable<string>,
                           u: Nullable<string>, p: Nullable<string>, s: Script)
    ensures TryBlock(ds, name, u, p, s).completion ==
      if !(IsNotBlank(u) && IsNotBlank(p)) then Normal(Null)
      else match FirstThrow(s)
        case NonNull(e) => Abrupt(e)
        case Null =>
          if s.next == Returns(true) then Normal(Decision(u.value, s.getInt))
          else Abrupt(PasswordValidationException(NoResponseMessage, Null))
  {
    if IsNotBlank(u) && IsNotBlank(p) {
      Unroll(ds, name, u.value, p.value, s);
    }
  }

  /** The resources the `try` block holds when it ends: each one whose producing call, and
      every call before it, completed. */
  lemma TryBlockAcquires(ds: Nullable<string>, name: Nullable<string>,
                         u: Nullable<string>, p: Nullable<string>, s: Script)
    ensures var held := TryBlock(ds, name, u, p, s).acquired;
      var connected := IsNotBlank(u) && IsNotBlank(p) && s.getConnection.Returns?;
      var prepared := connected && s.prepareCall.Returns?;
      && (Connection in held <==> connected)
      && (Statement in held <==> prepared)
      && (ResultSet in held <==>
            prepared && s.setString1.Returns? && s.setString2.Returns? && s.executeQuery.Returns?)
  {
    if IsNotBlank(u) && IsNotBlank(p) {
      Unroll(ds, name, u.value, p.value, s);
    }
  }

  /** The three stages of the `try` block unrolled together. */
  lemma Unroll(ds: Nullable<string>, name: Nullable<string>, u: string, p: string, s: Script)
    ensures var bind1, bind2 := SetString(1, u), SetString(2, p);
      var row := ReadRow(u, s);
      && row == (
        if s.next != Returns(true) then
          Body(Abrupt(PasswordValidationException(NoResponseMessage, Null)), {}, [])
        else if s.getInt.Throws? then
          Body(Abrupt(s.getInt.exception), {}, [Event(GetInt(1), true)])
        else
          Body(Normal(Decision(u, s.getInt)), {}, [Event(GetInt(1), false), Event(GetInt(1), false)]))
      && Sequence(Execute(u, p, s), row) == (
        if s.setString1.Throws? then
          Body(Abrupt(s.setString1.exception), {}, [Event(bind1, true)])
        else if s.setString2.Throws? then
          Body(Abrupt(s.setString2.exception), {}, [Event(bind1, false), Event(bind2, true)])
        else if s.executeQuery.Throws? then
          Body(Abrupt(s.executeQuery.exception), {},
               [Event(bind1, false), Event(bind2, false), Event(ExecuteQuery, true)])
        else if s.next.Throws? then
          Body(Abrupt(s.next.exception), {ResultSet},
               [Event(bind1, false), Event(bind2, false), Event(ExecuteQuery, false), Event(Next, true)])
        else
          Body(row.completion, {ResultSet} + row.acquired,
               [Event(bind1, false), Event(bind2, false), Event(ExecuteQuery, false), Event(Next, false)]
               + row.events))
      && var rest := Sequence(Execute(u, p, s), row);
      Sequence(Open(ds, name, s), rest) == (
        if s.getConnection.Throws? then
          Body(Abrupt(s.getConnection.exception), {}, [Event(GetConnection(ds), true)])
        else if s.prepareCall.Throws? then
          Body(Abrupt(s.prepareCall.exception), {Connection},
               [Event(GetConnection(ds), false), Event(PrepareCall(CallString(name)), true)])
        else
          Body(rest.completion, {Connection, Statement} + rest.acquired,
               [Event(GetConnection(ds), false), Event(PrepareCall(CallString(name)), false)] + rest.events))
  {
    ReadRowUnrolled(u, s);
    ExecuteUnrolled(u, p, s, ReadRow(u, s));
    OpenUnrolled(ds, name, s, Sequence(Execute(u, p, s), ReadRow(u, s)));
  }

  /** With blank credentials nothing is called, nothing is acquired or closed, and the
      method returns null. */
  lemma BlankCredentialsTouchNothing(ds: Nullable<string>, name: Nullable<string>,
                                     u: Nullable<string>, p: Nullable<string>, s: Script)
    requires !(IsNotBlank(u) && IsNotBlank(p))
    ensures Validate(ds, name, u, p, s) == Run(Returned(Null), [])
  {
    assert CloseOrder({}) == [];
  }

  /** The first calls of the `try` block with non-blank credentials. */
  lemma TryBlockStarts(ds: Nullable<string>, name: Nullable<string>, u: string, p: string, s: Script)
    ensures var t := Sequence(Open(ds, name, s), Sequence(Execute(u, p, s), ReadRow(u, s))).events;
      && t != [] && t[0] == Event(GetConnection(ds), s.getConnection.Throws?)
      && (s.getConnection.Returns? ==>
            |t| > 1 && t[1] == Event(PrepareCall(CallString(name)), s.prepareCall.Throws?))
      && (s.getConnection.Returns? && s.prepareCall.Returns? ==>
            |t| > 2 && t[2] == Event(SetString(1, u), s.setString1.Throws?))
      && (s.getConnection.Returns? && s.prepareCall.Returns? && s.setString1.Returns? ==>
            |t| > 3 && t[3] == Event(SetString(2, p), s.setString2.Throws?))
  {
    var row := ReadRow(u, s);
    ExecuteUnrolled(u, p, s, row);
    OpenUnrolled(ds, name, s, Sequence(Execute(u, p, s), row));
  }

  /** The first calls of a validation: the connection from the configured data source,
      the call string built from the configured procedure name, then the username bound to
      parameter 1 and the password to parameter 2. */
  lemma CallAndBindings(ds: Nullable<string>, name: Nullable<string>,
                        u: Nullable<string>, p: Nullable<string>, s: Script)
    requires IsNotBlank(u) && IsNotBlank(p)
    ensures var t := Validate(ds, name, u, p, s).events;
      && t != [] && t[0] == Event(GetConnection(ds), s.getConnection.Throws?)
      && (s.getConnection.Returns? ==>
            |t| > 1 && t[1] == Event(PrepareCall("{call " + JavaString(name) + "(?,?)}"), s.prepareCall.Throws?))
      && (s.getConnection.Returns? && s.prepareCall.Returns? ==>
            |t| > 2 && t[2] == Event(SetString(1, u.value), s.setString1.Throws?))
      && (s.getConnection.Returns? && s.prepareCall.Returns? && s.setString1.Returns? ==>
            |t| > 3 && t[3] == Event(SetString(2, p.value), s.setString2.Throws?))
  {
    TryBlockStarts(ds, name, u.value, p.value, s);
    ConcludeStartsWithBody(TryBlock(ds, name, u, p, s), s);
  }

  /** The statement text names the procedure: it is "{call ", the name, then "(?,?)}",
      and the name can be read back from it; an unset name prints as "null". */
  lemma CallStringNamesProcedure(name: Nullable<string>)
    ensures var c := CallString(name);
      && |c| == |JavaString(name)| + 12
      && c[..6] == "{call " && c[|c| - 6..] == "(?,?)}"
      && c[6..|c| - 6] == JavaString(name)
    ensures CallString(Null) == "{call null(?,?)}"
  {
  }

  /** The closes of one `finally` block are the acquired resources in order, up to and
      including the first that throws; the closes after it are skipped. */
  lemma {:induction false} ClosingStopsAtFirstFailure(order: seq<Resource>, s: Script)
    ensures var f := Closing(order, s);
      && |f.events| <= |order|
      && (forall i :: 0 <= i < |f.events| ==>
            f.events[i] == Event(Close(order[i]), CloseAnswer(s, order[i]).Throws?))
      && (forall i :: 0 <= i < |f.events| - 1 ==> !f.events[i].threw)
      && (f.failure.Null? <==>
            |f.events| == |order| && forall i :: 0 <= i < |f.events| ==> !f.events[i].threw)
      && (f.failure.NonNull? ==>
            f.events != [] && f.events[|f.events| - 1].threw
            && CloseAnswer(s, order[|f.events| - 1]) == Throws(f.failure.value))
  {
    if order != [] && CloseAnswer(s, order[0]).Returns? {
      ClosingStopsAtFirstFailure(order[1..], s);
    }
  }

  /** The closes of `r` in two traces laid end to end add up. */
  lemma {:induction false} CloseCountAppend(a: seq<Event>, b: seq<Event>, r: Resource)
    ensures CloseCount(a + b, r) == CloseCount(a, r) + CloseCount(b, r)
  {
    if a != [] {
      assert (a + b)[1..] == a[1..] + b;
      CloseCountAppend(a[1..], b, r);
    } else {
      assert a + b == b;
    }
  }

  /** Events that close the distinct resources of `order` one by one close each of
      those they reach exactly once, and nothing else. */
  lemma {:induction false} CloseCountOfPrefix(events: seq<Event>, order: seq<Resource>, r: Resource)
    requires |events| <= |order|
    requires forall i :: 0 <= i < |events| ==> events[i].call == Close(order[i])
    requires forall i, j :: 0 <= i < j < |order| ==> order[i] != order[j]
    ensures CloseCount(events, r) == if r in order[..|events|] then 1 else 0
  {
    if events != [] {
      CloseCountOfPrefix(events[1..], order[1..], r);
      assert order[..|events|] == [order[0]] + order[1..][..|events| - 1];
    }
  }

  /** A trace that closes nothing closes `r` no times. */
  lemma {:induction false} NoClosesNoCount(events: seq<Event>, r: Resource)
    requires forall i :: 0 <= i < |events| ==> !events[i].call.Close?
    ensures CloseCount(events, r) == 0
  {
    if events != [] {
      assert forall i :: 1 <= i < |events| ==> events[1..][i - 1] == events[i];
      NoClosesNoCount(events[1..], r);
    }
  }

  /** What two traces laid end to end hand out is what each hands out. */
  lemma {:induction false} AcquisitionsAppend(a: seq<Event>, b: seq<Event>)
    ensures Acquisitions(a + b) == Acquisitions(a) + Acquisitions(b)
  {
    if a != [] {
      assert (a + b)[1..] == a[1..] + b;
      AcquisitionsAppend(a[1..], b);
    } else {
      assert a + b == b;
    }
  }

  /** Closes hand out nothing. */
  lemma {:induction false} ClosesAcquireNothing(events: seq<Event>)
    requires forall i :: 0 <= i < |events| ==> events[i].call.Close?
    ensures Acquisitions(events) == {}
  {
    if events != [] {
      assert forall i :: 1 <= i < |events| ==> events[1..][i - 1] == events[i];
      ClosesAcquireNothing(events[1..]);
    }
  }

  /** The parts of one run: the `try` block's calls, then the closes of what it holds. */
  lemma RunParts(ds: Nullable<string>, name: Nullable<string>,
                 u: Nullable<string>, p: Nullable<string>, s: Script)
    ensures var body := TryBlock(ds, name, u, p, s);
      var order := CloseOrder(body.acquired);
      var closed := Closing(order, s);
      var t := Validate(ds, name, u, p, s).events;
      && t == body.events + closed.events
      && |closed.events| <= |order|
      && (forall i :: 0 <= i < |body.events| ==> !t[i].call.Close?)
      && (forall i :: |body.events| <= i < |t| ==>
            t[i] == Event(Close(order[i - |body.events|]), CloseAnswer(s, order[i - |body.events|]).Throws?))
      && (forall r :: AcquiredIn(t, r) <==> r in order)
  {
    TryBlockConsistent(ds, name, u, p, s);
    ConcludeParts(TryBlock(ds, name, u, p, s), s);
  }

  /** RunParts for any consistent block. */
  lemma ConcludeParts(body: Body, s: Script)
    requires Consistent(body)
    ensures var order := CloseOrder(body.acquired);
      var closed := Closing(order, s);
      var t := Conclude(body, s).events;
      && t == body.events + closed.events
      && |closed.events| <= |order|
      && (forall i :: 0 <= i < |body.events| ==> !t[i].call.Close?)
      && (forall i :: |body.events| <= i < |t| ==>
            t[i] == Event(Close(order[i - |body.events|]), CloseAnswer(s, order[i - |body.events|]).Throws?))
      && (forall r :: AcquiredIn(t, r) <==> r in order)
  {
    ClosingStopsAtFirstFailure(CloseOrder(body.acquired), s);
    forall r: Resource ensures AcquiredIn(Conclude(body, s).events, r) <==> r in CloseOrder(body.acquired) {
      ConcludeAcquires(body, s, r);
    }
  }

  /** A run acquires exactly what the `finally` block sets out to close. */
  lemma ConcludeAcquires(body: Body, s: Script, r: Resource)
    requires Consistent(body)
    ensures AcquiredIn(Conclude(body, s).events, r) <==> r in CloseOrder(body.acquired)
  {
    var order := CloseOrder(body.acquired);
    var closed := Closing(order, s);
    ClosingStopsAtFirstFailure(order, s);
    AcquisitionsAppend(body.events, closed.events);
    ClosesAcquireNothing(closed.events);
    AcquisitionsAreAcquired(body.events + closed.events, r);
  }

  /** A run closes `r` once when the `finally` block reaches it, and otherwise never. */
  lemma ConcludeCloses(body: Body, s: Script, r: Resource)
    requires Consistent(body)
    ensures var order := CloseOrder(body.acquired);
      && |Closing(order, s).events| <= |order|
      && CloseCount(Conclude(body, s).events, r) ==
        if r in order[..|Closing(order, s).events|] then 1 else 0
  {
    var order := CloseOrder(body.acquired);
    var closed := Closing(order, s);
    ClosingStopsAtFirstFailure(order, s);
    NoClosesNoCount(body.events, r);
    CloseCountAppend(body.events, closed.events, r);
    CloseCountOfPrefix(closed.events, order, r);
  }

  /** When every close completes, the `finally` block raises nothing. */
  lemma {:induction false} ClosingSucceeds(order: seq<Resource>, s: Script)
    requires AllClosesSucceed(s)
    ensures Closing(order, s).failure == Null
  {
    if order != [] {
      ClosingSucceeds(order[1..], s);
    }
  }

  /** When no close the `finally` block makes throws, the outcome is what the `catch`
      clauses make of the `try` block's completion. */
  lemma ConcludeQuietly(body: Body, s: Script)
    requires Closing(CloseOrder(body.acquired), s).failure == Null
    ensures Conclude(body, s).outcome ==
      match Catch(body.completion)
      case Normal(attrs) => Returned(attrs)
      case Abrupt(e) => Raised(e)
  {
  }

  /** The calls of the `try` block come first in a run. */
  lemma ConcludeStartsWithBody(body: Body, s: Script)
    ensures var t := Conclude(body, s).events;
      |body.events| <= |t| && forall k :: 0 <= k < |body.events| ==> t[k] == body.events[k]
  {
  }

  /** A row holding 1, with every close completing: the map of the single attribute
      "username", the one key of the attribute contract. */
  lemma AuthenticatedWhenOne(ds: Nullable<string>, name: Nullable<string>,
                             u: Nullable<string>, p: Nullable<string>, s: Script)
    requires IsNotBlank(u) && IsNotBlank(p) && RowPresent(s) && s.getInt == Returns(1)
    requires AllClosesSucceed(s)
    ensures Validate(ds, name, u, p, s).outcome == Returned(NonNull(map["username" := u.value]))
    ensures map["username" := u.value].Keys == AttributeContract
  {
    TryBlockCompletion(ds, name, u, p, s);
    ClosingSucceeds(CloseOrder(TryBlock(ds, name, u, p, s).acquired), s);
    ConcludeQuietly(TryBlock(ds, name, u, p, s), s);
  }

  /** A row holding anything but 1, with every close completing: null, and no exception. */
  lemma NotAuthenticatedOtherwise(ds: Nullable<string>, name: Nullable<string>,
                                  u: Nullable<string>, p: Nullable<string>, s: Script, v: int)
    requires IsNotBlank(u) && IsNotBlank(p) && RowPresent(s) && s.getInt == Returns(v) && v != 1
    requires AllClosesSucceed(s)
    ensures Validate(ds, name, u, p, s).outcome == Returned(Null)
  {
    TryBlockCompletion(ds, name, u, p, s);
    ClosingSucceeds(CloseOrder(TryBlock(ds, name, u, p, s).acquired), s);
    ConcludeQuietly(TryBlock(ds, name, u, p, s), s);
  }

  /** No row: the exception the block throws is itself caught by the generic clause, so the
      caller sees the "other error" exception with the "error validating" one as cause. */
  lemma NoRowIsError(ds: Nullable<string>, name: Nullable<string>,
                     u: Nullable<string>, p: Nullable<string>, s: Script)
    requires IsNotBlank(u) && IsNotBlank(p)
    requires s.getConnection.Returns? && s.prepareCall.Returns? && s.setString1.Returns?
    requires s.setString2.Returns? && s.executeQuery.Returns? && s.next == Returns(false)
    requires AllClosesSucceed(s)
    ensures Validate(ds, name, u, p, s).outcome ==
      Raised(PasswordValidationException(
        "processPasswordCredential :: other error validating username/password",
        NonNull(PasswordValidationException(
          "processPasswordCredential :: error validating username/password", Null))))
  {
    TryBlockCompletion(ds, name, u, p, s);
    ClosingSucceeds(CloseOrder(TryBlock(ds, name, u, p, s).acquired), s);
    ConcludeQuietly(TryBlock(ds, name, u, p, s), s);
  }

  /** An exception from a call of the `try` block, with no close that is made throwing:
      an authentication exception comes back with its message key and not recoverable, an
      Error passes unchanged, and anything else is wrapped as the cause of the "other
      error" exception. */
  lemma StepExceptionRemapped(ds: Nullable<string>, name: Nullable<string>,
                              u: Nullable<string>, p: Nullable<string>, s: Script, e: Throwable)
    requires IsNotBlank(u) && IsNotBlank(p) && FirstThrow(s) == NonNull(e)
    requires Closing(CloseOrder(TryBlock(ds, name, u, p, s).acquired), s).failure == Null
    ensures var outcome := Validate(ds, name, u, p, s).outcome;
      && (e.PasswordCredentialValidatorAuthnException? ==>
            outcome == Raised(PasswordCredentialValidatorAuthnException(false, e.messageKey)))
      && (e.Error? ==> outcome == Raised(e))
      && (!e.PasswordCredentialValidatorAuthnException? && !e.Error? ==>
            outcome == Raised(PasswordValidationException(OtherErrorMessage, NonNull(e))))
  {
    TryBlockCompletion(ds, name, u, p, s);
    ConcludeQuietly(TryBlock(ds, name, u, p, s), s);
  }

  /** When the connection cannot be acquired, that is the only call: nothing else is
      opened and nothing is closed, whatever the closes would answer, and the caller sees
      the remapped exception. */
  lemma ConnectionFailureClosesNothing(ds: Nullable<string>, name: Nullable<string>,
                                       u: Nullable<string>, p: Nullable<string>, s: Script, e: Throwable)
    requires IsNotBlank(u) && IsNotBlank(p) && s.getConnection == Throws(e)
    ensures var run := Validate(ds, name, u, p, s);
      && run.events == [Event(GetConnection(ds), true)]
      && (e.PasswordCredentialValidatorAuthnException? ==>
            run.outcome == Raised(PasswordCredentialValidatorAuthnException(false, e.messageKey)))
      && (e.Error? ==> run.outcome == Raised(e))
      && (!e.PasswordCredentialValidatorAuthnException? && !e.Error? ==>
            run.outcome == Raised(PasswordValidationException(OtherErrorMessage, NonNull(e))))
  {
    OpenUnrolled(ds, name, s, Sequence(Execute(u.value, p.value, s), ReadRow(u.value, s)));
    assert CloseOrder({}) == [];
    StepExceptionRemapped(ds, name, u, p, s, e);
  }

  /** Every resource a run acquires is closed exactly once, unless an earlier close threw,
      which is then the last call; nothing is closed twice, and nothing is closed that was
      not acquired. */
  lemma ResourceDiscipline(ds: Nullable<string>, name: Nullable<string>,
                           u: Nullable<string>, p: Nullable<string>, s: Script, r: Resource)
    ensures var t := Validate(ds, name, u, p, s).events;
      && CloseCount(t, r) <= 1
      && (CloseCount(t, r) == 1 ==> AcquiredIn(t, r))
      && (AcquiredIn(t, r) && CloseCount(t, r) == 0 ==>
            t != [] && t[|t| - 1].call.Close? && t[|t| - 1].threw)
      && (AllClosesSucceed(s) ==> (AcquiredIn(t, r) <==> CloseCount(t, r) == 1))
  {
    TryBlockConsistent(ds, name, u, p, s);
    ConcludeDiscipline(TryBlock(ds, name, u, p, s), s, r);
  }

  /** ResourceDiscipline for any consistent block. */
  lemma ConcludeDiscipline(body: Body, s: Script, r: Resource)
    requires Consistent(body)
    ensures var t := Conclude(body, s).events;
      && CloseCount(t, r) <= 1
      && (CloseCount(t, r) == 1 ==> AcquiredIn(t, r))
      && (AcquiredIn(t, r) && CloseCount(t, r) == 0 ==>
            t != [] && t[|t| - 1].call.Close? && t[|t| - 1].threw)
      && (AllClosesSucceed(s) ==> (AcquiredIn(t, r) <==> CloseCount(t, r) == 1))
  {
    var order := CloseOrder(body.acquired);
    var closed := Closing(order, s);
    var t := body.events + closed.events;
    var k := |closed.events|;
    ClosingStopsAtFirstFailure(order, s);
    ConcludeAcquires(body, s, r);
    ConcludeCloses(body, s, r);
    if k == |order| {
      assert order[..k] == order;
    } else {
      assert t[|t| - 1] == closed.events[k - 1];
    }
    if AllClosesSucceed(s) {
      ClosingSucceeds(order, s);
    }
  }

  /** The closes come after every other call, result set, then statement, then
      connection. */
  lemma ClosesInOrder(ds: Nullable<string>, name: Nullable<string>,
                      u: Nullable<string>, p: Nullable<string>, s: Script)
    ensures var t := Validate(ds, name, u, p, s).events;
      forall i, j :: 0 <= i < j < |t| && t[i].call.Close? ==>
        t[j].call.Close? && Rank(t[i].call.resource) < Rank(t[j].call.resource)
  {
    RunParts(ds, name, u, p, s);
  }

  /** A close that throws is the last call, and its exception replaces whatever the `try`
      and `catch` blocks ended with: an SQLException as the cause of the "other SQL
      error" exception, anything else unchanged. */
  lemma CloseFailureOverrides(ds: Nullable<string>, name: Nullable<string>,
                              u: Nullable<string>, p: Nullable<string>, s: Script, i: int)
    requires var t := Validate(ds, name, u, p, s).events;
      0 <= i < |t| && t[i].call.Close? && t[i].threw
    ensures var run := Validate(ds, name, u, p, s);
      var answer := CloseAnswer(s, run.events[i].call.resource);
      && i == |run.events| - 1
      && answer.Throws?
      && run.outcome == if answer.exception.SQLException? then
           Raised(PasswordValidationException(
             "processPasswordCredential :: other SQL error validating username/password",
             NonNull(answer.exception)))
         else Raised(answer.exception)
  {
    var body := TryBlock(ds, name, u, p, s);
    var order := CloseOrder(body.acquired);
    RunParts(ds, name, u, p, s);
    ClosingStopsAtFirstFailure(order, s);
  }

  /** A run returns only when the `finally` block raised nothing and the `try` block
      completed normally with that value. */
  lemma ReturnedMeansNormal(ds: Nullable<string>, name: Nullable<string>,
                            u: Nullable<string>, p: Nullable<string>, s: Script, x: Nullable<Attributes>)
    requires Validate(ds, name, u, p, s).outcome == Returned(x)
    ensures var body := TryBlock(ds, name, u, p, s);
      Closing(CloseOrder(body.acquired), s).failure == Null && body.completion == Normal(x)
  {
  }

  /** Closing all three resources raises nothing only when every close completes. */
  lemma ClosingAllMeansSuccess(s: Script)
    requires Closing([ResultSet, Statement, Connection], s).failure == Null
    ensures AllClosesSucceed(s)
  {
    var order := [ResultSet, Statement, Connection];
    assert order[1..] == [Statement, Connection] && order[1..][1..] == [Connection];
    assert order[1..][1..][1..] == [];
    assert Closing([Connection], s).failure == Null;
  }

  /** A returned map means the credentials were not blank, the row held 1, every close
      completed, and the map is "username" to the username. */
  lemma ReturnedMapMeans(ds: Nullable<string>, name: Nullable<string>,
                         u: Nullable<string>, p: Nullable<string>, s: Script, m: Attributes)
    requires Validate(ds, name, u, p, s).outcome == Returned(NonNull(m))
    ensures IsNotBlank(u) && IsNotBlank(p) && RowPresent(s) && s.getInt == Returns(1)
    ensures AllClosesSucceed(s) && m == map["username" := u.value]
  {
    ReturnedMeansNormal(ds, name, u, p, s, NonNull(m));
    TryBlockCompletion(ds, name, u, p, s);
    TryBlockAcquires(ds, name, u, p, s);
    assert CloseOrder(TryBlock(ds, name, u, p, s).acquired) == [ResultSet, Statement, Connection];
    ClosingAllMeansSuccess(s);
  }

  /** The method returns a non-empty map exactly when the credentials are not blank, the
      row holds 1 and every close completes; the map is then "username" to the username. */
  lemma SuccessIff(ds: Nullable<string>, name: Nullable<string>,
                   u: Nullable<string>, p: Nullable<string>, s: Script, m: Attributes)
    ensures Validate(ds, name, u, p, s).outcome == Returned(NonNull(m)) <==>
      && IsNotBlank(u) && IsNotBlank(p) && RowPresent(s) && s.getInt == Returns(1)
      && AllClosesSucceed(s) && m == map["username" := u.value]
  {
    if Validate(ds, name, u, p, s).outcome == Returned(NonNull(m)) {
      ReturnedMapMeans(ds, name, u, p, s, m);
    }
    if IsNotBlank(u) && IsNotBlank(p) && RowPresent(s) && s.getInt == Returns(1) && AllClosesSucceed(s) {
      AuthenticatedWhenOne(ds, name, u, p, s);
    }
  }
}
