/** SQLSPPasswordCredentialValidator: validates a username and password by calling a
    stored procedure, then closes what it acquired. Java's try/catch/finally becomes
    a method for the `try` block, which returns early where Java throws, a pure
    function for the `catch` clauses, and a method for the `finally` block. */
module Validator {
  import opened JavaLang
  import opened Jdbc
  import opened Configuration
  import opened Semantics

  /** A resource local: null until the call that produces it completes. */
  function Held(r: Resource, acquired: set<Resource>): Nullable<Resource>
  {
    if r in acquired then NonNull(r) else Null
  }

  /** The non-null resource locals, as the list of resources to close. */
  function Present(local: Nullable<Resource>): seq<Resource>
  {
    match local
    case Null => []
    case NonNull(r) => [r]
  }

  /** Closing the non-null locals is closing the acquired resources in CloseOrder. */
  lemma LocalsInCloseOrder(acquired: set<Resource>)
    ensures Present(Held(ResultSet, acquired)) + Present(Held(Statement, acquired))
            + Present(Held(Connection, acquired)) == CloseOrder(acquired)
  {
  }

  /** If the closes `done` have been made and `rest` is still to close, closing `rest[0]`
      either ends the block with its exception or leaves `rest[1..]` to close. */
  lemma CloseNext(order: seq<Resource>, s: Script, log: seq<Event>, trace: seq<Event>,
                  done: seq<Event>, rest: seq<Resource>)
    returns (done': seq<Event>)
    requires rest != []
    requires Closing(order, s) == Closed(Closing(rest, s).failure, done + Closing(rest, s).events)
    requires trace == log + done + [Event(Close(rest[0]), CloseAnswer(s, rest[0]).Throws?)]
    ensures done' == done + [Event(Close(rest[0]), CloseAnswer(s, rest[0]).Throws?)]
    ensures trace == log + done'
    ensures CloseAnswer(s, rest[0]).Throws? ==>
              Closing(order, s) == Closed(NonNull(CloseAnswer(s, rest[0]).exception), done')
    ensures CloseAnswer(s, rest[0]).Returns? ==>
              Closing(order, s) == Closed(Closing(rest[1..], s).failure, done' + Closing(rest[1..], s).events)
  {
    var e := Event(Close(rest[0]), CloseAnswer(s, rest[0]).Throws?);
    done' := done + [e];
    Regroup(log, done, [e]);
    Regroup(done, [e], Closing(rest[1..], s).events);
  }

  /** Concatenation of traces is associative. */
  lemma Regroup(a: seq<Event>, b: seq<Event>, c: seq<Event>)
    ensures a + b + c == a + (b + c)
  {
  }

  /** The calls `done`, which acquired `acq`, followed by the block `rest`. */
  ghost function After(done: seq<Event>, acq: set<Resource>, rest: Body): Body
  {
    Body(rest.completion, acq + rest.acquired, done + rest.events)
  }

  /** If `body` is the calls `done`, which acquired `acq`, followed by `calls` and then
      `tail`, and the first of `calls` has just been made, then `body` is `done` extended
      by that call, followed by the other calls, or it ends with the call if it threw. */
  lemma Advance(body: Body, log: seq<Event>, trace: seq<Event>, done: seq<Event>, acq: set<Resource>,
                c: Call, thrown: Nullable<Throwable>, calls: seq<Attempt>, tail: Body)
    returns (done': seq<Event>, acq': set<Resource>)
    requires calls != [] && calls[0] == Attempt(c, thrown)
    requires body == After(done, acq, Sequence(calls, tail))
    requires trace == log + done + [Event(c, thrown.NonNull?)]
    ensures done' == done + [Event(c, thrown.NonNull?)]
    ensures acq' == acq + HandedOut(Event(c, thrown.NonNull?))
    ensures trace == log + done'
    ensures thrown.NonNull? ==> body == Body(Abrupt(thrown.value), acq, done')
    ensures thrown.Null? ==> body == After(done', acq', Sequence(calls[1..], tail))
  {
    var e := Event(c, thrown.NonNull?);
    done', acq' := done + [e], acq + HandedOut(e);
    assert log + done + [e] == log + done';
    if thrown.Null? {
      assert done + ([e] + Sequence(calls[1..], tail).events) == done' + Sequence(calls[1..], tail).events;
    }
  }

  class SqlSpPasswordCredentialValidator {
    const config: ValidatorConfiguration

    constructor ()
      ensures fresh(config)
      ensures config.databaseDatasource == Null && config.storedProcedureName == Null
    {
      config := new ValidatorConfiguration();
    }

    /** configure: hands the host's configuration to the configuration holder. */
    method Configure(configuration: FieldValues)
      modifies config
      ensures config.databaseDatasource == GetFieldValue(configuration, JdbcDatasource)
      ensures config.storedProcedureName == GetFieldValue(configuration, VerifyPasswordStoredProcedure)
      ensures config.configuration == old(config.configuration)
      ensures config.successResponse == old(config.successResponse)
    {
      config.Configure(configuration);
    }

    /** getPluginDescriptor: the configuration holder's descriptor, with its two required
        fields and the attribute contract {"username"}. */
    method GetPluginDescriptor() returns (d: PluginDescriptor)
      ensures d.pluginType == PluginType
      ensures |d.fields| == 2
      ensures d.fields[0].name == JdbcDatasource && d.fields[1].name == VerifyPasswordStoredProcedure
      ensures forall f :: f in d.fields ==> RequiredFieldValidator in f.validators
      ensures d.fields[1].defaultValue == NonNull(DefaultStoredProcedureName)
      ensures d.attributeContract == AttributeContract && !d.supportsExtendedContract
    {
      d := config.GetPluginDescriptor();
    }

    /** A validator configured with `configuration` and then asked to validate behaves as
        `Validate` with the two fields read from that configuration. */
    method ConfigureThenProcess(configuration: FieldValues, username: Nullable<string>,
                                password: Nullable<string>, db: Database)
      returns (outcome: Outcome)
      modifies config, db
      ensures var run := Validate(GetFieldValue(configuration, JdbcDatasource),
                                  GetFieldValue(configuration, VerifyPasswordStoredProcedure),
                                  username, password, db.script);
              outcome == run.outcome && db.trace == old(db.trace) + run.events
    {
      Configure(configuration);
      outcome := ProcessPasswordCredential(username, password, db);
    }

    /** processPasswordCredential: the result, and every call on the collaborator, are
        those of `Validate` under the current configuration. */
    method ProcessPasswordCredential(username: Nullable<string>, password: Nullable<string>,
                                     db: Database)
      returns (outcome: Outcome)
      modifies db
      ensures var run := Validate(config.databaseDatasource, config.storedProcedureName,
                                  username, password, db.script);
              outcome == run.outcome && db.trace == old(db.trace) + run.events
    {
      var dataSource, procedureName := config.databaseDatasource, config.storedProcedureName;
      ghost var body := Semantics.TryBlock(dataSource, procedureName, username, password, db.script);
      ghost var closed := Closing(CloseOrder(body.acquired), db.script);
      ghost var afterBody := old(db.trace) + body.events;
      var completion, results, stmt, conn := TryBlock(dataSource, procedureName, username, password, db);
      assert db.trace == afterBody;
      completion := Catch(completion);
      LocalsInCloseOrder(body.acquired);
      var closeFailure := Finally(results, stmt, conn, db);
      assert closeFailure == closed.failure && db.trace == afterBody + closed.events;
      Regroup(old(db.trace), body.events, closed.events);
      outcome := Complete(completion, closeFailure);
    }

    /** The `try` block; a `return` with an Abrupt completion stands for a `throw`. The
        resource locals are returned so that the `finally` block can close them. */
    method TryBlock(dataSource: Nullable<string>, procedureName: Nullable<string>,
                    username: Nullable<string>, password: Nullable<string>, db: Database)
      returns (completion: Completion, results: Nullable<Resource>,
               stmt: Nullable<Resource>, conn: Nullable<Resource>)
      modifies db
      ensures var body := Semantics.TryBlock(dataSource, procedureName, username, password, db.script);
              && completion == body.completion
              && db.trace == old(db.trace) + body.events
              && results == Held(ResultSet, body.acquired)
              && stmt == Held(Statement, body.acquired)
              && conn == Held(Connection, body.acquired)
    {
      results, stmt, conn := Null, Null, Null;
      completion := Normal(Null);
      if IsNotBlank(username) && IsNotBlank(password) {
        // the whole block is always the calls made so far, then the calls still to come
        ghost var body := Semantics.TryBlock(dataSource, procedureName, username, password, db.script);
        ghost var calls := Open(dataSource, procedureName, db.script);
        ghost var tail := Sequence(Semantics.Execute(username.value, password.value, db.script),
                                   Semantics.ReadRow(username.value, db.script));
        ghost var done: seq<Event>, acq: set<Resource> := [], {};
        assert body == After(done, acq, Sequence(calls, tail));
        assert old(db.trace) == old(db.trace) + done;

        var connected := db.GetConnection(dataSource);
        done, acq := Advance(body, old(db.trace), db.trace, done, acq,
                             GetConnection(dataSource), Thrown(connected), calls, tail);
        if connected.Throws? {
          return Abrupt(connected.exception), results, stmt, conn;
        }
        conn := NonNull(Connection);
        calls := calls[1..];

        var spCall := CallString(procedureName);
        var prepared := db.PrepareCall(spCall);
        done, acq := Advance(body, old(db.trace), db.trace, done, acq,
                             PrepareCall(spCall), Thrown(prepared), calls, tail);
        if prepared.Throws? {
          return Abrupt(prepared.exception), results, stmt, conn;
        }
        stmt := NonNull(Statement);
        assert calls[1..] == [];

        completion, results := Execute(username.value, password.value, db);
        Regroup(old(db.trace), done, tail.events);
      }
    }

    /** The calls of the `try` block on the statement and on its result set. */
    method Execute(username: string, password: string, db: Database)
      returns (completion: Completion, results: Nullable<Resource>)
      modifies db
      ensures var body := Sequence(Semantics.Execute(username, password, db.script),
                                   Semantics.ReadRow(username, db.script));
              && completion == body.completion
              && db.trace == old(db.trace) + body.events
              && results == Held(ResultSet, body.acquired)
    {
      results := Null;
      ghost var calls := Semantics.Execute(username, password, db.script);
      ghost var tail := Semantics.ReadRow(username, db.script);
      ghost var body := Sequence(calls, tail);
      ghost var done: seq<Event>, acq: set<Resource> := [], {};
      assert body == After(done, acq, Sequence(calls, tail));
      assert old(db.trace) == old(db.trace) + done;

      var bound := db.SetString(1, username);
      done, acq := Advance(body, old(db.trace), db.trace, done, acq,
                           SetString(1, username), Thrown(bound), calls, tail);
      if bound.Throws? {
        return Abrupt(bound.exception), results;
      }
      calls := calls[1..];
      bound := db.SetString(2, password);
      done, acq := Advance(body, old(db.trace), db.trace, done, acq,
                           SetString(2, password), Thrown(bound), calls, tail);
      if bound.Throws? {
        return Abrupt(bound.exception), results;
      }
      calls := calls[1..];
      assert acq == {};

      var executed := db.ExecuteQuery();
      done, acq := Advance(body, old(db.trace), db.trace, done, acq,
                           ExecuteQuery, Thrown(executed), calls, tail);
      if executed.Throws? {
        return Abrupt(executed.exception), results;
      }
      results := NonNull(ResultSet);
      calls := calls[1..];
      assert acq == {ResultSet};

      var hasRow := db.Next();
      done, acq := Advance(body, old(db.trace), db.trace, done, acq,
                           Next, Thrown(hasRow), calls, tail);
      if hasRow.Throws? {
        return Abrupt(hasRow.exception), results;
      }
      assert calls[1..] == [];
      if hasRow.value {
        completion := ReadRow(username, db);
        Regroup(old(db.trace), done, tail.events);
      } else {
        completion := Abrupt(PasswordValidationException(NoResponseMessage, Null));
      }
    }

    /** The row handling: column 1 is read once for the debug message and again for the
        decision; 1 puts the username in the attribute map, anything else leaves it null. */
    method ReadRow(username: string, db: Database) returns (completion: Completion)
      requires db.script.next == Returns(true)
      modifies db
      ensures var body := Semantics.ReadRow(username, db.script);
              completion == body.completion && db.trace == old(db.trace) + body.events
    {
      ghost var calls := Reads(db.script);
      ghost var tail := Body(Normal(Decision(username, db.script.getInt)), {}, []);
      ghost var body := Sequence(calls, tail);
      ghost var done: seq<Event>, acq: set<Resource> := [], {};
      assert body == After(done, acq, Sequence(calls, tail));
      assert old(db.trace) == old(db.trace) + done;

      var logged := db.GetInt(1);
      done, acq := Advance(body, old(db.trace), db.trace, done, acq,
                           GetInt(1), Thrown(logged), calls, tail);
      if logged.Throws? {
        return Abrupt(logged.exception);
      }
      calls := calls[1..];
      var value := db.GetInt(1);
      done, acq := Advance(body, old(db.trace), db.trace, done, acq,
                           GetInt(1), Thrown(value), calls, tail);
      var attrs: Nullable<Attributes> := Null;
      if value.value == 1 {
        attrs := NonNull(map[UsernameAttribute := username]);
      }
      completion := Normal(attrs);
      assert calls[1..] == [];
    }

    /** The `finally` block's inner `try`: closes the non-null locals in the order result
        set, statement, connection. The first close that throws ends the block, and its
        exception is returned. */
    method Finally(results: Nullable<Resource>, stmt: Nullable<Resource>,
                   conn: Nullable<Resource>, db: Database)
      returns (failure: Nullable<Throwable>)
      modifies db
      ensures var closed := Closing(Present(results) + Present(stmt) + Present(conn), db.script);
              failure == closed.failure && db.trace == old(db.trace) + closed.events
    {
      ghost var order := Present(results) + Present(stmt) + Present(conn);
      ghost var rest, done: seq<Event> := order, [];
      assert old(db.trace) == old(db.trace) + done;
      failure := Null;
      if results.NonNull? {
        var closed := db.Close(results.value);
        done := CloseNext(order, db.script, old(db.trace), db.trace, done, rest);
        if closed.Throws? {
          return NonNull(closed.exception);
        }
        rest := rest[1..];
      }
      assert rest == Present(stmt) + Present(conn);
      if stmt.NonNull? {
        var closed := db.Close(stmt.value);
        done := CloseNext(order, db.script, old(db.trace), db.trace, done, rest);
        if closed.Throws? {
          return NonNull(closed.exception);
        }
        rest := rest[1..];
      }
      assert rest == Present(conn);
      if conn.NonNull? {
        var closed := db.Close(conn.value);
        done := CloseNext(order, db.script, old(db.trace), db.trace, done, rest);
        if closed.Throws? {
          return NonNull(closed.exception);
        }
        rest := rest[1..];
      }
      assert rest == [];
    }
  }
}
