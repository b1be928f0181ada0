# SQL stored-procedure password credential validator

A Dafny model of PingFederate's SQL stored-procedure password credential validator.
It covers two classes:

- **`SQLSPPasswordCredentialValidator`** checks a username and password. It calls a
  configured stored procedure through JDBC and reads the procedure's answer from column 1
  of the first row. It turns every Exception from the try block, and every SQLException from a close,
  into the SDK's exceptions. It then closes the result set, the statement and the
  connection it opened, in that order, and stops at the first close that throws.
- **`SQLSPPasswordCredentialValidatorConfiguration`** holds the two administrator-supplied
  fields. These are the JDBC data source and the procedure name. It also describes them,
  and the attribute contract `{"username"}`, in the plugin descriptor.

The model is made of these modules:

- `JavaLang` (java_lang.dfy) holds Java `null` as `Nullable`, and the exception classes
  the validator throws and catches. It also holds the `+` string conversion and
  `StringUtils.isNotBlank`.
- `Jdbc` (jdbc.dfy) is the database collaborator, the class `Database`.
  - Each JDBC call (`getConnection` on the data-source accessor, `prepareCall`,
    `setString`, `executeQuery`, `next`, `getInt`, `close`) either returns or throws.
  - A `Script` fixes which.
  - A ghost `trace` records every call and whether it threw.
- `Configuration` (configuration.dfy) is the configuration holder. It is a class whose
  `Configure` method reassigns its fields. It also holds the field-name constants and the
  descriptor.
- `Semantics` (semantics.dfy) is the reference meaning of `processPasswordCredential`, as
  pure functions. It has the `try` block (`TryBlock`), the two `catch` clauses (`Catch`)
  and the `finally` block's inner `try` (`Closing` over `CloseOrder`). `Complete`
  combines their completions with Java's rule that an exception from `finally` replaces
  whatever was pending. `Validate` is the whole call.
- `Validator` (validator.dfy) is the class `SqlSpPasswordCredentialValidator`.
  - `ProcessPasswordCredential` is an imperative method that calls the collaborator step
    by step. The locals for the result set, statement and connection are assigned in
    `TryBlock` and `Execute` as their calls complete, and `ProcessPasswordCredential`
    receives them as results and hands them to `Finally`.
  - Its `try` block, the row handling and the `finally` block are the methods
    `TryBlock`, `Execute`, `ReadRow` and `Finally`. An early `return` of an `Abrupt`
    completion stands for a `throw`.
  - Each method is proved to produce the completion and the calls of its part of
    `Semantics.Validate`; `ProcessPasswordCredential` is proved to produce the outcome and
    the whole collaborator trace that `Semantics.Validate` gives.
- `Properties` (properties.dfy) holds the guarantees, as lemmas over `Validate` for every
  configuration, every pair of credentials and every script.

The code decides some behaviour that a reader might expect otherwise. The model follows
the code:

- **The closes are not best-effort.** All three closes sit in one inner `try`, so the
  first close that throws skips the closes after it.
- **A missing row leads to the "other error" exception.** The exception thrown for a missing
  row is itself caught by the generic `catch (Exception ex)`. The caller therefore sees the
  "other error validating username/password" exception, with the "error validating" one as
  its cause.
- **`configure` applies no default.** It copies the two fields as they are, and a missing
  field becomes `null`. The default `sp_verifypassword` exists only on the descriptor's
  field, and `configure` does not fail when a field is missing.
- **A close that throws always replaces the pending outcome.** An SQLException from a close is wrapped as
  the "other SQL error" exception. Any other exception from a close escapes the inner
  `catch` unchanged. Either one replaces the returned map or the exception in flight.
- **`java.lang.Error` passes through.** An Error from the `try` block is caught by neither
  clause.

## Model

| member | source | states |
|---|---|---|
| JavaLang.AllWhitespace | src/com/pingidentity/passwordcredentialvalidator/sqlstoredprocedure/SQLSPPasswordCredentialValidator.java:68 | true exactly when every character is Java whitespace, the blank test behind `isNotBlank` |
| JavaLang.IsNotBlankMeans | src/com/pingidentity/passwordcredentialvalidator/sqlstoredprocedure/SQLSPPasswordCredentialValidator.java:68 | a credential passes the guard exactly when it is non-null and has a non-whitespace character |
| Jdbc.Database.GetConnection | src/com/pingidentity/passwordcredentialvalidator/sqlstoredprocedure/SQLSPPasswordCredentialValidator.java:69-70 | the data-source accessor answers as scripted, and the call on the configured data source is appended to the trace |
| Jdbc.Database.PrepareCall | src/com/pingidentity/passwordcredentialvalidator/sqlstoredprocedure/SQLSPPasswordCredentialValidator.java:75 | prepareCall answers as scripted, and the call with its statement text is appended to the trace |
| Jdbc.Database.SetString | src/com/pingidentity/passwordcredentialvalidator/sqlstoredprocedure/SQLSPPasswordCredentialValidator.java:76-77 | the binding of parameter 1 or 2 answers as scripted, and the call with its index and value is appended to the trace |
| Jdbc.Database.ExecuteQuery | src/com/pingidentity/passwordcredentialvalidator/sqlstoredprocedure/SQLSPPasswordCredentialValidator.java:78 | executeQuery answers as scripted, and the call is appended to the trace |
| Jdbc.Database.Next | src/com/pingidentity/passwordcredentialvalidator/sqlstoredprocedure/SQLSPPasswordCredentialValidator.java:80 | next answers whether there is a row, as scripted, and the call is appended to the trace |
| Jdbc.Database.GetInt | src/com/pingidentity/passwordcredentialvalidator/sqlstoredprocedure/SQLSPPasswordCredentialValidator.java:82-83 | getInt answers as scripted, the same on both reads of the row, and the call is appended to the trace |
| Jdbc.Database.Close | src/com/pingidentity/passwordcredentialvalidator/sqlstoredprocedure/SQLSPPasswordCredentialValidator.java:104-114 | closing a resource answers as scripted, and the close of that resource is appended to the trace |
| Configuration.GetFieldValue | src/com/pingidentity/passwordcredentialvalidator/sqlstoredprocedure/SQLSPPasswordCredentialValidatorConfiguration.java:45-46 | definition: the host's `getFieldValue`, the configuration's value for that name when present, and null otherwise |
| Configuration.ValidatorConfiguration.constructor | src/com/pingidentity/passwordcredentialvalidator/sqlstoredprocedure/SQLSPPasswordCredentialValidatorConfiguration.java:20-29 | a new holder has all four fields null |
| Configuration.ValidatorConfiguration.Configure | src/com/pingidentity/passwordcredentialvalidator/sqlstoredprocedure/SQLSPPasswordCredentialValidatorConfiguration.java:44-47 | configure sets the data source from "JDBC Datasource" and the procedure name from "Verify Password Stored Procedure Name", with null for a missing field and no default; it leaves the configuration and successResponse fields unchanged |
| Configuration.ValidatorConfiguration.GetPluginDescriptor | src/com/pingidentity/passwordcredentialvalidator/sqlstoredprocedure/SQLSPPasswordCredentialValidatorConfiguration.java:56-79 | the descriptor has the plugin type, then the JDBC data-source field and the procedure-name text field, both required; only the second has the default sp_verifypassword; the attribute contract is {"username"} and extended contracts are unsupported |
| Configuration.Reconfigure | src/com/pingidentity/passwordcredentialvalidator/sqlstoredprocedure/SQLSPPasswordCredentialValidatorConfiguration.java:44-47 | after a second configure, both fields hold the second configuration's values whatever the first held, and successResponse is still null |
| JavaLang.IsWhitespace | src/com/pingidentity/passwordcredentialvalidator/sqlstoredprocedure/SQLSPPasswordCredentialValidator.java:68 | definition: `Character.isWhitespace`, the separators other than the non-breaking spaces plus U+0009..U+000D and U+001C..U+001F |
| JavaLang.IsNotBlank | src/com/pingidentity/passwordcredentialvalidator/sqlstoredprocedure/SQLSPPasswordCredentialValidator.java:68 | definition: `StringUtils.isNotBlank`, not null and not all whitespace |
| JavaLang.JavaString | src/com/pingidentity/passwordcredentialvalidator/sqlstoredprocedure/SQLSPPasswordCredentialValidator.java:72 | definition: the `+` string conversion, where null prints as "null" |
| Semantics.CallString | src/com/pingidentity/passwordcredentialvalidator/sqlstoredprocedure/SQLSPPasswordCredentialValidator.java:72 | definition: "{call " + procedure name + "(?,?)}" |
| Jdbc.Acquires | src/com/pingidentity/passwordcredentialvalidator/sqlstoredprocedure/SQLSPPasswordCredentialValidator.java:70-78 | definition: getConnection produces the connection, prepareCall the statement and executeQuery the result set; no other call produces a resource |
| Semantics.Sequence | src/com/pingidentity/passwordcredentialvalidator/sqlstoredprocedure/SQLSPPasswordCredentialValidator.java:69-93 | definition: statements run in order, the first that throws ends the block, and a resource is acquired only when the call producing it completes |
| Semantics.Open | src/com/pingidentity/passwordcredentialvalidator/sqlstoredprocedure/SQLSPPasswordCredentialValidator.java:69-75 | definition: getConnection on the configured data source, then prepareCall with the call string |
| Semantics.Execute | src/com/pingidentity/passwordcredentialvalidator/sqlstoredprocedure/SQLSPPasswordCredentialValidator.java:76-80 | definition: the username bound to parameter 1, the password to parameter 2, then executeQuery and next |
| Semantics.Reads | src/com/pingidentity/passwordcredentialvalidator/sqlstoredprocedure/SQLSPPasswordCredentialValidator.java:82-83 | definition: the two reads of column 1 of the row, for the debug message and for the decision |
| Semantics.Conclude | src/com/pingidentity/passwordcredentialvalidator/sqlstoredprocedure/SQLSPPasswordCredentialValidator.java:96-119 | definition: the catch clauses, then the finally block's closes, applied to what the try block did |
| Semantics.TryBlock | src/com/pingidentity/passwordcredentialvalidator/sqlstoredprocedure/SQLSPPasswordCredentialValidator.java:67-95 | definition: the guard, then getConnection and prepareCall, then the bindings, the query, next and the row handling, ending at the first call that throws |
| Semantics.ReadRow | src/com/pingidentity/passwordcredentialvalidator/sqlstoredprocedure/SQLSPPasswordCredentialValidator.java:80-93 | definition: no row throws the "error validating" exception; otherwise column 1 is read twice and decided |
| Semantics.Decision | src/com/pingidentity/passwordcredentialvalidator/sqlstoredprocedure/SQLSPPasswordCredentialValidator.java:83-89 | definition: 1 gives the map "username" to the username, anything else null |
| Semantics.Catch | src/com/pingidentity/passwordcredentialvalidator/sqlstoredprocedure/SQLSPPasswordCredentialValidator.java:96-101 | definition: an authentication exception is re-thrown with its key and not recoverable, an Error passes, any other exception is wrapped as the "other error" cause |
| Semantics.Closing | src/com/pingidentity/passwordcredentialvalidator/sqlstoredprocedure/SQLSPPasswordCredentialValidator.java:103-114 | definition: the closes in order inside one inner try, the first that throws ending it |
| Semantics.Complete | src/com/pingidentity/passwordcredentialvalidator/sqlstoredprocedure/SQLSPPasswordCredentialValidator.java:102-119 | definition: an exception from the finally block replaces the pending completion, an SQLException wrapped as the "other SQL error" exception |
| Semantics.Validate | src/com/pingidentity/passwordcredentialvalidator/sqlstoredprocedure/SQLSPPasswordCredentialValidator.java:55-123 | definition: the whole call, the try block followed by the catch clauses and the finally block |
| Semantics.CloseOrder | src/com/pingidentity/passwordcredentialvalidator/sqlstoredprocedure/SQLSPPasswordCredentialValidator.java:104-114 | the resources to close are exactly the acquired ones, in the order result set, statement, connection |
| Validator.LocalsInCloseOrder | src/com/pingidentity/passwordcredentialvalidator/sqlstoredprocedure/SQLSPPasswordCredentialValidator.java:60-63 | the non-null resource locals, taken in the order the finally block tests them, are the acquired resources in close order |
| Validator.SqlSpPasswordCredentialValidator.constructor | src/com/pingidentity/passwordcredentialvalidator/sqlstoredprocedure/SQLSPPasswordCredentialValidator.java:38 | a new validator owns a fresh configuration holder with both fields null |
| Validator.SqlSpPasswordCredentialValidator.Configure | src/com/pingidentity/passwordcredentialvalidator/sqlstoredprocedure/SQLSPPasswordCredentialValidator.java:137-139 | configure passes the configuration to the holder, which then holds the two fields' values |
| Validator.SqlSpPasswordCredentialValidator.GetPluginDescriptor | src/com/pingidentity/passwordcredentialvalidator/sqlstoredprocedure/SQLSPPasswordCredentialValidator.java:129-131 | the validator's descriptor is the holder's descriptor: two required fields, the default procedure name and the attribute contract {"username"} |
| Validator.SqlSpPasswordCredentialValidator.ConfigureThenProcess | src/com/pingidentity/passwordcredentialvalidator/sqlstoredprocedure/SQLSPPasswordCredentialValidator.java:137-139 | a validator configured with a configuration validates with exactly the data source and procedure name read from it |
| Validator.SqlSpPasswordCredentialValidator.ProcessPasswordCredential | src/com/pingidentity/passwordcredentialvalidator/sqlstoredprocedure/SQLSPPasswordCredentialValidator.java:55-123 | the outcome, and every call made on the database in order, are those of Validate under the current configuration |
| Validator.SqlSpPasswordCredentialValidator.TryBlock | src/com/pingidentity/passwordcredentialvalidator/sqlstoredprocedure/SQLSPPasswordCredentialValidator.java:67-95 | the try block ends as Semantics.TryBlock says, makes the calls it lists, and leaves each resource local non-null exactly when that resource was acquired |
| Validator.SqlSpPasswordCredentialValidator.Execute | src/com/pingidentity/passwordcredentialvalidator/sqlstoredprocedure/SQLSPPasswordCredentialValidator.java:76-93 | the bindings, the query, the advance to the first row and the row handling end as the reference says and make its calls; the result-set local is non-null exactly when the query completed |
| Validator.SqlSpPasswordCredentialValidator.ReadRow | src/com/pingidentity/passwordcredentialvalidator/sqlstoredprocedure/SQLSPPasswordCredentialValidator.java:80-89 | with a row present, column 1 is read twice, and 1 yields the map "username" to the username while anything else yields null |
| Validator.SqlSpPasswordCredentialValidator.Finally | src/com/pingidentity/passwordcredentialvalidator/sqlstoredprocedure/SQLSPPasswordCredentialValidator.java:102-118 | the non-null locals are closed in order, the first close that throws ends the block with its exception, and the closes after it are not made |
| Properties.OpenUnrolled | src/com/pingidentity/passwordcredentialvalidator/sqlstoredprocedure/SQLSPPasswordCredentialValidator.java:69-75 | getting the connection, then preparing the call: the first to throw ends the block, holding the connection only when getConnection completed |
| Properties.ExecuteUnrolled | src/com/pingidentity/passwordcredentialvalidator/sqlstoredprocedure/SQLSPPasswordCredentialValidator.java:76-80 | the two bindings, the query and next: the first to throw ends the block, holding the result set once the query has completed |
| Properties.ReadRowUnrolled | src/com/pingidentity/passwordcredentialvalidator/sqlstoredprocedure/SQLSPPasswordCredentialValidator.java:80-93 | no row throws the "error validating" exception; a failing read throws; otherwise the row yields Decision after two reads |
| Properties.TryBlockConsistent | src/com/pingidentity/passwordcredentialvalidator/sqlstoredprocedure/SQLSPPasswordCredentialValidator.java:67-95 | the try block closes nothing, and what it holds is exactly what its completed calls handed out |
| Properties.TryBlockCompletion | src/com/pingidentity/passwordcredentialvalidator/sqlstoredprocedure/SQLSPPasswordCredentialValidator.java:67-95 | the try block completes with null for blank credentials, else with the first exception of its calls, else by the no-row exception, else with the map exactly when column 1 holds 1 |
| Properties.TryBlockAcquires | src/com/pingidentity/passwordcredentialvalidator/sqlstoredprocedure/SQLSPPasswordCredentialValidator.java:60-78 | the connection, the statement and the result set are held exactly when their producing call and every call before it completed |
| Properties.BlankCredentialsTouchNothing | src/com/pingidentity/passwordcredentialvalidator/sqlstoredprocedure/SQLSPPasswordCredentialValidator.java:68 | with a blank username or password, nothing is called on the database, nothing is closed, and null is returned |
| Properties.TryBlockStarts | src/com/pingidentity/passwordcredentialvalidator/sqlstoredprocedure/SQLSPPasswordCredentialValidator.java:70-77 | the try block's first calls are getConnection on the data source, prepareCall with the call string, then the two bindings |
| Properties.CallAndBindings | src/com/pingidentity/passwordcredentialvalidator/sqlstoredprocedure/SQLSPPasswordCredentialValidator.java:70-77 | a run first gets the connection from the configured data source, then prepares "{call " + procedure name + "(?,?)}", then binds the username to parameter 1 and the password to parameter 2 |
| Properties.CallStringNamesProcedure | src/com/pingidentity/passwordcredentialvalidator/sqlstoredprocedure/SQLSPPasswordCredentialValidator.java:72 | the call string is "{call ", the procedure name, then "(?,?)}", so the name can be read back from it; an unset name prints as null |
| Properties.ClosingStopsAtFirstFailure | src/com/pingidentity/passwordcredentialvalidator/sqlstoredprocedure/SQLSPPasswordCredentialValidator.java:103-118 | the finally block closes a prefix of the close order, one close per resource; only the last close can throw; it raises nothing exactly when it closed everything without a throw |
| Properties.RunParts | src/com/pingidentity/passwordcredentialvalidator/sqlstoredprocedure/SQLSPPasswordCredentialValidator.java:67-119 | a run is the try block's calls followed by the closes; the try block closes nothing, and what the run acquires is exactly what it sets out to close |
| Properties.ConcludeParts | src/com/pingidentity/passwordcredentialvalidator/sqlstoredprocedure/SQLSPPasswordCredentialValidator.java:102-119 | the same split for any try block that closes nothing and holds what it acquired |
| Properties.ConcludeAcquires | src/com/pingidentity/passwordcredentialvalidator/sqlstoredprocedure/SQLSPPasswordCredentialValidator.java:102-114 | a run acquires a resource exactly when the finally block sets out to close it |
| Properties.ConcludeCloses | src/com/pingidentity/passwordcredentialvalidator/sqlstoredprocedure/SQLSPPasswordCredentialValidator.java:102-114 | a run closes a resource once when the finally block reaches it, and never otherwise |
| Properties.ClosingSucceeds | src/com/pingidentity/passwordcredentialvalidator/sqlstoredprocedure/SQLSPPasswordCredentialValidator.java:103-114 | when every close completes, the finally block raises nothing |
| Properties.ConcludeQuietly | src/com/pingidentity/passwordcredentialvalidator/sqlstoredprocedure/SQLSPPasswordCredentialValidator.java:96-122 | when no close that is made throws, the caller sees what the catch clauses make of the try block's completion |
| Properties.AuthenticatedWhenOne | src/com/pingidentity/passwordcredentialvalidator/sqlstoredprocedure/SQLSPPasswordCredentialValidator.java:80-86 | with a row holding 1 and every close completing, the result is the map "username" to the username, whose one key is the attribute contract |
| Properties.NotAuthenticatedOtherwise | src/com/pingidentity/passwordcredentialvalidator/sqlstoredprocedure/SQLSPPasswordCredentialValidator.java:87-89 | with a row holding anything but 1 and every close completing, the result is null and nothing is raised |
| Properties.NoRowIsError | src/com/pingidentity/passwordcredentialvalidator/sqlstoredprocedure/SQLSPPasswordCredentialValidator.java:90-101 | with no row, the caller sees the "other error" exception whose cause is the "error validating" exception |
| Properties.StepExceptionRemapped | src/com/pingidentity/passwordcredentialvalidator/sqlstoredprocedure/SQLSPPasswordCredentialValidator.java:96-101 | when no close that is made throws, an authentication exception from the try block comes back with its message key and not recoverable; an Error passes unchanged; anything else becomes the cause of the "other error" exception |
| Properties.ConnectionFailureClosesNothing | src/com/pingidentity/passwordcredentialvalidator/sqlstoredprocedure/SQLSPPasswordCredentialValidator.java:69-70 | when getConnection throws, it is the only call, nothing is closed whatever the closes would answer, and the caller sees the remapped exception |
| Properties.ResourceDiscipline | src/com/pingidentity/passwordcredentialvalidator/sqlstoredprocedure/SQLSPPasswordCredentialValidator.java:102-114 | every resource is closed at most once, and only if it was acquired; an acquired resource left unclosed means the last call was a close that threw; with every close completing, acquired and closed once are the same |
| Properties.ConcludeDiscipline | src/com/pingidentity/passwordcredentialvalidator/sqlstoredprocedure/SQLSPPasswordCredentialValidator.java:102-114 | the same discipline for any try block that closes nothing and holds what it acquired |
| Properties.ClosesInOrder | src/com/pingidentity/passwordcredentialvalidator/sqlstoredprocedure/SQLSPPasswordCredentialValidator.java:104-114 | the closes come after every other call, in the order result set, statement, connection |
| Properties.CloseFailureOverrides | src/com/pingidentity/passwordcredentialvalidator/sqlstoredprocedure/SQLSPPasswordCredentialValidator.java:115-118 | a close that throws is the last call; its exception replaces the pending result or exception, an SQLException as the cause of the "other SQL error" exception and anything else unchanged |
| Properties.ReturnedMeansNormal | src/com/pingidentity/passwordcredentialvalidator/sqlstoredprocedure/SQLSPPasswordCredentialValidator.java:102-122 | the method returns only when the try block completed normally with that value and no close threw |
| Properties.ClosingAllMeansSuccess | src/com/pingidentity/passwordcredentialvalidator/sqlstoredprocedure/SQLSPPasswordCredentialValidator.java:103-118 | closing all three resources raises nothing only when every close completes |
| Properties.ReturnedMapMeans | src/com/pingidentity/passwordcredentialvalidator/sqlstoredprocedure/SQLSPPasswordCredentialValidator.java:67-122 | a returned map means non-blank credentials, a row holding 1 and every close completing, and the map is "username" to the username |
| Properties.SuccessIff | src/com/pingidentity/passwordcredentialvalidator/sqlstoredprocedure/SQLSPPasswordCredentialValidator.java:55-123 | the method returns a map exactly when the credentials are not blank, every call completes, the row holds 1 and every close completes; the map is then "username" to the username |

## Left out

- The real JDBC driver, the `DataSourceAccessor` connection pool and the stored procedure's computation are replaced by the `Script` of answers.
- The script answers every call of one kind the same way, so both calls to `getInt(1)` on the row get the same answer.
- A JDBC call that returns null (a null connection, statement or result set) is not modelled as such. The closest script is the producing call itself throwing `OtherException`. That gives the same outcome and the same closes, because a null local is never closed; only the trace then marks that call as having thrown.
- Logging (`logger.debug`) is left out because it does not affect the outcome. The first `getInt(1)` inside the debug message is still modelled, because it is evaluated and can throw.
- `buildName` is left out because it reads the JAR manifest through reflection. The descriptions of the fields and of the GUI are left out too, because they are only display.
- Configuration.ValidatorConfiguration.GetPluginDescriptor: states the plugin type, the fields, the validators, the default and the attribute contract. It does not state the field descriptions, the GUI description text, or that the descriptor refers to the validator instance.
- Validator.SqlSpPasswordCredentialValidator.GetPluginDescriptor: states the descriptor's fields, validators, default and contract rather than object identity with the holder's result.
- A configuration field present with a null value cannot occur in `map<string, string>`. Only an absent field yields null.
- Concurrency is left out, because the host serialises configuration and runs validations.
- The integer column value is unbounded in the model. The 32-bit width of `getInt` is left out because the code only compares the value with 1.
- `Character.isWhitespace` follows the current Unicode tables. U+180E, whitespace under older Java versions, counts as not whitespace here.
- Strings are sequences of Unicode scalar values, while Java tests `Character.isWhitespace` on UTF-16 code units. A Java string holding an unpaired surrogate cannot be represented. On every well-formed string the two agree, because no supplementary character is whitespace.
