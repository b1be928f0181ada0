/** The validator's configuration holder: the two field names the administrator fills in,
    the fields copied out of the host's configuration, and the plugin descriptor that
    declares those fields and the attribute contract to the host. */
module Configuration {
  import opened JavaLang

  /** Name of the field holding the JDBC data-source identifier. */
  const JdbcDatasource: string := "JDBC Datasource"
  /** Name of the field holding the stored procedure's name. */
  const VerifyPasswordStoredProcedure: string := "Verify Password Stored Procedure Name"
  /** The default the configuration screen offers for the stored procedure's name. */
  const DefaultStoredProcedureName: string := "sp_verifypassword"
  /** The plugin type named in the descriptor. */
  const PluginType: string := "SQL Stored Procedure Password Credential Validator"
  /** The attributes a successful validation returns. */
  const AttributeContract: set<string> := {"username"}

  /** The host's configuration: the values of the fields the administrator filled in. */
  type FieldValues = map<string, string>

  /** Configuration.getFieldValue: the field's value, or null when it has none. */
  function GetFieldValue(configuration: FieldValues, name: string): (v: Nullable<string>)
    ensures v.NonNull? <==> name in configuration
    ensures v.NonNull? ==> v.value == configuration[name]
  {
    if name in configuration then NonNull(configuration[name]) else Null
  }

  datatype FieldKind = JdbcDatastoreField | TextField
  datatype FieldValidator = RequiredFieldValidator
  datatype FieldDescriptor = FieldDescriptor(
    name: string, kind: FieldKind, validators: seq<FieldValidator>, defaultValue: Nullable<string>)
  datatype PluginDescriptor = PluginDescriptor(
    pluginType: string, fields: seq<FieldDescriptor>,
    attributeContract: set<string>, supportsExtendedContract: bool)

  class ValidatorConfiguration {
    /** Declared and initialised to null, never assigned. */
    var configuration: Nullable<FieldValues>
    var databaseDatasource: Nullable<string>
    var storedProcedureName: Nullable<string>
    /** Declared and initialised to null, never assigned. */
    var successResponse: Nullable<string>

    constructor ()
      ensures configuration == Null && databaseDatasource == Null
      ensures storedProcedureName == Null && successResponse == Null
    {
      configuration := Null;
      databaseDatasource := Null;
      storedProcedureName := Null;
      successResponse := Null;
    }

    /** Copies the two fields out of the host's configuration as they are: a missing
        field becomes null, with no default substituted. */
    method Configure(configuration: FieldValues)
      modifies this
      ensures databaseDatasource == GetFieldValue(configuration, JdbcDatasource)
      ensures storedProcedureName == GetFieldValue(configuration, VerifyPasswordStoredProcedure)
      ensures VerifyPasswordStoredProcedure !in configuration ==> storedProcedureName == Null
      ensures this.configuration == old(this.configuration)
      ensures successResponse == old(successResponse)
    {
      databaseDatasource := GetFieldValue(configuration, JdbcDatasource);
      storedProcedureName := GetFieldValue(configuration, VerifyPasswordStoredProcedure);
    }

    /** The descriptor: two required fields, a default for the procedure's name only on
        its field, the single attribute "username" and no extended contract. */
    method GetPluginDescriptor() returns (d: PluginDescriptor)
      ensures d.pluginType == PluginType
      ensures |d.fields| == 2
      ensures d.fields[0].name == JdbcDatasource && d.fields[0].kind == JdbcDatastoreField
      ensures d.fields[1].name == VerifyPasswordStoredProcedure && d.fields[1].kind == TextField
      ensures forall f :: f in d.fields ==> RequiredFieldValidator in f.validators
      ensures d.fields[0].defaultValue == Null
      ensures d.fields[1].defaultValue == NonNull(DefaultStoredProcedureName)
      ensures d.attributeContract == AttributeContract && !d.supportsExtendedContract
    {
      var required := RequiredFieldValidator;
      var fields: seq<FieldDescriptor> := [];

      var jdbcDs := FieldDescriptor(JdbcDatasource, JdbcDatastoreField, [], Null);
      jdbcDs := jdbcDs.(validators := jdbcDs.validators + [required]);
      fields := fields + [jdbcDs];

      var spName := FieldDescriptor(VerifyPasswordStoredProcedure, TextField, [], Null);
      spName := spName.(validators := spName.validators + [required]);
      spName := spName.(defaultValue := NonNull(DefaultStoredProcedureName));
      fields := fields + [spName];

      var attributes: set<string> := {};
      attributes := attributes + {"username"};
      d := PluginDescriptor(PluginType, fields, attributes, false);
    }
  }

  /** Configuring a fresh holder twice leaves exactly the second configuration's values,
      whatever the first one held, and `successResponse` still null. */
  method Reconfigure(first: FieldValues, second: FieldValues)
    returns (databaseDatasource: Nullable<string>, storedProcedureName: Nullable<string>,
             successResponse: Nullable<string>)
    ensures databaseDatasource == GetFieldValue(second, JdbcDatasource)
    ensures storedProcedureName == GetFieldValue(second, VerifyPasswordStoredProcedure)
    ensures successResponse == Null
  {
    var c := new ValidatorConfiguration();
    c.Configure(first);
    c.Configure(second);
    databaseDatasource, storedProcedureName, successResponse :=
      c.databaseDatasource, c.storedProcedureName, c.successResponse;
  }
}
