/** The configuration builder: the properties file seeds the client configuration,
    the explicit flags override it, and bootstrap.servers must end up non-empty. */
module Config {
  import opened Wrappers
  import opened Properties

  /** The client configuration: a map from setting name to value whose set never fails. */
  type ConfigMap = map<string, string>

  const BootstrapServersKey := "bootstrap.servers"
  const SecurityProtocolKey := "security.protocol"

  /** Looks k up in config, giving default when it is absent. */
  function Get(config: ConfigMap, k: string, default: string): string {
    if k in config then config[k] else default
  }

  /** The file's settings with the non-empty flags stored over them. */
  function ApplyFlags(fileProps: ConfigMap, bootstrapServers: string, securityProtocol: string): (r: ConfigMap)
    ensures r.Keys == fileProps.Keys
                      + (if bootstrapServers != "" then {BootstrapServersKey} else {})
                      + (if securityProtocol != "" then {SecurityProtocolKey} else {})
    ensures forall k :: k in fileProps && k != BootstrapServersKey && k != SecurityProtocolKey ==> r[k] == fileProps[k]
    ensures bootstrapServers != "" ==> r[BootstrapServersKey] == bootstrapServers
    ensures bootstrapServers == "" && BootstrapServersKey in fileProps ==> r[BootstrapServersKey] == fileProps[BootstrapServersKey]
    ensures securityProtocol != "" ==> r[SecurityProtocolKey] == securityProtocol
    ensures securityProtocol == "" && SecurityProtocolKey in fileProps ==> r[SecurityProtocolKey] == fileProps[SecurityProtocolKey]
  {
    var withServers := if bootstrapServers != "" then fileProps[BootstrapServersKey := bootstrapServers] else fileProps;
    if securityProtocol != "" then withServers[SecurityProtocolKey := securityProtocol] else withServers
  }

  /** The settings the file contributes: none when no path is given. */
  function Seed(configFile: string, fs: FileSystem): Result<ConfigMap, Error> {
    if configFile != "" then ReadProperties(configFile, fs) else Success(map[])
  }

  /** The result of building the configuration from the flags and, when a path is
      given, the properties file at configFile. */
  function KafkaConfig(bootstrapServers: string, configFile: string, securityProtocol: string, fs: FileSystem)
    : Result<ConfigMap, Error>
  {
    match Seed(configFile, fs)
    case Failure(e) => Failure(e)
    case Success(props) =>
      var config := ApplyFlags(props, bootstrapServers, securityProtocol);
      if Get(config, BootstrapServersKey, "") == "" then Failure(MissingBootstrapServers)
      else Success(config)
  }

  /** Builds the configuration step by step: copies every setting of the file,
      then stores each non-empty flag, then checks bootstrap.servers. */
  method BuildKafkaConfig(bootstrapServers: string, configFile: string, securityProtocol: string, fs: FileSystem)
    returns (r: Result<ConfigMap, Error>)
    ensures r == KafkaConfig(bootstrapServers, configFile, securityProtocol, fs)
  {
    var config: ConfigMap := map[];
    if configFile != "" {
      var parsed := ParsePropertiesFile(configFile, fs);
      if parsed.Failure? {
        return Failure(parsed.error);
      }
      var props := parsed.value;
      var pending := props.Keys;
      while pending != {}
        invariant pending <= props.Keys
        invariant config.Keys == props.Keys - pending
        invariant forall k :: k in config ==> config[k] == props[k]
        decreases pending
      {
        var k :| k in pending;
        config := config[k := props[k]];
        pending := pending - {k};
      }
      assert config == props;
    }
    if bootstrapServers != "" {
      config := config[BootstrapServersKey := bootstrapServers];
    }
    if securityProtocol != "" {
      config := config[SecurityProtocolKey := securityProtocol];
    }
    var bootstrapValue := Get(config, BootstrapServersKey, "");
    if bootstrapValue == "" {
      return Failure(MissingBootstrapServers);
    }
    return Success(config);
  }

  // ---------------------------------------------------------------------------
  // Properties

  /** Building fails exactly when the file is named but cannot be parsed (with
      the parser's error unchanged), or when neither the flag nor the file
      supplies a non-empty bootstrap.servers. */
  lemma KafkaConfigFailures(bootstrapServers: string, configFile: string, securityProtocol: string, fs: FileSystem)
    ensures Seed(configFile, fs).Failure? ==>
              KafkaConfig(bootstrapServers, configFile, securityProtocol, fs) == Failure(Seed(configFile, fs).error)
    ensures Seed(configFile, fs).Success? ==>
              var props := Seed(configFile, fs).value;
              KafkaConfig(bootstrapServers, configFile, securityProtocol, fs).Failure? <==>
                bootstrapServers == "" && (BootstrapServersKey !in props || props[BootstrapServersKey] == "")
    ensures configFile == "" ==>
              (KafkaConfig(bootstrapServers, configFile, securityProtocol, fs) == Failure(MissingBootstrapServers)
               <==> bootstrapServers == "")
  {
  }

  /** A successful build holds every setting of the file, the flags in place of
      the file's values where they are non-empty, and a non-empty bootstrap.servers. */
  lemma KafkaConfigPrecedence(bootstrapServers: string, configFile: string, securityProtocol: string, fs: FileSystem)
    requires KafkaConfig(bootstrapServers, configFile, securityProtocol, fs).Success?
    ensures Seed(configFile, fs).Success?
    ensures var props, config := Seed(configFile, fs).value, KafkaConfig(bootstrapServers, configFile, securityProtocol, fs).value;
      && props.Keys <= config.Keys
      && (forall k :: k in props && k != BootstrapServersKey && k != SecurityProtocolKey ==> config[k] == props[k])
      && BootstrapServersKey in config && config[BootstrapServersKey] != ""
      && config[BootstrapServersKey] == (if bootstrapServers != "" then bootstrapServers else props[BootstrapServersKey])
      && (SecurityProtocolKey in config <==> securityProtocol != "" || SecurityProtocolKey in props)
      && (securityProtocol != "" ==> config[SecurityProtocolKey] == securityProtocol)
      && (securityProtocol == "" && SecurityProtocolKey in props ==> config[SecurityProtocolKey] == props[SecurityProtocolKey])
  {
  }
}
