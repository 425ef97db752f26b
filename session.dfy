/** The session: the server-wide configuration and the ordered collection of
    configuration sets, with the protocol that replaces the collection when the
    editor initializes the server or changes its settings. */
module Sessions {
  import opened Common
  import opened Json
  import opened Slicec
  import opened SliceConfigs
  import opened ConfigurationSets

  /** The parts of the LSP `InitializeParams` the session reads. */
  datatype InitializeParams = InitializeParams(initializationOptions: Option<Value>, rootUri: Option<Str>)

  datatype Outcome = Pass | Fail(message: Str)

  /** `initialization_options.builtInSlicePath`, when it holds a string. */
  function BuiltInSlicePath(options: Option<Value>): (path: Option<Str>)
    ensures path.Some? <==>
      options.Some? && Get(options.value, "builtInSlicePath").Some? && Get(options.value, "builtInSlicePath").value.String?
    ensures path.Some? ==> Get(options.value, "builtInSlicePath") == Some(String(path.value))
  {
    options.AndThen(Field("builtInSlicePath")).AndThen(AsStr)
  }

  /** At initialization the sets are read from the `"configuration"` key. */
  function InitializationConfigurations(options: Option<Value>): (configArray: Option<seq<Value>>)
    ensures configArray.Some? <==>
      options.Some? && Get(options.value, "configuration").Some? && Get(options.value, "configuration").value.Array?
    ensures configArray.Some? ==> Get(options.value, "configuration") == Some(Array(configArray.value))
  {
    options.AndThen(Field("configuration")).AndThen(AsArray)
  }

  /** On a settings change they are read from `slice.configurations`. */
  function SettingsConfigurations(settings: Value): (configArray: Option<seq<Value>>)
    ensures configArray.Some? <==>
      && Get(settings, "slice").Some?
      && Get(Get(settings, "slice").value, "configurations").Some?
      && Get(Get(settings, "slice").value, "configurations").value.Array?
    ensures configArray.Some? ==>
      Get(Get(settings, "slice").value, "configurations") == Some(Array(configArray.value))
  {
    Get(settings, "slice").AndThen(Field("configurations")).AndThen(AsArray)
  }

  /** The configurations the session ends up with after parsing `configArray`
      (an absent array parses as none) and replacing: one per element, or the
      single default configuration when there is none. */
  function ResultingConfigs(configArray: Option<seq<Value>>): (configs: seq<SliceConfig>)
    ensures configs != []
    ensures configArray.None? || configArray == Some([]) ==> configs == [DefaultSliceConfig()]
    ensures configArray.Some? && configArray.value != [] ==>
      && |configs| == |configArray.value|
      && forall i | 0 <= i < |configs| :: configs[i] == SliceConfigFromJson(configArray.value[i])
  {
    var elements := configArray.UnwrapOr([]);
    if elements == [] then [DefaultSliceConfig()]
    else seq(|elements|, i requires 0 <= i < |elements| => SliceConfigFromJson(elements[i]))
  }

  /** The two entry points read different keys: settings that name only
      `"configuration"` configure sets at initialization but give the single
      default set on a settings change. */
  lemma InitializationAndSettingsReadDifferentKeys(key: Str, element: Value, v: Value)
    requires key == "configuration" && v == Object(map[key := Array([element])])
    ensures InitializationConfigurations(Some(v)) == Some([element])
    ensures SettingsConfigurations(v).None?
    ensures ResultingConfigs(SettingsConfigurations(v)) == [DefaultSliceConfig()]
  {
    assert "slice" != key;
  }

  class Session {
    var configurationSets: seq<ConfigurationSet>
    var serverConfig: ServerConfig

    ghost predicate Valid()
      reads this
    {
      Distinct(configurationSets)
    }

    /** `Session::new()`: no sets yet and the default server configuration. */
    constructor ()
      ensures Valid()
      ensures configurationSets == [] && serverConfig == DefaultServerConfig()
    {
      configurationSets := [];
      serverConfig := DefaultServerConfig();
    }

    /** `update_configurations`: the new list replaces the old one outright; an
        empty list becomes a single freshly compiled default set, so afterwards
        there is always at least one set. */
    method UpdateConfigurations(configurations: seq<ConfigurationSet>, compiler: Compiler)
      requires Distinct(configurations)
      modifies this`configurationSets
      ensures Valid() && configurationSets != []
      ensures configurations != [] ==> configurationSets == configurations
      ensures configurations == [] ==>
        && |configurationSets| == 1
        && fresh(configurationSets[0])
        && configurationSets[0].sliceConfig == DefaultSliceConfig()
        && FreshlyCompiled(configurationSets, serverConfig, compiler)
    {
      var sets := configurations;
      if sets == [] {
        var default := ConfigurationSet.New(serverConfig, compiler);
        sets := sets + [default];
      }
      configurationSets := sets;
    }

    /** `update_configurations_from_params`: re-parse `slice.configurations` from
        scratch and replace; the server configuration is not touched. */
    method UpdateConfigurationsFromParams(settings: Value, compiler: Compiler)
      modifies this`configurationSets
      ensures Valid()
      ensures SliceConfigsOf(configurationSets) == ResultingConfigs(SettingsConfigurations(settings))
      ensures forall i | 0 <= i < |configurationSets| :: fresh(configurationSets[i])
      ensures FreshlyCompiled(configurationSets, serverConfig, compiler)
    {
      var configurations: seq<ConfigurationSet> := [];
      var configArray := SettingsConfigurations(settings);
      if configArray.Some? {
        configurations := ParseConfigurationSets(configArray.value, serverConfig, compiler);
      }
      UpdateConfigurations(configurations, compiler);
    }

    /** `update_from_initialize_params`: both the built-in path and a usable root
        URI are required (their absence is fatal and leaves the session as it
        was); then the server configuration is set and the sets are read from the
        `"configuration"` key and replaced. `rootPath` is the URI-to-path round
        trip that normalizes the root. */
    method UpdateFromInitializeParams(params: InitializeParams, rootPath: Str -> Option<Str>, compiler: Compiler)
      returns (outcome: Outcome)
      modifies this
      ensures BuiltInSlicePath(params.initializationOptions).None? ==>
        outcome == Fail("builtInSlicePath not found in initialization options")
      ensures BuiltInSlicePath(params.initializationOptions).Some? && params.rootUri.AndThen(rootPath).None? ==>
        outcome == Fail("`root_uri` was not sent by the client, or was malformed")
      ensures outcome.Fail? ==> unchanged(this)
      ensures outcome.Pass? <==> BuiltInSlicePath(params.initializationOptions).Some? && params.rootUri.AndThen(rootPath).Some?
      ensures outcome.Pass? ==>
        && serverConfig == ServerConfig(params.rootUri.AndThen(rootPath).value, BuiltInSlicePath(params.initializationOptions).value)
        && Valid()
        && SliceConfigsOf(configurationSets) == ResultingConfigs(InitializationConfigurations(params.initializationOptions))
        && (forall i | 0 <= i < |configurationSets| :: fresh(configurationSets[i]))
        && FreshlyCompiled(configurationSets, serverConfig, compiler)
    {
      var builtInSlicePath := BuiltInSlicePath(params.initializationOptions);
      if builtInSlicePath.None? {
        return Fail("builtInSlicePath not found in initialization options");
      }
      var workspaceRootPath := params.rootUri.AndThen(rootPath);
      if workspaceRootPath.None? {
        return Fail("`root_uri` was not sent by the client, or was malformed");
      }
      serverConfig := ServerConfig(workspaceRootPath.value, builtInSlicePath.value);

      var configurations: seq<ConfigurationSet> := [];
      var configArray := InitializationConfigurations(params.initializationOptions);
      if configArray.Some? {
        configurations := ParseConfigurationSets(configArray.value, serverConfig, compiler);
      }
      UpdateConfigurations(configurations, compiler);
      outcome := Pass;
    }
  }
}
