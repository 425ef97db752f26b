/** A configuration set: one `SliceConfig` with the result of its most recent
    compilation, and the JSON parsing that builds sets from user settings. */
module ConfigurationSets {
  import opened Common
  import opened Json
  import opened Slicec
  import opened SliceConfigs

  /** `filter_map(as_str)`: the string elements, in order. */
  function StringElements(values: seq<Value>): seq<Str> {
    if values == [] then []
    else (if values[0].String? then [values[0].s] else []) + StringElements(values[1..])
  }

  /** Filtering distributes over concatenation, so the strings keep their order. */
  lemma {:induction false} StringElementsAppend(a: seq<Value>, b: seq<Value>)
    ensures StringElements(a + b) == StringElements(a) + StringElements(b)
  {
    if a == [] {
      assert a + b == b;
    } else {
      assert (a + b)[1..] == a[1..] + b;
      StringElementsAppend(a[1..], b);
    }
  }

  /** Exactly the string elements are kept: nothing else enters, none is dropped. */
  lemma {:induction false} StringElementsMembership(values: seq<Value>, s: Str)
    ensures s in StringElements(values) <==> String(s) in values
    ensures |StringElements(values)| <= |values|
  {
    if values != [] {
      StringElementsMembership(values[1..], s);
      assert values == [values[0]] + values[1..];
    }
  }

  /** `parse_paths`: the string elements of the `"paths"` array; the empty list
      when the key is missing or does not hold an array. */
  function ParsePaths(value: Value): (paths: seq<Str>)
    ensures Get(value, "paths").None? ==> paths == []
    ensures Get(value, "paths").Some? && !Get(value, "paths").value.Array? ==> paths == []
    ensures Get(value, "paths").Some? && Get(value, "paths").value.Array? ==>
      paths == StringElements(Get(value, "paths").value.elements)
  {
    match Get(value, "paths").AndThen(AsArray)
    case Some(dirs) => StringElements(dirs)
    case None => []
  }

  /** `parse_include_built_in`: only an explicit `false` under
      `"addWellKnownTypes"` turns the built-in files off. */
  function ParseIncludeBuiltIn(value: Value): (included: bool)
    ensures !included <==> Get(value, "addWellKnownTypes") == Some(Bool(false))
  {
    Get(value, "addWellKnownTypes").AndThen(AsBool).UnwrapOr(true)
  }

  /** The `SliceConfig` that `from_json` builds. */
  function SliceConfigFromJson(value: Value): SliceConfig {
    SliceConfig(ParsePaths(value), ParseIncludeBuiltIn(value))
  }

  /** Missing or malformed fields fall back to the default configuration. */
  lemma MalformedJsonGivesDefault(value: Value)
    requires Get(value, "paths").None? || !Get(value, "paths").value.Array?
    requires Get(value, "addWellKnownTypes").None? || !Get(value, "addWellKnownTypes").value.Bool?
    ensures SliceConfigFromJson(value) == DefaultSliceConfig()
  {
  }

  /** The stored result of a compilation: replaced as a pair, never in part. */
  datatype CompilationData = CompilationData(ast: Ast, files: map<Str, SliceFile>)

  /** `CompilationData::default()`. */
  function DefaultCompilationData(): CompilationData {
    CompilationData(EmptyAst(), map[])
  }

  datatype Compilation = Compilation(data: CompilationData, diagnostics: seq<Diagnostic>)

  /** What compiling `config` yields: the compiler runs on exactly the options
      `compute_slice_options` builds, and the diagnostics returned are the
      remapped ones. */
  function Compile(server: ServerConfig, compiler: Compiler, config: SliceConfig): (compilation: Compilation)
    ensures var options := SliceOptions(References(server, config));
      var state := compiler.compileFromOptions(options);
      && compilation.data.ast == state.ast && compilation.data.files == state.files
      && compilation.diagnostics == compiler.intoUpdated(state.diagnostics, state.ast, state.files, options)
  {
    var options := SliceOptions(References(server, config));
    var state := compiler.compileFromOptions(options);
    Compilation(
      CompilationData(state.ast, state.files),
      compiler.intoUpdated(state.diagnostics, state.ast, state.files, options))
  }

  /** Two configurations that resolve to the same references compile alike,
      whatever their search paths or server settings. */
  lemma CompileDependsOnlyOnReferences(
    server1: ServerConfig, config1: SliceConfig, server2: ServerConfig, config2: SliceConfig, compiler: Compiler)
    requires References(server1, config1) == References(server2, config2)
    ensures Compile(server1, compiler, config1) == Compile(server2, compiler, config2)
  {
  }

  class ConfigurationSet {
    var sliceConfig: SliceConfig
    var compilationData: CompilationData
    var unpublishedDiagnostics: Option<seq<Diagnostic>>

    /** `create_and_compile`: a set holding `config`, compiled once, whose first
        diagnostics wait to be published. */
    constructor CreateAndCompile(config: SliceConfig, server: ServerConfig, compiler: Compiler)
      ensures sliceConfig == config
      ensures compilationData == Compile(server, compiler, config).data
      ensures unpublishedDiagnostics == Some(Compile(server, compiler, config).diagnostics)
    {
      sliceConfig := config;
      compilationData := DefaultCompilationData();
      unpublishedDiagnostics := None;
      new;
      var diagnostics := TriggerCompilation(server, compiler);
      unpublishedDiagnostics := Some(diagnostics);
    }

    /** `ConfigurationSet::new()`: a set with the default configuration. */
    static method New(server: ServerConfig, compiler: Compiler) returns (configurationSet: ConfigurationSet)
      ensures fresh(configurationSet)
      ensures configurationSet.sliceConfig == DefaultSliceConfig()
      ensures configurationSet.compilationData == Compile(server, compiler, DefaultSliceConfig()).data
      ensures configurationSet.unpublishedDiagnostics == Some(Compile(server, compiler, DefaultSliceConfig()).diagnostics)
    {
      configurationSet := new ConfigurationSet.CreateAndCompile(DefaultSliceConfig(), server, compiler);
    }

    /** `from_json`: a set configured from one JSON element. */
    static method FromJson(value: Value, server: ServerConfig, compiler: Compiler) returns (configurationSet: ConfigurationSet)
      ensures fresh(configurationSet)
      ensures configurationSet.sliceConfig == SliceConfigFromJson(value)
      ensures configurationSet.compilationData == Compile(server, compiler, SliceConfigFromJson(value)).data
      ensures configurationSet.unpublishedDiagnostics == Some(Compile(server, compiler, SliceConfigFromJson(value)).diagnostics)
    {
      var config := SliceConfig(ParsePaths(value), ParseIncludeBuiltIn(value));
      configurationSet := new ConfigurationSet.CreateAndCompile(config, server, compiler);
    }

    /** `trigger_compilation`: compile with this set's resolved references,
        replace the stored tree and files as a whole and return the remapped
        diagnostics. The configuration and the unpublished diagnostics stay. */
    method TriggerCompilation(server: ServerConfig, compiler: Compiler) returns (diagnostics: seq<Diagnostic>)
      modifies this`compilationData
      ensures compilationData == Compile(server, compiler, sliceConfig).data
      ensures diagnostics == Compile(server, compiler, sliceConfig).diagnostics
    {
      var sliceOptions := ComputeSliceOptions(server, sliceConfig);
      var state := compiler.compileFromOptions(sliceOptions);
      var updatedDiagnostics := compiler.intoUpdated(state.diagnostics, state.ast, state.files, sliceOptions);
      compilationData := CompilationData(state.ast, state.files);
      diagnostics := updatedDiagnostics;
    }
  }

  /** No set appears twice in a collection (the collection owns its sets). */
  ghost predicate Distinct(sets: seq<ConfigurationSet>) {
    forall i, j | 0 <= i < j < |sets| :: sets[i] != sets[j]
  }

  function SliceConfigsOf(sets: seq<ConfigurationSet>): (configs: seq<SliceConfig>)
    reads sets
    ensures |configs| == |sets|
    ensures forall i | 0 <= i < |sets| :: configs[i] == sets[i].sliceConfig
  {
    seq(|sets|, i reads sets requires 0 <= i < |sets| => sets[i].sliceConfig)
  }

  /** Every set is freshly compiled and still holds its first diagnostics. */
  ghost predicate FreshlyCompiled(sets: seq<ConfigurationSet>, server: ServerConfig, compiler: Compiler)
    reads sets
  {
    forall i | 0 <= i < |sets| ::
      && sets[i].compilationData == Compile(server, compiler, sets[i].sliceConfig).data
      && sets[i].unpublishedDiagnostics == Some(Compile(server, compiler, sets[i].sliceConfig).diagnostics)
  }

  /** `parse_configuration_sets`: one set per array element, in order. */
  method ParseConfigurationSets(configArray: seq<Value>, server: ServerConfig, compiler: Compiler)
    returns (sets: seq<ConfigurationSet>)
    ensures |sets| == |configArray|
    ensures forall i | 0 <= i < |sets| :: fresh(sets[i]) && sets[i].sliceConfig == SliceConfigFromJson(configArray[i])
    ensures Distinct(sets) && FreshlyCompiled(sets, server, compiler)
  {
    sets := [];
    for i := 0 to |configArray|
      invariant |sets| == i
      invariant forall k | 0 <= k < i :: fresh(sets[k]) && sets[k].sliceConfig == SliceConfigFromJson(configArray[k])
      invariant Distinct(sets) && FreshlyCompiled(sets, server, compiler)
    {
      var configurationSet := ConfigurationSet.FromJson(configArray[i], server, compiler);
      sets := sets + [configurationSet];
    }
  }
}
