/** The request handlers of the language server: scoped recompilation when a
    file is opened or saved (with the diagnostic dedup), recompilation of every
    set, and the go-to-definition and hover lookups. */
module Server {
  import opened Common
  import opened Json
  import opened Paths
  import opened Slicec
  import opened SliceConfigs
  import opened ConfigurationSets
  import opened Sessions
  import opened JumpDefinition

  // ---------------------------------------------------------------------------
  // Diagnostic dedup

  /** The dedup predicate: same span (file included) and same message. */
  predicate SameDiagnostic(a: Diagnostic, b: Diagnostic) {
    a.span == b.span && a.message == b.message
  }

  /** Adjacent-duplicate removal: an element is dropped when it matches the
      element just before it in the input. */
  function DedupAdjacent(ds: seq<Diagnostic>): (r: seq<Diagnostic>)
    ensures |r| <= |ds|
    ensures ds != [] ==> r != [] && r[0] == ds[0]
  {
    if |ds| <= 1 then ds
    else if SameDiagnostic(ds[|ds| - 1], ds[|ds| - 2]) then DedupAdjacent(ds[..|ds| - 1])
    else DedupAdjacent(ds[..|ds| - 1]) + [ds[|ds| - 1]]
  }

  /** The last element kept matches the last element of the input. */
  lemma {:induction false} DedupAdjacentLast(ds: seq<Diagnostic>)
    requires ds != []
    ensures var r := DedupAdjacent(ds); r != [] && SameDiagnostic(r[|r| - 1], ds[|ds| - 1])
  {
    if |ds| > 1 {
      DedupAdjacentLast(ds[..|ds| - 1]);
    }
  }

  /** No two neighbours of the result are duplicates. */
  lemma {:induction false} DedupAdjacentNoAdjacentDuplicates(ds: seq<Diagnostic>)
    ensures var r := DedupAdjacent(ds); forall i | 0 < i < |r| :: !SameDiagnostic(r[i - 1], r[i])
  {
    if |ds| > 1 {
      var init := ds[..|ds| - 1];
      DedupAdjacentNoAdjacentDuplicates(init);
      DedupAdjacentLast(init);
    }
  }

  /** `a` is `b` with some elements removed, order kept. */
  predicate IsSubsequence<T(==)>(a: seq<T>, b: seq<T>)
    decreases |b|
  {
    if a == [] then true
    else if b == [] then false
    else if a[|a| - 1] == b[|b| - 1] && IsSubsequence(a[..|a| - 1], b[..|b| - 1]) then true
    else IsSubsequence(a, b[..|b| - 1])
  }

  lemma {:induction false} DedupAdjacentIsSubsequence(ds: seq<Diagnostic>)
    ensures IsSubsequence(DedupAdjacent(ds), ds)
  {
    if |ds| > 1 {
      var init := ds[..|ds| - 1];
      DedupAdjacentIsSubsequence(init);
      var r := DedupAdjacent(ds);
      if !SameDiagnostic(ds[|ds| - 1], ds[|ds| - 2]) {
        assert r[..|r| - 1] == DedupAdjacent(init);
      } else {
        SubsequenceOfPrefix(r, init, ds[|ds| - 1]);
        assert init + [ds[|ds| - 1]] == ds;
      }
    } else if |ds| == 1 {
      assert ds[..0] == [];
    }
  }

  lemma SubsequenceOfPrefix<T>(a: seq<T>, b: seq<T>, x: T)
    requires IsSubsequence(a, b)
    ensures IsSubsequence(a, b + [x])
  {
    assert (b + [x])[..|b|] == b;
  }

  /** The first element of every run of duplicates is kept ... */
  lemma {:induction false} DedupAdjacentKeepsRunStarts(ds: seq<Diagnostic>, i: nat)
    requires i < |ds| && (i == 0 || !SameDiagnostic(ds[i], ds[i - 1]))
    ensures ds[i] in DedupAdjacent(ds)
  {
    if |ds| > 1 {
      var init := ds[..|ds| - 1];
      if i < |ds| - 1 {
        DedupAdjacentKeepsRunStarts(init, i);
      }
    }
  }

  /** ... and every dropped element duplicates one that is kept. */
  lemma {:induction false} DedupAdjacentDropsOnlyDuplicates(ds: seq<Diagnostic>, i: nat)
    requires i < |ds|
    ensures exists j | 0 <= j < |DedupAdjacent(ds)| :: SameDiagnostic(DedupAdjacent(ds)[j], ds[i])
  {
    var r := DedupAdjacent(ds);
    if |ds| > 1 {
      var init := ds[..|ds| - 1];
      var ri := DedupAdjacent(init);
      assert ri == r[..|ri|];
      if i < |ds| - 1 {
        DedupAdjacentDropsOnlyDuplicates(init, i);
        var j :| 0 <= j < |ri| && SameDiagnostic(ri[j], init[i]);
        assert r[j] == ri[j];
      } else if SameDiagnostic(ds[i], ds[i - 1]) {
        DedupAdjacentLast(init);
        assert r[|ri| - 1] == ri[|ri| - 1];
      } else {
        assert r[|r| - 1] == ds[i];
      }
    } else {
      assert r[i] == ds[i];
    }
  }

  /** Only adjacent duplicates go: the same diagnostic reported twice with
      another in between is published twice. */
  lemma NonAdjacentDuplicatesSurvive(a: Diagnostic, b: Diagnostic)
    requires !SameDiagnostic(a, b)
    ensures DedupAdjacent([a, b, a]) == [a, b, a]
  {
    assert [a, b, a][..2] == [a, b];
    assert [a, b][..1] == [a];
    assert DedupAdjacent([a]) == [a];
    assert DedupAdjacent([a, b]) == [a, b];
  }

  /** Two copies of one diagnostic in a row collapse to one. */
  lemma RepeatedDiagnosticCollapses(d: Diagnostic, ds: seq<Diagnostic>)
    requires ds == [d, d]
    ensures DedupAdjacent(ds) == [d]
  {
    assert ds[..1] == [d];
  }

  /** A list without adjacent duplicates is left alone, so deduplicating twice
      changes nothing more. */
  lemma {:induction false} DedupAdjacentFixesDistinctNeighbours(ds: seq<Diagnostic>)
    requires forall i | 0 < i < |ds| :: !SameDiagnostic(ds[i - 1], ds[i])
    ensures DedupAdjacent(ds) == ds
  {
    if |ds| > 1 {
      DedupAdjacentFixesDistinctNeighbours(ds[..|ds| - 1]);
    }
  }

  lemma DedupAdjacentIdempotent(ds: seq<Diagnostic>)
    ensures DedupAdjacent(DedupAdjacent(ds)) == DedupAdjacent(ds)
  {
    DedupAdjacentNoAdjacentDuplicates(ds);
    DedupAdjacentFixesDistinctNeighbours(DedupAdjacent(ds));
  }

  /** `Vec::dedup_by` in place: each element is compared with the last element
      kept and moved down unless it matches; the new length is returned. */
  method DedupBy(a: array<Diagnostic>) returns (len: nat)
    modifies a
    ensures len <= a.Length
    ensures a[..len] == DedupAdjacent(old(a[..]))
  {
    ghost var input := a[..];
    if a.Length == 0 {
      return 0;
    }
    var write := 1;
    for read := 1 to a.Length
      invariant 1 <= write <= read
      invariant a[..write] == DedupAdjacent(input[..read])
      invariant SameDiagnostic(a[write - 1], input[read - 1])
      invariant forall k | read <= k < a.Length :: a[k] == input[k]
    {
      assert input[..read + 1][..read] == input[..read];
      assert a[read] == input[read];
      if !SameDiagnostic(a[read], a[write - 1]) {
        a[write] := a[read];
        write := write + 1;
      }
    }
    assert input[..a.Length] == input;
    len := write;
  }

  /** The collected diagnostics copied into a vector and deduplicated there. */
  method Dedup(collected: seq<Diagnostic>) returns (diagnostics: seq<Diagnostic>)
    ensures diagnostics == DedupAdjacent(collected)
  {
    var buffer := new Diagnostic[|collected|](k requires 0 <= k < |collected| => collected[k]);
    assert buffer[..] == collected;
    var len := DedupBy(buffer);
    diagnostics := buffer[..len];
  }

  // ---------------------------------------------------------------------------
  // Which sets a changed file affects

  /** The filter of `handle_file_change`: one of the references equals the file
      path or is a component-wise prefix of it. The equality test adds nothing:
      the file is contained exactly when it lies, component-wise, under one of
      the references. */
  function ReferencesContain(references: seq<Str>, filePath: Str): (contains: bool)
    ensures contains <==> exists i | 0 <= i < |references| :: StartsWith(filePath, references[i])
  {
    assert forall i | 0 <= i < |references| :: SamePath(references[i], filePath) ==> StartsWith(filePath, references[i]);
    exists i | 0 <= i < |references| :: SamePath(references[i], filePath) || StartsWith(filePath, references[i])
  }

  predicate SetContainsFile(server: ServerConfig, config: SliceConfig, filePath: Str) {
    ReferencesContain(References(server, config), filePath)
  }

  /** What one set contributes when `filePath` changes: its fresh compilation
      data, diagnostics and file URIs when its references hold the file; its old
      data and nothing else otherwise. */
  function DataAfterChange(server: ServerConfig, compiler: Compiler, config: SliceConfig, filePath: Str, before: CompilationData)
    : CompilationData
  {
    if SetContainsFile(server, config, filePath) then Compile(server, compiler, config).data else before
  }

  function DiagnosticsOfChange(server: ServerConfig, compiler: Compiler, config: SliceConfig, filePath: Str): seq<Diagnostic> {
    if SetContainsFile(server, config, filePath) then Compile(server, compiler, config).diagnostics else []
  }

  function UrisOfChange(server: ServerConfig, compiler: Compiler, config: SliceConfig, filePath: Str, toUri: Str -> Option<Str>)
    : set<Str>
  {
    if SetContainsFile(server, config, filePath) then FileUris(Compile(server, compiler, config).data.files, toUri) else {}
  }

  /** The remapped diagnostics of the affected sets, in set order. */
  function ChangeDiagnostics(server: ServerConfig, compiler: Compiler, configs: seq<SliceConfig>, filePath: Str)
    : seq<Diagnostic>
  {
    if configs == [] then []
    else
      var last := configs[|configs| - 1];
      ChangeDiagnostics(server, compiler, configs[..|configs| - 1], filePath)
        + DiagnosticsOfChange(server, compiler, last, filePath)
  }

  /** The URIs of a set's compiled files (paths with no URI are skipped). */
  function FileUris(files: map<Str, SliceFile>, toUri: Str -> Option<Str>): set<Str> {
    set p | p in files && toUri(p).Some? :: toUri(p).value
  }

  /** The URIs of every file of every affected set, after recompilation. */
  function ChangeUris(server: ServerConfig, compiler: Compiler, configs: seq<SliceConfig>, filePath: Str, toUri: Str -> Option<Str>)
    : set<Str>
  {
    if configs == [] then {}
    else
      var last := configs[|configs| - 1];
      ChangeUris(server, compiler, configs[..|configs| - 1], filePath, toUri)
        + UrisOfChange(server, compiler, last, filePath, toUri)
  }

  /** Publish entries with no diagnostics yet. */
  function EmptyEntries(uris: set<Str>): map<Str, seq<Diagnostic>> {
    map u | u in uris :: []
  }

  /** One more set extends both collections by that set's contribution. */
  lemma ChangeStep(server: ServerConfig, compiler: Compiler, configs: seq<SliceConfig>, filePath: Str, toUri: Str -> Option<Str>, i: nat)
    requires i < |configs|
    ensures ChangeDiagnostics(server, compiler, configs[..i + 1], filePath) ==
      ChangeDiagnostics(server, compiler, configs[..i], filePath) + DiagnosticsOfChange(server, compiler, configs[i], filePath)
    ensures ChangeUris(server, compiler, configs[..i + 1], filePath, toUri) ==
      ChangeUris(server, compiler, configs[..i], filePath, toUri) + UrisOfChange(server, compiler, configs[i], filePath, toUri)
  {
    assert configs[..i + 1][..i] == configs[..i];
  }

  lemma EmptyEntriesUnion(a: set<Str>, b: set<Str>)
    ensures EmptyEntries(a) + EmptyEntries(b) == EmptyEntries(a + b)
  {
  }

  /** A file under no set's references recompiles nothing and publishes nothing. */
  lemma {:induction false} UntrackedFileChangesNothing(
    server: ServerConfig, compiler: Compiler, configs: seq<SliceConfig>, filePath: Str, toUri: Str -> Option<Str>)
    requires forall i | 0 <= i < |configs| :: !SetContainsFile(server, configs[i], filePath)
    ensures ChangeDiagnostics(server, compiler, configs, filePath) == []
    ensures ChangeUris(server, compiler, configs, filePath, toUri) == {}
  {
    if configs != [] {
      UntrackedFileChangesNothing(server, compiler, configs[..|configs| - 1], filePath, toUri);
    }
  }

  /** Every file of every affected set gets a publish entry. */
  lemma {:induction false} AffectedFilesAreSeeded(
    server: ServerConfig, compiler: Compiler, configs: seq<SliceConfig>, filePath: Str, toUri: Str -> Option<Str>,
    k: nat, path: Str)
    requires k < |configs| && SetContainsFile(server, configs[k], filePath)
    requires path in Compile(server, compiler, configs[k]).data.files && toUri(path).Some?
    ensures toUri(path).value in ChangeUris(server, compiler, configs, filePath, toUri)
  {
    if k < |configs| - 1 {
      AffectedFilesAreSeeded(server, compiler, configs[..|configs| - 1], filePath, toUri, k, path);
    }
  }

  /** The index of the first set, in order, whose files include `path`. */
  function FirstOwner(fileMaps: seq<map<Str, SliceFile>>, path: Str): (r: Option<nat>)
    ensures r.Some? ==> r.value < |fileMaps| && path in fileMaps[r.value]
    ensures r.Some? ==> forall j | 0 <= j < r.value :: path !in fileMaps[j]
    ensures r.None? ==> forall j | 0 <= j < |fileMaps| :: path !in fileMaps[j]
  {
    if fileMaps == [] then None
    else if path in fileMaps[0] then Some(0)
    else match FirstOwner(fileMaps[1..], path)
      case None => None
      case Some(i) => Some(i + 1)
  }

  function FilesOf(sets: seq<ConfigurationSet>): (fileMaps: seq<map<Str, SliceFile>>)
    reads sets
    ensures |fileMaps| == |sets|
    ensures forall i | 0 <= i < |sets| :: fileMaps[i] == sets[i].compilationData.files
  {
    seq(|sets|, i reads sets requires 0 <= i < |sets| => sets[i].compilationData.files)
  }

  function CompilationsOf(sets: seq<ConfigurationSet>): (data: seq<CompilationData>)
    reads sets
    ensures |data| == |sets|
    ensures forall i | 0 <= i < |sets| :: data[i] == sets[i].compilationData
  {
    seq(|sets|, i reads sets requires 0 <= i < |sets| => sets[i].compilationData)
  }

  /** One turn of that loop: the set is recompiled when its resolved
      references hold the file; its diagnostics and file URIs are returned. */
  method RecompileIfAffected(
    configurationSet: ConfigurationSet, server: ServerConfig, compiler: Compiler, filePath: Str, toUri: Str -> Option<Str>)
    returns (diagnostics: seq<Diagnostic>, uris: set<Str>)
    modifies configurationSet`compilationData
    ensures configurationSet.compilationData ==
      DataAfterChange(server, compiler, configurationSet.sliceConfig, filePath, old(configurationSet.compilationData))
    ensures diagnostics == DiagnosticsOfChange(server, compiler, configurationSet.sliceConfig, filePath)
    ensures uris == UrisOfChange(server, compiler, configurationSet.sliceConfig, filePath, toUri)
  {
    var options := ComputeSliceOptions(server, configurationSet.sliceConfig);
    if ReferencesContain(options.references, filePath) {
      diagnostics := configurationSet.TriggerCompilation(server, compiler);
      uris := FileUris(configurationSet.compilationData.files, toUri);
    } else {
      diagnostics, uris := [], {};
    }
  }

  /** One turn of that loop together with its bookkeeping: set `i` is
      recompiled when affected, every other set keeps its data, and the
      diagnostics and empty publish entries gathered so far grow by this set's
      contribution. */
  method RecompileAndCollect(
    sets: seq<ConfigurationSet>, i: nat, server: ServerConfig, compiler: Compiler, filePath: Str, toUri: Str -> Option<Str>,
    ghost configs: seq<SliceConfig>, collected: seq<Diagnostic>, publishMap: map<Str, seq<Diagnostic>>)
    returns (collected': seq<Diagnostic>, publishMap': map<Str, seq<Diagnostic>>)
    requires Distinct(sets) && i < |sets| == |configs| && sets[i].sliceConfig == configs[i]
    requires collected == ChangeDiagnostics(server, compiler, configs[..i], filePath)
    requires publishMap == EmptyEntries(ChangeUris(server, compiler, configs[..i], filePath, toUri))
    modifies {sets[i]}`compilationData
    ensures sets[i].compilationData == DataAfterChange(server, compiler, configs[i], filePath, old(sets[i].compilationData))
    ensures forall k | 0 <= k < |sets| && k != i :: sets[k].compilationData == old(sets[k].compilationData)
    ensures collected' == ChangeDiagnostics(server, compiler, configs[..i + 1], filePath)
    ensures publishMap' == EmptyEntries(ChangeUris(server, compiler, configs[..i + 1], filePath, toUri))
  {
    ChangeStep(server, compiler, configs, filePath, toUri, i);
    var setDiagnostics, uris := RecompileIfAffected(sets[i], server, compiler, filePath, toUri);
    EmptyEntriesUnion(ChangeUris(server, compiler, configs[..i], filePath, toUri), uris);
    collected' := collected + setDiagnostics;
    publishMap' := publishMap + EmptyEntries(uris);
  }

  /** The loop of `handle_file_change`: each set whose resolved references hold
      the file is recompiled, its diagnostics appended and its files' URIs
      seeded with empty entries. */
  method RecompileAffected(
    sets: seq<ConfigurationSet>, server: ServerConfig, compiler: Compiler, filePath: Str, toUri: Str -> Option<Str>)
    returns (publishMap: map<Str, seq<Diagnostic>>, collected: seq<Diagnostic>)
    requires Distinct(sets)
    modifies sets`compilationData
    ensures publishMap == EmptyEntries(ChangeUris(server, compiler, old(SliceConfigsOf(sets)), filePath, toUri))
    ensures collected == ChangeDiagnostics(server, compiler, old(SliceConfigsOf(sets)), filePath)
    ensures forall k | 0 <= k < |sets| ::
      sets[k].compilationData == DataAfterChange(server, compiler, old(sets[k].sliceConfig), filePath, old(sets[k].compilationData))
  {
    ghost var configs := SliceConfigsOf(sets);
    ghost var before := CompilationsOf(sets);
    ghost var after := seq(|sets|, k requires 0 <= k < |sets| =>
      DataAfterChange(server, compiler, configs[k], filePath, before[k]));
    publishMap := map[];
    collected := [];
    for i := 0 to |sets|
      invariant forall k | 0 <= k < i :: sets[k].compilationData == after[k]
      invariant forall k | i <= k < |sets| :: sets[k].compilationData == before[k]
      invariant collected == ChangeDiagnostics(server, compiler, configs[..i], filePath)
      invariant publishMap == EmptyEntries(ChangeUris(server, compiler, configs[..i], filePath, toUri))
    {
      collected, publishMap := RecompileAndCollect(sets, i, server, compiler, filePath, toUri, configs, collected, publishMap);
      assert sets[i].compilationData == after[i];
    }
    assert configs[..|sets|] == configs;
  }

  // ---------------------------------------------------------------------------
  // The go-to-definition response

  /** An LSP range and location. */
  datatype LspRange = LspRange(start: Position, end: Position)
  datatype LspLocation = LspLocation(uri: Str, range: LspRange)

  /** The response `goto_definition` builds from the visitor's span: the range
      of the span, paired with the URI of the request. */
  function GotoResponse(uri: Str, definition: Found, spanToRange: Span -> LspRange): (response: Option<LspLocation>)
    ensures response.Some? <==> definition.Some?
    ensures response.Some? ==> response.value.uri == uri && response.value.range == spanToRange(definition.value)
  {
    match definition
    case None => None
    case Some(span) => Some(LspLocation(uri, spanToRange(span)))
  }

  /** A class whose base is defined in another file: the answer names the
      request's file, not the file that holds the base's definition. */
  lemma CrossFileBaseReportedInRequestFile(
    uri: Str, file: SliceFile, position: Position, here: Span, there: Span, spanToRange: Span -> LspRange)
    requires file.events == [ClassEvent(None, Some(BaseRef(here, there)))]
    requires IsWithin(ToLocation(position), here) && there.file != here.file
    ensures DefinitionSpan(file, position) == Some(there)
    ensures GotoResponse(uri, DefinitionSpan(file, position), spanToRange) == Some(LspLocation(uri, spanToRange(there)))
  {
    var loc := ToLocation(position);
    assert file.events[1..] == [];
    assert EventStep(loc, None, file.events[0]) == Some(there);
  }

  /** The evidently intended response: the range of the span, paired with the
      URI of the file that holds it. */
  function IntendedGotoResponse(definition: Found, toUri: Str -> Option<Str>, spanToRange: Span -> LspRange)
    : (response: Option<LspLocation>)
    ensures response.Some? <==> definition.Some? && toUri(definition.value.file).Some?
    ensures response.Some? ==>
      && toUri(definition.value.file) == Some(response.value.uri)
      && response.value.range == spanToRange(definition.value)
  {
    match definition
    case None => None
    case Some(span) =>
      match toUri(span.file)
      case None => None
      case Some(fileUri) => Some(LspLocation(fileUri, spanToRange(span)))
  }

  /** The two agree whenever the definition lies in the requested file. */
  lemma IntendedAgreesWithinOneFile(uri: Str, definition: Found, toUri: Str -> Option<Str>, spanToRange: Span -> LspRange)
    requires definition.Some? ==> toUri(definition.value.file) == Some(uri)
    ensures IntendedGotoResponse(definition, toUri, spanToRange) == GotoResponse(uri, definition, spanToRange)
  {
  }

  /** For the class above, the intended answer names the base's own file. */
  lemma CrossFileBaseIntendedInDefiningFile(
    file: SliceFile, position: Position, here: Span, there: Span, toUri: Str -> Option<Str>, spanToRange: Span -> LspRange)
    requires file.events == [ClassEvent(None, Some(BaseRef(here, there)))]
    requires IsWithin(ToLocation(position), here) && toUri(there.file).Some?
    ensures IntendedGotoResponse(DefinitionSpan(file, position), toUri, spanToRange)
      == Some(LspLocation(toUri(there.file).value, spanToRange(there)))
  {
    var loc := ToLocation(position);
    assert file.events[1..] == [];
    assert EventStep(loc, None, file.events[0]) == Some(there);
  }

  // ---------------------------------------------------------------------------
  // The backend

  class Backend {
    const session: Session
    const compiler: Compiler
    /** `url_to_sanitized_file_path`. */
    const urlToSanitizedFilePath: Str -> Option<Str>
    /** `convert_slice_path_to_uri`. */
    const convertSlicePathToUri: Str -> Option<Str>
    /** `get_hover_message`. */
    const hoverMessage: (SliceFile, Position) -> Option<Str>
    /** `span_to_range`. */
    const spanToRange: Span -> LspRange

    constructor (compiler: Compiler, urlToSanitizedFilePath: Str -> Option<Str>,
                 convertSlicePathToUri: Str -> Option<Str>, hoverMessage: (SliceFile, Position) -> Option<Str>,
                 spanToRange: Span -> LspRange)
      ensures fresh(session) && session.Valid()
      ensures session.configurationSets == [] && session.serverConfig == DefaultServerConfig()
      ensures this.compiler == compiler && this.urlToSanitizedFilePath == urlToSanitizedFilePath
      ensures this.convertSlicePathToUri == convertSlicePathToUri && this.hoverMessage == hoverMessage
      ensures this.spanToRange == spanToRange
    {
      session := new Session();
      this.compiler := compiler;
      this.urlToSanitizedFilePath := urlToSanitizedFilePath;
      this.convertSlicePathToUri := convertSlicePathToUri;
      this.hoverMessage := hoverMessage;
      this.spanToRange := spanToRange;
    }

    /** `handle_file_change`: recompile exactly the sets whose references hold
        the file, seed an empty publish entry for every file they now contain,
        and return those entries with the collected diagnostics after adjacent
        dedup (what is then grouped per file and published). An unsupported URI
        returns at once. */
    method HandleFileChange(fileUri: Str) returns (publishMap: map<Str, seq<Diagnostic>>, diagnostics: seq<Diagnostic>)
      requires session.Valid()
      modifies session.configurationSets`compilationData
      ensures urlToSanitizedFilePath(fileUri).None? ==>
        publishMap == map[] && diagnostics == [] && unchanged(session.configurationSets)
      ensures urlToSanitizedFilePath(fileUri).Some? ==>
        var filePath := urlToSanitizedFilePath(fileUri).value;
        var configs := old(SliceConfigsOf(session.configurationSets));
        && publishMap == EmptyEntries(ChangeUris(session.serverConfig, compiler, configs, filePath, convertSlicePathToUri))
        && diagnostics == DedupAdjacent(ChangeDiagnostics(session.serverConfig, compiler, configs, filePath))
        && forall k | 0 <= k < |session.configurationSets| ::
          var configurationSet := session.configurationSets[k];
          configurationSet.compilationData ==
            DataAfterChange(session.serverConfig, compiler, old(configurationSet.sliceConfig), filePath, old(configurationSet.compilationData))
    {
      var filePath := urlToSanitizedFilePath(fileUri);
      if filePath.None? {
        return map[], [];
      }
      var collected;
      publishMap, collected := RecompileAffected(
        session.configurationSets, session.serverConfig, compiler, filePath.value, convertSlicePathToUri);
      diagnostics := Dedup(collected);
    }

    /** `compile_and_publish_diagnostics`: every set is recompiled once, in
        order; the result holds, per set, the diagnostics handed on for
        publishing. */
    method CompileAndPublishDiagnostics() returns (published: seq<seq<Diagnostic>>)
      requires session.Valid()
      modifies session.configurationSets
      ensures |published| == |session.configurationSets|
      ensures forall i | 0 <= i < |session.configurationSets| ::
        var set_i := session.configurationSets[i];
        && set_i.sliceConfig == old(set_i.sliceConfig)
        && set_i.unpublishedDiagnostics == old(set_i.unpublishedDiagnostics)
        && set_i.compilationData == Compile(session.serverConfig, compiler, set_i.sliceConfig).data
        && published[i] == Compile(session.serverConfig, compiler, set_i.sliceConfig).diagnostics
    {
      var sets := session.configurationSets;
      var server := session.serverConfig;
      published := [];
      for i := 0 to |sets|
        invariant |published| == i
        invariant forall k | 0 <= k < |sets| ::
          sets[k].sliceConfig == old(sets[k].sliceConfig) && sets[k].unpublishedDiagnostics == old(sets[k].unpublishedDiagnostics)
        invariant forall k | 0 <= k < i ::
          sets[k].compilationData == Compile(server, compiler, sets[k].sliceConfig).data
          && published[k] == Compile(server, compiler, sets[k].sliceConfig).diagnostics
      {
        var diagnostics := sets[i].TriggerCompilation(server, compiler);
        published := published + [diagnostics];
      }
    }

    /** `did_change_configuration`: the sets are rebuilt from the client's
        settings and then every set is recompiled and published. */
    method DidChangeConfiguration(settings: Value) returns (published: seq<seq<Diagnostic>>)
      modifies session, session.configurationSets
      ensures session.serverConfig == old(session.serverConfig) && session.Valid()
      ensures SliceConfigsOf(session.configurationSets) == ResultingConfigs(SettingsConfigurations(settings))
      ensures |published| == |session.configurationSets|
      ensures forall i | 0 <= i < |session.configurationSets| ::
        var compilation := Compile(session.serverConfig, compiler, session.configurationSets[i].sliceConfig);
        session.configurationSets[i].compilationData == compilation.data && published[i] == compilation.diagnostics
      ensures forall i | 0 <= i < |session.configurationSets| :: fresh(session.configurationSets[i])
      ensures FreshlyCompiled(session.configurationSets, session.serverConfig, compiler)
    {
      session.UpdateConfigurationsFromParams(settings, compiler);
      ghost var configs := SliceConfigsOf(session.configurationSets);
      published := CompileAndPublishDiagnostics();
      assert SliceConfigsOf(session.configurationSets) == configs;
    }

    /** `goto_definition`: the first set, in order, whose files hold the file
        answers with the visitor's span, reported at the request's URI; no such
        set, or an unsupported URI, gives `None`. */
    method GotoDefinition(uri: Str, position: Position) returns (response: Option<LspLocation>)
      ensures urlToSanitizedFilePath(uri).None? ==> response.None?
      ensures urlToSanitizedFilePath(uri).Some? ==>
        var filePath := urlToSanitizedFilePath(uri).value;
        var sets := session.configurationSets;
        match FirstOwner(FilesOf(sets), filePath)
        case None => response.None?
        case Some(i) => response == GotoResponse(uri, DefinitionSpan(sets[i].compilationData.files[filePath], position), spanToRange)
    {
      var filePath := urlToSanitizedFilePath(uri);
      if filePath.None? {
        return None;
      }
      var sets := session.configurationSets;
      for i := 0 to |sets|
        invariant forall j | 0 <= j < i :: filePath.value !in sets[j].compilationData.files
      {
        var files := sets[i].compilationData.files;
        if filePath.value in files {
          var definitionSpan := DefinitionSpanInFile(files[filePath.value], position);
          response := if definitionSpan.Some? then Some(LspLocation(uri, spanToRange(definitionSpan.value))) else None;
          return;
        }
      }
      response := None;
    }

    /** `hover`: the first set, in order, whose files hold the file answers with
        its hover message; otherwise `None`. */
    method Hover(uri: Str, position: Position) returns (response: Option<Str>)
      ensures urlToSanitizedFilePath(uri).None? ==> response.None?
      ensures urlToSanitizedFilePath(uri).Some? ==>
        var filePath := urlToSanitizedFilePath(uri).value;
        var sets := session.configurationSets;
        match FirstOwner(FilesOf(sets), filePath)
        case None => response.None?
        case Some(i) => response == hoverMessage(sets[i].compilationData.files[filePath], position)
    {
      var filePath := urlToSanitizedFilePath(uri);
      if filePath.None? {
        return None;
      }
      var sets := session.configurationSets;
      for i := 0 to |sets|
        invariant forall j | 0 <= j < i :: filePath.value !in sets[j].compilationData.files
      {
        var files := sets[i].compilationData.files;
        if filePath.value in files {
          response := hoverMessage(files[filePath.value], position);
          return;
        }
      }
      response := None;
    }
  }
}
