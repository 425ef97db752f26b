# vscode-slice language server core, in Dafny

This project models the core of the Slice language server (the Rust server behind the
VS Code Slice extension) and proves what it promises:

- **Search-path resolution** (`slice_config.rs`): how a configuration set's search paths,
  the workspace root and the built-in Slice directory become the compiler's reference list.
- **Configuration sets** (`configuration_set.rs`): parsing a set from the client's JSON,
  compiling it, and recompiling it in place.
- **The session** (`session.rs`): the server configuration and the list of sets. It covers
  the initialize handshake and replacing the sets when the settings change. An empty list
  becomes the single default set.
- **The request handlers** (`main.rs`):
  - on open or save, only the sets whose references hold the file are recompiled; every file
    of those sets gets a publish entry, and the diagnostics go through adjacent dedup;
  - recompilation of every set;
  - go-to-definition and hover, answered by the first set, in order, that owns the file.
- **The go-to-definition visitor** (`jump_definition.rs`): it walks a file's syntax in
  pre-order. The traversal is never cut short, so the last assignment to the result wins.
  A check assigns only when its span holds the cursor:
  - a resolved link, a base, a thrown type or a patched reference to a named type assigns
    the linked entity's identifier span;
  - a patched reference to an unnamed type (a primitive, sequence, dictionary or result)
    resets the result to `None`;
  - unresolved links and unpatched type references are skipped even when they hold the
    cursor.

  Within the base list of an interface, or the thrown types of an operation, only the
  *first* reference that holds the cursor decides; the rest of the list is skipped.

The modules follow the source files:

| file | module | what it holds |
|---|---|---|
| `common.dfy` | `Common` | `Option` and the string type |
| `json.dfy` | `Json` | the JSON value the client sends |
| `paths.dfy` | `Paths` | Unix path components, `PathBuf::push` and component-wise `starts_with` |
| `slicec.dfy` | `Slicec` | the parts of the Slice compiler the server uses |
| `slice_config.dfy` | `SliceConfigs` | `slice_config.rs` |
| `configuration_set.dfy` | `ConfigurationSets` | `configuration_set.rs` |
| `session.dfy` | `Sessions` | `session.rs` |
| `jump_definition.dfy` | `JumpDefinition` | `jump_definition.rs` |
| `server.dfy` | `Server` | `main.rs` |

In `slicec.dfy`:

- The compiler is a record of two functions: `compile_from_options` and `into_updated`.
- A parsed file is the sequence of events its visitor sees, in pre-order. Each event carries
  the doc comment, bases, thrown types or type reference that the visitor inspects.

The mutable parts are classes: `ConfigurationSet`, `Session`, `JumpVisitor` and `Backend`.
Each of their methods is proved against a pure function that specifies it. The properties
are proved about those functions.

Where the repository's revisions disagree with each other, the model makes these choices:

- `create_and_compile` calls `trigger_compilation` without the server configuration. The
  model passes the session's current `ServerConfig` through `new`, `from_json` and
  `parse_configuration_sets`.
- `main.rs` calls `get_definition_span(file, position)` on a file it has already found. The
  version in `jump_definition.rs` takes the whole compilation state and a URI. The model
  keeps both: `GetDefinitionSpan` does the lookup, and `main.rs` uses `DefinitionSpanInFile`.
- `session.rs` wraps the session's fields in mutexes, and `main.rs` destructures them as
  plain fields. The model uses plain fields.
- `Backend::new` calls `Session::default()`. The model uses `Session::new()`, which builds
  the same empty session.
- The documented intent says that all duplicate diagnostics are removed. The code calls
  `Vec::dedup_by`, which removes only adjacent ones. The model follows the code:
  `NonAdjacentDuplicatesSurvive` shows a repeated diagnostic that stays.
- The documented intent says that go-to-definition on an alias lands on the alias. The code
  takes the reference's concrete type, which the compiler has already unwrapped. The model
  follows the code.

## Model

| member | source | states |
|---|---|---|
| SliceConfigs.DefaultSliceConfig | server/src/slice_config.rs:24-31 | The default configuration has no search paths and includes the built-in files. |
| SliceConfigs.ResolveAllAt | server/src/slice_config.rs:37-46 | The search paths resolve one to one, in input order. Each absolute path is kept as given. Each relative path is joined onto the workspace root. |
| SliceConfigs.References | server/src/slice_config.rs:33-59 | The reference list has length max(1, number of search paths) + (1 if built-ins are included). The leading entries are the resolved search paths, in order. With no search paths, the first entry is the workspace root. With built-ins included, the last entry is the built-in Slice path. |
| SliceConfigs.ComputeSliceOptions | server/src/slice_config.rs:33-59 | The loop, the root fallback and the built-in append produce exactly `References`. |
| SliceConfigs.DefaultConfigSearchesRootThenBuiltIns | server/src/slice_config.rs:24-31 | The default configuration (no search paths, built-ins on) resolves to the workspace root followed by the built-in path. |
| SliceConfigs.RelativeReferencesUnderRoot | server/src/slice_config.rs:43 | A relative search path resolves to a path that lies, component by component, under the workspace root. |
| Paths.Join | server/src/slice_config.rs:43 | `PathBuf::push`: an absolute path replaces the base. Otherwise the result starts with the base and ends with the pushed path. |
| Paths.JoinStartsWithBase | server/src/slice_config.rs:43 | Pushing a relative path yields a path whose components start with the base's components. |
| Paths.StartsWithIsComponentWise | server/src/main.rs:94-95 | `starts_with` compares whole components: `/ws/a/b.slice` is under `/ws/a`, but `/ws/ab.slice` is not. |
| Json.Get | server/src/configuration_set.rs:87-88 | A key lookup succeeds exactly when the value is an object that has the key, and it then gives that field's value. |
| ConfigurationSets.StringElementsMembership | server/src/configuration_set.rs:90-96 | A string is kept exactly when it occurs as a string element. Non-strings are dropped, so the output is never longer than the input. |
| ConfigurationSets.StringElementsAppend | server/src/configuration_set.rs:90-96 | The filter works element by element, in order: filtering a concatenation concatenates the filtered parts. |
| ConfigurationSets.ParsePaths | server/src/configuration_set.rs:86-98 | A missing `paths` key gives the empty list, and so does a non-array value. An array gives its string elements, in order. |
| ConfigurationSets.ParseIncludeBuiltIn | server/src/configuration_set.rs:101-106 | Built-ins are excluded exactly when `addWellKnownTypes` is the boolean `false`. Absent or non-boolean means true. |
| ConfigurationSets.MalformedJsonGivesDefault | server/src/configuration_set.rs:50-57 | JSON with neither a `paths` array nor a boolean `addWellKnownTypes` parses to the default configuration. |
| ConfigurationSets.Compile | server/src/configuration_set.rs:72-81 | The compiler runs on exactly the reference list that `compute_slice_options` builds. The data kept is its (AST, files) pair. The diagnostics are those remapped by `into_updated`, not the raw ones. |
| ConfigurationSets.CompileDependsOnlyOnReferences | server/src/configuration_set.rs:72-81 | Two configurations that resolve to the same references compile alike, whatever their search paths or server settings. |
| ConfigurationSets.ConfigurationSet.CreateAndCompile | server/src/configuration_set.rs:59-68 | A new set keeps its configuration, holds its first compilation, and keeps that compilation's diagnostics as unpublished. |
| ConfigurationSets.ConfigurationSet.New | server/src/configuration_set.rs:37-39 | `new()` is a freshly compiled set with the default configuration. |
| ConfigurationSets.ConfigurationSet.FromJson | server/src/configuration_set.rs:50-57 | The configuration comes from `ParsePaths` and `ParseIncludeBuiltIn`, and the set is compiled with it. |
| ConfigurationSets.ConfigurationSet.TriggerCompilation | server/src/configuration_set.rs:70-82 | The compiler runs on exactly the computed reference list. The compilation data is replaced as a whole. The remapped diagnostics are returned. Only the compilation data changes. |
| ConfigurationSets.ParseConfigurationSets | server/src/configuration_set.rs:42-47 | There is one new, freshly compiled set per array element, in order. The sets are distinct objects. |
| Sessions.BuiltInSlicePath | server/src/session.rs:33-37 | The built-in path is found exactly when the initialization options have a `builtInSlicePath` field that holds a string, and it is that string. |
| Sessions.InitializationConfigurations | server/src/session.rs:53-57 | The sets' JSON is found exactly when the initialization options have a `configuration` field that holds an array, and it is that array. |
| Sessions.SettingsConfigurations | server/src/session.rs:66-71 | The sets' JSON is found exactly when the settings have `slice.configurations` and it holds an array, and it is that array. |
| Sessions.ResultingConfigs | server/src/session.rs:80-89 | The result is never empty. A missing or empty array gives the single default configuration. Otherwise there is one configuration per element, in order. |
| Sessions.InitializationAndSettingsReadDifferentKeys | server/src/session.rs:53-58 | Initialization reads `configuration` at the top level, while settings read `slice.configurations`. A top-level `configuration` array is therefore ignored in the settings. |
| Sessions.Session.constructor | server/src/session.rs:17-22 | A new session has no sets and the default server configuration. |
| Sessions.Session.UpdateConfigurations | server/src/session.rs:80-89 | A non-empty list replaces the sets exactly. An empty one is replaced by one new default set. The result is never empty. |
| Sessions.Session.UpdateConfigurationsFromParams | server/src/session.rs:64-76 | The sets' configurations become `ResultingConfigs` of `slice.configurations`. Every set is new and freshly compiled. The server configuration is untouched. |
| Sessions.Session.UpdateFromInitializeParams | server/src/session.rs:25-61 | A missing `builtInSlicePath` fails with its message. So does a missing or malformed root URI. A failure leaves the session unchanged. On success, the server configuration is (normalized root, built-in path) and the sets come from `configuration`. |
| JumpDefinition.ToLocation | server/src/jump_definition.rs:48-51 | A 0-based LSP line and character become a 1-based row and column. Adding one wraps at 2^32. |
| JumpDefinition.FirstContaining | server/src/jump_definition.rs:159-164 | This is the index of the first base reference whose span holds the location. With no index, no reference holds it. |
| JumpDefinition.MessageStepIsLastHit | server/src/jump_definition.rs:104-110 | Checking a message leaves the identifier span of the last resolved link that holds the location. With no such link, the old value stays. |
| JumpDefinition.CommentStepIsLastHit | server/src/jump_definition.rs:78-101 | Checking a doc comment means checking the overview, then the returns, params, see and throws tags, in that order. The last hit among them decides. |
| JumpDefinition.EventStepIsLastHit | server/src/jump_definition.rs:128-214 | Each `visit_*` is the last hit among its own checks. |
| JumpDefinition.RunIsLastHit | server/src/jump_definition.rs:53-56 | A whole traversal yields the last hit over the file's events, in visit order. |
| JumpDefinition.LastAssigningEventDecides | server/src/jump_definition.rs:53-56 | The traversal is never cut short: if later events have no hits, the last hit of the last assigning event decides, whatever came before. |
| JumpDefinition.MessageHitsCovered | server/src/jump_definition.rs:104-125 | A message produces a hit only when one of its link spans holds the location. |
| JumpDefinition.CommentHitsCovered | server/src/jump_definition.rs:78-125 | A doc comment produces a hit only when one of its link or tag spans holds the location. |
| JumpDefinition.EventHitsCovered | server/src/jump_definition.rs:128-214 | An event produces a hit only when one of the spans it checks holds the location. |
| JumpDefinition.NoCheckedSpanGivesNone | server/src/jump_definition.rs:48-56 | If no checked span holds the cursor, the result is `None`. |
| JumpDefinition.UnnamedTypeRefResets | server/src/jump_definition.rs:199-214 | A patched reference to an unnamed type (here a primitive) that holds the location overwrites the result with `None`. |
| JumpDefinition.JumpVisitor.constructor | server/src/jump_definition.rs:69-74 | The visitor starts with the search location and no span found. |
| JumpDefinition.JumpVisitor.CheckAndSetSpan | server/src/jump_definition.rs:114-125 | The span changes only for a resolved link whose span holds the location. It then becomes the entity's identifier span. An unresolved link changes nothing. |
| JumpDefinition.JumpVisitor.CheckMessageLinks | server/src/jump_definition.rs:104-110 | Only link components are checked, in order. |
| JumpDefinition.JumpVisitor.CheckComment | server/src/jump_definition.rs:78-101 | No comment means no change. Otherwise the overview, returns, params, see and throws tags are checked in that order. |
| JumpDefinition.JumpVisitor.CheckBase | server/src/jump_definition.rs:139-144 | A base whose span holds the location sets the span to the base definition's identifier span. |
| JumpDefinition.JumpVisitor.CheckBaseRefs | server/src/jump_definition.rs:159-164 | The first reference holding the location decides and the loop exits. With none, nothing changes. |
| JumpDefinition.JumpVisitor.VisitStruct | server/src/jump_definition.rs:133-135 | Only the doc comment is checked. |
| JumpDefinition.JumpVisitor.VisitClass | server/src/jump_definition.rs:137-145 | The comment is checked, then the base. A base holding the location wins. |
| JumpDefinition.JumpVisitor.VisitException | server/src/jump_definition.rs:147-155 | The comment is checked, then the base. A base holding the location wins. |
| JumpDefinition.JumpVisitor.VisitInterface | server/src/jump_definition.rs:157-165 | The comment is checked, then the first base that holds the location. |
| JumpDefinition.JumpVisitor.VisitEnum | server/src/jump_definition.rs:167-169 | Only the doc comment is checked. |
| JumpDefinition.JumpVisitor.VisitOperation | server/src/jump_definition.rs:171-179 | The comment is checked, then the first thrown type that holds the location. |
| JumpDefinition.JumpVisitor.VisitCustomType | server/src/jump_definition.rs:181-183 | Only the doc comment is checked. |
| JumpDefinition.JumpVisitor.VisitTypeAlias | server/src/jump_definition.rs:185-187 | Only the doc comment is checked. |
| JumpDefinition.JumpVisitor.VisitField | server/src/jump_definition.rs:189-191 | Only the doc comment is checked. |
| JumpDefinition.JumpVisitor.VisitEnumerator | server/src/jump_definition.rs:195-197 | Only the doc comment is checked. |
| JumpDefinition.JumpVisitor.VisitTypeRef | server/src/jump_definition.rs:199-214 | An unpatched reference changes nothing. A patched reference holding the location sets the named type's identifier span, or `None` for any other type. |
| JumpDefinition.JumpVisitor.Visit | server/src/jump_definition.rs:128-214 | Each event goes to its `visit_*`. File, module and parameter events change nothing. |
| JumpDefinition.DefinitionSpanInFile | server/src/jump_definition.rs:48-56 | Visiting every event of a file with a new visitor yields `DefinitionSpan`, the last hit of the traversal. |
| JumpDefinition.GetDefinitionSpan | server/src/jump_definition.rs:15-61 | A URI with no file path gives `None`, and so does a file missing from the compilation state. Otherwise the result is the file's definition span. |
| Server.DedupAdjacent | server/src/main.rs:112 | Dedup never lengthens the list. A non-empty list keeps its first diagnostic. |
| Server.DedupAdjacentLast | server/src/main.rs:112 | The last element kept is the same diagnostic as the input's last element. |
| Server.DedupAdjacentNoAdjacentDuplicates | server/src/main.rs:112 | No two neighbours of the result share both span and message. |
| Server.DedupAdjacentIsSubsequence | server/src/main.rs:112 | The result is the input with elements removed and the order kept. |
| Server.DedupAdjacentKeepsRunStarts | server/src/main.rs:112 | The first diagnostic of every run of duplicates is kept. |
| Server.DedupAdjacentDropsOnlyDuplicates | server/src/main.rs:112 | Every input diagnostic has an equal (same span and message) diagnostic in the result. |
| Server.NonAdjacentDuplicatesSurvive | server/src/main.rs:112 | `[a, b, a]` with `a` and `b` different is left unchanged: only adjacent duplicates are removed. |
| Server.RepeatedDiagnosticCollapses | server/src/main.rs:112 | Two copies of one diagnostic in a row become one. |
| Server.DedupAdjacentFixesDistinctNeighbours | server/src/main.rs:112 | A list with no adjacent duplicates is unchanged. |
| Server.DedupAdjacentIdempotent | server/src/main.rs:112 | Deduplicating twice is the same as deduplicating once. |
| Server.DedupBy | server/src/main.rs:112 | In place, each element is compared with the last element kept. The first `len` cells then hold exactly `DedupAdjacent` of the input. |
| Server.Dedup | server/src/main.rs:112 | The collected diagnostics, once deduplicated in a vector, equal `DedupAdjacent` of them. |
| Server.ReferencesContain | server/src/main.rs:89-97 | A set is affected exactly when the file lies, component-wise, under one of its resolved references. The equality test adds nothing. |
| Server.UntrackedFileChangesNothing | server/src/main.rs:86-108 | A file under no set's references collects no diagnostics and seeds no publish entry. |
| Server.AffectedFilesAreSeeded | server/src/main.rs:102-108 | Every file of every affected set, after recompilation, has a publish entry. |
| Server.FirstOwner | server/src/main.rs:235-250 | This is the index of the first set, in order, whose files hold the path. With no index, no set holds it. |
| Server.RecompileIfAffected | server/src/main.rs:89-108 | A set is recompiled exactly when its references hold the file. It then yields its diagnostics and file URIs, and otherwise it is untouched. |
| Server.RecompileAffected | server/src/main.rs:84-109 | Affected sets are recompiled and the others keep their compilation. Its frame lets only the compilation data change, so configurations and unpublished diagnostics stay as they were. The diagnostics are the affected sets' own, in set order. Every file of an affected set has an empty entry. |
| Server.Backend.constructor | server/src/main.rs:39-42 | The backend starts with an empty session. |
| Server.Backend.HandleFileChange | server/src/main.rs:76-139 | An unsupported URI publishes nothing and changes nothing. Otherwise the affected sets are recompiled and the others are untouched. Its frame lets only the sets' compilation data change. The publish map seeds every file of an affected set. The diagnostics are the affected sets' own after adjacent dedup. |
| Server.Backend.CompileAndPublishDiagnostics | server/src/main.rs:143-159 | Every set is recompiled once, and its diagnostics are handed on for publishing. Configurations and unpublished diagnostics are unchanged. |
| Server.Backend.DidChangeConfiguration | server/src/main.rs:197-217 | The sets are rebuilt from `slice.configurations` as new objects, then every set is recompiled and published. Each new set's unpublished diagnostics are those of its compilation. The server configuration is unchanged. |
| Server.GotoResponse | server/src/main.rs:244-247 | A definition span gives a location exactly when the visitor found one. That location pairs the span's range with the request's URI, whatever file the span lies in. |
| Server.CrossFileBaseReportedInRequestFile | server/src/main.rs:244-247 | Consider a class whose base is defined in another file, with the cursor on the base. The visitor finds the base's definition, but the response names the request's URI. |
| Server.IntendedGotoResponse | server/src/main.rs:244-247 | The corrected response pairs the span's range with the URI of the file that holds the span. It exists exactly when the span exists and that file has a URI. |
| Server.IntendedAgreesWithinOneFile | server/src/main.rs:244-247 | When the definition lies in the requested file, the corrected response and the response as written agree. |
| Server.CrossFileBaseIntendedInDefiningFile | server/src/main.rs:244-247 | For the class above, the corrected response names the file that defines the base. |
| Server.Backend.GotoDefinition | server/src/main.rs:219-255 | The first set, in order, owning the file answers. The answer is `GotoResponse` of the visitor's span at the request's URI. An unsupported or untracked file gives `None`. |
| Server.Backend.Hover | server/src/main.rs:257-290 | The first set, in order, owning the file answers with its hover message. An unsupported or untracked file gives `None`. |

## Left out

- The LSP transport, logging, `shutdown`, `capabilities` and `show_popup` are not modelled. They are I/O.
- `initialize`, `initialized`, `did_open` and `did_save` are not modelled separately. Each only calls `UpdateFromInitializeParams`, `CompileAndPublishDiagnostics` or `HandleFileChange`.
- Server.Backend.HandleFileChange: stops at the deduplicated diagnostics and the seeded publish map. `process_diagnostics`, which groups diagnostics per file and pops up the spanless ones, is not part of this model.
- Server.Backend.CompileAndPublishDiagnostics: returns each set's diagnostics instead of publishing them, because `publish_diagnostics_for_set` is not part of this model.
- Server.Backend.DidChangeConfiguration: does not model `clear_diagnostics`, which is not part of this model.
- Server.Backend.GotoDefinition: `span_to_range` is a parameter, because the utilities module is not part of this model. The response pairs the resulting range with the request's URI, as the code does (see Findings).
- Server.Backend.Hover: returns the message rather than the LSP hover value. `get_hover_message` is a parameter, because the hover module is not part of this model.
- `url_to_sanitized_file_path`, `convert_slice_path_to_uri` and the root URI round trip are function parameters. The utilities module is not part of this model.
- The Slice compiler (`compile_from_options`, `into_updated`, the AST and the traversal order of `visit_with`) is given as parameters and as a pre-order event sequence.
- Windows path handling (drive letters, escaping) is not modelled. Paths follow Unix component rules.
- The session's mutexes and the handlers' concurrency are not modelled. Each handler runs as one atomic step.
- Server.DedupBy: works on an `array` standing in for the `Vec`. The vector's truncation is modelled by returning the new length.
- JumpDefinition.ToLocation: models the `u32` addition with release-build wrap-around. A debug build would panic instead.
- The logging string returned by `get_definition_span` is not modelled.
- `config.rs` is not part of this model.
- JumpDefinition.JumpVisitor.CheckBase: assumes every base reference is patched. It cannot represent an unpatched base, and so does not capture what `definition()` does then, because the compiler's `TypeRef` is not part of this model.
- JumpDefinition.JumpVisitor.CheckBaseRefs: assumes every base and thrown-type reference is patched, for the same reason.
- Sessions.Session.UpdateFromInitializeParams: the two `expect` panics become a `Fail` outcome that leaves the session unchanged.

## Findings

| source | as written | input that shows it | evidently intended | confidence | as-written member | corrected member |
|---|---|---|---|---|---|---|
| server/src/main.rs:244-247 | The go-to-definition response pairs the definition's range with the request's URI, dropping the file that the span names. | A class in `a.slice` whose base is defined in `b.slice`, with the cursor on the base. The response points into `a.slice`, at the base definition's range in `b.slice`. | The location names the URI of the file that holds the definition. | medium; not executed | Server.CrossFileBaseReportedInRequestFile | Server.IntendedGotoResponse |
