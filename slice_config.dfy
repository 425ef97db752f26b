/** Server-wide and per-set configuration, and the resolution of a set's search
    paths into the compiler's reference list. */
module SliceConfigs {
  import opened Common
  import opened Paths
  import opened Slicec

  /** One per server: the workspace root resolves relative search paths, and the
      bundled built-in Slice files may be appended to every set. */
  datatype ServerConfig = ServerConfig(workspaceRootPath: Str, builtInSlicePath: Str)

  /** `#[derive(Default)]`: both paths empty. */
  function DefaultServerConfig(): ServerConfig {
    ServerConfig("", "")
  }

  /** One per configuration set. */
  datatype SliceConfig = SliceConfig(sliceSearchPaths: seq<Str>, includeBuiltInSliceFiles: bool)

  /** `SliceConfig::default()`: no search paths, built-in files included. */
  function DefaultSliceConfig(): (config: SliceConfig)
    ensures config.sliceSearchPaths == [] && config.includeBuiltInSliceFiles
  {
    SliceConfig([], true)
  }

  /** One search path as a reference: absolute as given, relative under the root. */
  function Resolve(root: Str, path: Str): Str {
    if IsAbsolute(path) then path else Join(root, path)
  }

  function ResolveAll(root: Str, paths: seq<Str>): seq<Str> {
    if paths == [] then [] else [Resolve(root, paths[0])] + ResolveAll(root, paths[1..])
  }

  /** The user's paths map one to one, in order, onto the resolved list. */
  lemma {:induction false} ResolveAllAt(root: Str, paths: seq<Str>)
    ensures |ResolveAll(root, paths)| == |paths|
    ensures forall i | 0 <= i < |paths| :: ResolveAll(root, paths)[i] == Resolve(root, paths[i])
  {
    if paths != [] {
      ResolveAllAt(root, paths[1..]);
      assert forall i | 1 <= i < |paths| :: paths[1..][i - 1] == paths[i];
    }
  }

  /** The reference list `compute_slice_options` produces. */
  function References(server: ServerConfig, config: SliceConfig): (r: seq<Str>)
    ensures var paths := config.sliceSearchPaths;
      && |r| == (if paths == [] then 1 else |paths|) + (if config.includeBuiltInSliceFiles then 1 else 0)
      && (forall i | 0 <= i < |paths| :: IsAbsolute(paths[i]) ==> r[i] == paths[i])
      && (forall i | 0 <= i < |paths| :: !IsAbsolute(paths[i]) ==> r[i] == Join(server.workspaceRootPath, paths[i]))
      && (paths == [] ==> r[0] == server.workspaceRootPath)
      && (config.includeBuiltInSliceFiles ==> r[|r| - 1] == server.builtInSlicePath)
  {
    var root := server.workspaceRootPath;
    ResolveAllAt(root, config.sliceSearchPaths);
    (if config.sliceSearchPaths == [] then [root] else ResolveAll(root, config.sliceSearchPaths))
      + (if config.includeBuiltInSliceFiles then [server.builtInSlicePath] else [])
  }

  /** `compute_slice_options`: push every search path (absolute as is, relative
      joined to the workspace root), fall back to the root when nothing was pushed,
      then push the built-in path when enabled. */
  method ComputeSliceOptions(server: ServerConfig, config: SliceConfig) returns (options: SliceOptions)
    ensures options.references == References(server, config)
  {
    var references: seq<Str> := [];
    var rootPath := server.workspaceRootPath;
    for i := 0 to |config.sliceSearchPaths|
      invariant |references| == i
      invariant forall k | 0 <= k < i :: references[k] == Resolve(rootPath, config.sliceSearchPaths[k])
    {
      var path := config.sliceSearchPaths[i];
      var absolutePath := if IsAbsolute(path) then path else Join(rootPath, path);
      references := references + [absolutePath];
    }
    ResolveAllAt(rootPath, config.sliceSearchPaths);
    if references == [] {
      references := references + [rootPath];
    }
    if config.includeBuiltInSliceFiles {
      references := references + [server.builtInSlicePath];
    }
    options := SliceOptions(references);
  }

  /** With the default set configuration the compiler searches the workspace root
      and then the built-in files: a root `/ws` and built-ins `/builtins` give
      `["/ws", "/builtins"]`. */
  lemma DefaultConfigSearchesRootThenBuiltIns(server: ServerConfig)
    ensures References(server, DefaultSliceConfig()) == [server.workspaceRootPath, server.builtInSlicePath]
  {
  }

  /** Every reference made from a relative search path lies, component-wise,
      under the workspace root. */
  lemma RelativeReferencesUnderRoot(server: ServerConfig, config: SliceConfig, i: nat)
    requires i < |config.sliceSearchPaths| && !IsAbsolute(config.sliceSearchPaths[i])
    ensures StartsWith(References(server, config)[i], server.workspaceRootPath)
  {
    JoinStartsWithBase(server.workspaceRootPath, config.sliceSearchPaths[i]);
  }
}
