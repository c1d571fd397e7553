// The demo bundle boundary (apps/web/vite.demo-boundary.ts): which chunks the demo entry loads, and which modules
// they hold.

module DemoBoundary {
  import opened Options
  import opened Text

  datatype Chunk = Chunk(fileName: string, imports: seq<string>, modules: seq<string>)

  datatype Boundary =
    | NoEntry
    | MissingChunk(fileName: string)
    | Inspected(demoChunks: set<string>, modules: set<string>, forbidden: set<string>)

  const ENTRY_SUFFIX := "/apps/web/src/demo/DemoSpaceApp.tsx"
  const FORBIDDEN_SUFFIXES: set<string> :=
    {"/apps/web/src/live-api.ts", "/apps/web/src/live/LiveSpaceApp.tsx", "/apps/web/src/live/live-runtime.ts"}

  predicate EndsWith(s: string, suffix: string)
    ensures EndsWith(s, suffix) <==> exists front :: s == front + suffix
  {
    assert |suffix| <= |s| ==> s == s[..|s| - |suffix|] + s[|s| - |suffix|..];
    |suffix| <= |s| && s[|s| - |suffix|..] == suffix
  }

  function Slashes(s: string): (t: string)
    ensures |t| == |s|
    ensures forall i :: 0 <= i < |s| ==> t[i] == if s[i] == '\\' then '/' else s[i]
  {
    if s == "" then "" else [if s[0] == '\\' then '/' else s[0]] + Slashes(s[1..])
  }

  // Backslashes become slashes; a query is cut off.
  function Normalize(moduleId: string): (t: string)
    ensures |t| <= |moduleId| && (|t| < |moduleId| ==> moduleId[|t|] == '?')
    ensures forall i :: 0 <= i < |t| ==>
              moduleId[i] != '?' && t[i] == if moduleId[i] == '\\' then '/' else moduleId[i]
  {
    var slashed := Slashes(moduleId);
    slashed[..IndexOf(slashed, '?')]
  }

  predicate IsEntry(chunk: Chunk) {
    exists m <- chunk.modules :: EndsWith(Normalize(m), ENTRY_SUFFIX)
  }

  function ModulesOf(chunk: Chunk): set<string> {
    set m | m in chunk.modules :: Normalize(m)
  }

  predicate IsForbidden(m: string) {
    exists suffix <- FORBIDDEN_SUFFIXES :: EndsWith(m, suffix)
  }

  // The demo's entry, and what it must not load.
  lemma EntryAndForbiddenAre(chunk: Chunk, m: string)
    ensures IsEntry(chunk) <==>
              exists id <- chunk.modules ::
                exists front :: Normalize(id) == front + "/apps/web/src/demo/DemoSpaceApp.tsx"
    ensures IsForbidden(m) <==>
              exists front: string ::
                || m == front + "/apps/web/src/live-api.ts" || m == front + "/apps/web/src/live/LiveSpaceApp.tsx"
                || m == front + "/apps/web/src/live/live-runtime.ts"
  {}

  function FindEntry(chunks: seq<Chunk>): (entry: Option<Chunk>)
    ensures entry.Some? ==> exists i ::
              && 0 <= i < |chunks| && chunks[i] == entry.value && IsEntry(chunks[i])
              && forall k :: 0 <= k < i ==> !IsEntry(chunks[k])
    ensures entry.None? ==> forall c <- chunks :: !IsEntry(c)
  {
    if chunks == [] then None else if IsEntry(chunks[0]) then Some(chunks[0]) else FindEntry(chunks[1..])
  }

  ghost predicate IsLastNamed(chunks: seq<Chunk>, name: string, c: Chunk) {
    exists i ::
      && 0 <= i < |chunks| && chunks[i] == c && c.fileName == name
      && forall k :: i < k < |chunks| ==> chunks[k].fileName != name
  }

  // The last chunk of each name.
  function ByName(chunks: seq<Chunk>): (graph: map<string, Chunk>)
    ensures forall name :: name in graph <==> exists c <- chunks :: c.fileName == name
    ensures forall name <- graph :: IsLastNamed(chunks, name, graph[name])
  {
    assert chunks != [] ==> chunks == chunks[..|chunks| - 1] + [chunks[|chunks| - 1]];
    if chunks == [] then map[]
    else ByName(chunks[..|chunks| - 1])[chunks[|chunks| - 1].fileName := chunks[|chunks| - 1]]
  }

  type Graph = map<string, Chunk>

  // A chain of n static imports leads from one chunk to the other.
  ghost predicate Leads(graph: Graph, start: string, file: string, n: nat)
    decreases n
  {
    if n == 0 then file == start
    else exists importer :: Leads(graph, start, importer, n - 1) && importer in graph && file in graph[importer].imports
  }

  ghost predicate IsReachable(graph: Graph, start: string, file: string) {
    exists n: nat :: Leads(graph, start, file, n)
  }

  lemma ImportsAreReachable(graph: Graph, start: string, importer: string, file: string)
    requires IsReachable(graph, start, importer) && importer in graph && file in graph[importer].imports
    ensures IsReachable(graph, start, file)
  {
    var n: nat :| Leads(graph, start, importer, n);
    assert Leads(graph, start, file, n + 1);
  }

  // A set that holds the start and all imports of its members holds everything reachable.
  ghost predicate IsClosed(graph: Graph, start: string, files: set<string>) {
    && start in files && files <= graph.Keys
    && forall importer <- files, file :: file in graph[importer].imports ==> file in files
  }

  lemma {:induction false} ClosedHoldsReachable(graph: Graph, start: string, files: set<string>, file: string, n: nat)
    requires IsClosed(graph, start, files) && Leads(graph, start, file, n)
    ensures file in files
    decreases n
  {
    if n > 0 {
      var importer :| Leads(graph, start, importer, n - 1) && importer in graph && file in graph[importer].imports;
      ClosedHoldsReachable(graph, start, files, importer, n - 1);
    }
  }

  // What the worklist has done: everything seen is reachable, and what is imported was visited or is pending.
  ghost predicate IsProgress(graph: Graph, start: string, visited: set<string>, pending: seq<string>,
                             modules: set<string>) {
    && visited <= graph.Keys && (start in visited || start in pending)
    && (forall file <- visited :: IsReachable(graph, start, file))
    && (forall file <- pending :: IsReachable(graph, start, file))
    && (forall importer <- visited, file :: file in graph[importer].imports ==> file in visited || file in pending)
    && (forall m :: m in modules <==> exists file <- visited :: m in ModulesOf(graph[file]))
  }

  lemma Visit(graph: Graph, start: string, visited: set<string>, pending: seq<string>, modules: set<string>)
    requires IsProgress(graph, start, visited, pending, modules) && pending != []
    requires pending[0] !in visited && pending[0] in graph
    ensures IsProgress(graph, start, visited + {pending[0]}, pending[1..] + graph[pending[0]].imports,
                       modules + ModulesOf(graph[pending[0]]))
  {
    hide IsReachable, ModulesOf;
    var file := pending[0];
    forall next | next in graph[file].imports ensures IsReachable(graph, start, next) {
      ImportsAreReachable(graph, start, file, next);
    }
    assert pending == [file] + pending[1..];
  }

  lemma Skip(graph: Graph, start: string, visited: set<string>, pending: seq<string>, modules: set<string>)
    requires IsProgress(graph, start, visited, pending, modules) && pending != [] && pending[0] in visited
    ensures IsProgress(graph, start, visited, pending[1..], modules)
  {
    hide IsReachable, ModulesOf;
    assert pending == [pending[0]] + pending[1..];
  }

  lemma Finished(graph: Graph, start: string, visited: set<string>, modules: set<string>)
    requires IsProgress(graph, start, visited, [], modules)
    ensures forall file :: file in visited <==> IsReachable(graph, start, file)
  {
    forall file | IsReachable(graph, start, file) ensures file in visited {
      var n: nat :| Leads(graph, start, file, n);
      ClosedHoldsReachable(graph, start, visited, file, n);
    }
  }

  // On any import graph, cycles included: fails exactly when there is no entry or a reachable import is missing;
  // otherwise visits exactly the reachable chunks, and lists a forbidden module exactly when one of them contains it.
  method InspectDemoBundleBoundary(chunks: seq<Chunk>) returns (result: Boundary)
    ensures result.NoEntry? <==> forall c <- chunks :: !IsEntry(c)
    ensures FindEntry(chunks).Some? ==>
              var graph, start := ByName(chunks), FindEntry(chunks).value.fileName;
              && (result.MissingChunk? <==> exists file :: IsReachable(graph, start, file) && file !in graph)
              && (result.MissingChunk? ==> IsReachable(graph, start, result.fileName) && result.fileName !in graph)
              && (result.Inspected? ==>
                    && (forall file :: file in result.demoChunks <==> IsReachable(graph, start, file))
                    && (forall m :: m in result.modules <==>
                          exists file <- result.demoChunks :: file in graph && m in ModulesOf(graph[file]))
                    && (forall m :: m in result.forbidden <==> m in result.modules && IsForbidden(m)))
  {
    hide ModulesOf, IsForbidden, IsEntry, IsReachable;
    var graph: Graph := map[];
    for i := 0 to |chunks|
      invariant graph == ByName(chunks[..i])
    {
      assert chunks[..i + 1][..i] == chunks[..i];
      graph := graph[chunks[i].fileName := chunks[i]];
    }
    assert chunks[..|chunks|] == chunks;
    var entry := FindEntry(chunks);
    if entry.None? { return NoEntry; }
    assert entry.value in chunks && IsEntry(entry.value);
    var start := entry.value.fileName;
    var pending, visited, modules := [start], {}, {};
    StartIsReachable(graph, start);
    while pending != []
      invariant IsProgress(graph, start, visited, pending, modules)
      decreases graph.Keys - visited, |pending|
    {
      var fileName := pending[0];
      if fileName in visited {
        Skip(graph, start, visited, pending, modules);
        pending := pending[1..];
        continue;
      }
      if fileName !in graph { return MissingChunk(fileName); }
      Visit(graph, start, visited, pending, modules);
      assert fileName in graph.Keys - visited;
      visited := visited + {fileName};
      modules := modules + ModulesOf(graph[fileName]);
      pending := pending[1..] + graph[fileName].imports;
    }
    Finished(graph, start, visited, modules);
    result := Inspected(visited, modules, set m | m in modules && IsForbidden(m));
  }

  lemma StartIsReachable(graph: Graph, start: string)
    ensures IsReachable(graph, start, start) && IsProgress(graph, start, {}, [start], {})
  {
    assert Leads(graph, start, start, 0);
  }
}
