/** The import graph: specifier resolution with its per-file cache, edges, cycles and reachability. */
module Imports {
  import opened Graphs
  import opened ImportCycles
  import opened Options
  import opened Orders

  /** Resolution evidence that a parser may supply for a specifier. */
  datatype ModuleResolution = Internal(filePath: string) | External | Unresolved(reason: string)

  /** A source with the specifiers it mentions and the evidence its parser has, if any. */
  datatype EdgeSource = EdgeSource(filePath: string, specifiers: seq<string>, evidence: map<string, ModuleResolution>)

  /** The path arithmetic of the platform, taken as given. */
  datatype PathOps = PathOps(resolveFrom: (string, string) -> string, extname: string -> string)

  datatype Failure = Failure(filePath: string, reason: string)

  const SUPPORTED: seq<string> := [".ts", ".tsx", ".mts", ".cts"]
  const KNOWN_EXTENSIONS: set<string> := {".ts", ".tsx", ".mts", ".cts", ".js", ".mjs", ".cjs"}
  const EXTENSION_SWAPS: map<string, string> := map[".js" := ".ts", ".mjs" := ".mts", ".cjs" := ".cts"]

  function WithSuffixes(base: string, suffixes: seq<string>): seq<string> {
    seq(|suffixes|, i requires 0 <= i < |suffixes| => base + suffixes[i])
  }

  function DropEnd(s: string, n: nat): string {
    if n <= |s| then s[..|s| - n] else ""
  }

  function CandidatePaths(ops: PathOps, base: string): seq<string> {
    var extension := ops.extname(base);
    if extension !in KNOWN_EXTENSIONS then
      WithSuffixes(base, SUPPORTED) + WithSuffixes(base + "/index", SUPPORTED)
    else if extension in EXTENSION_SWAPS then
      [base, DropEnd(base, |extension|) + EXTENSION_SWAPS[extension]]
    else
      [base]
  }

  predicate IsRelative(specifier: string) {
    "./" <= specifier || "../" <= specifier
  }

  function FirstIn(candidates: seq<string>, analyzed: set<string>): Option<string> {
    if candidates == [] then None
    else if candidates[0] in analyzed then Some(candidates[0])
    else FirstIn(candidates[1..], analyzed)
  }

  function ResolveSpecifier(ops: PathOps, fromFile: string, specifier: string, analyzed: set<string>): Option<string> {
    if !IsRelative(specifier) then None
    else FirstIn(CandidatePaths(ops, ops.resolveFrom(fromFile, specifier)), analyzed)
  }

  // ---- what the graph is, apart from how it is built ----

  function Evidence(source: Option<EdgeSource>, specifier: string): Option<ModuleResolution> {
    if source.Some? && specifier in source.value.evidence then Some(source.value.evidence[specifier]) else None
  }

  /** The uncached resolution of one specifier. */
  function Resolution(ops: PathOps, source: Option<EdgeSource>, fromFile: string, specifier: string,
                      analyzed: set<string>): Option<string> {
    var evidence := Evidence(source, specifier);
    if evidence.Some? && evidence.value.Internal? then
      if evidence.value.filePath in analyzed then Some(evidence.value.filePath) else None
    else
      ResolveSpecifier(ops, fromFile, specifier, analyzed)
  }

  /** The program's truth test on a resolved path: present and not empty. */
  predicate Truthy(target: Option<string>) {
    target.Some? && target.value != ""
  }

  /** `f` imports `t`: some specifier of `f` resolves to the other file `t`. */
  ghost predicate ImportsFile(ops: PathOps, source: EdgeSource, analyzed: set<string>, t: string) {
    && t != source.filePath && t != ""
    && exists i :: 0 <= i < |source.specifiers| && ResolvesTo(ops, source, analyzed, i, t)
  }

  ghost predicate ResolvesTo(ops: PathOps, source: EdgeSource, analyzed: set<string>, i: nat, t: string)
    requires i < |source.specifiers|
  {
    Resolution(ops, Some(source), source.filePath, source.specifiers[i], analyzed) == Some(t)
  }

  lemma {:induction false} FirstInIsAnalyzed(candidates: seq<string>, analyzed: set<string>)
    ensures var r := FirstIn(candidates, analyzed);
            && (r.Some? ==> r.value in analyzed && r.value in candidates)
            && (r.None? ==> forall c :: c in candidates ==> c !in analyzed)
  {
    if candidates != [] {
      FirstInIsAnalyzed(candidates[1..], analyzed);
    }
  }

  lemma ResolutionIsAnalyzed(ops: PathOps, source: Option<EdgeSource>, fromFile: string, specifier: string,
                             analyzed: set<string>)
    ensures var r := Resolution(ops, source, fromFile, specifier, analyzed); r.Some? ==> r.value in analyzed
  {
    FirstInIsAnalyzed(CandidatePaths(ops, ops.resolveFrom(fromFile, specifier)), analyzed);
  }

  /** The edges of one file: the increasing list of the files it imports. */
  ghost predicate AreEdgesOf(ops: PathOps, source: EdgeSource, analyzed: set<string>, targets: seq<string>) {
    Increasing(StringLess, targets) && forall t :: t in targets <==> ImportsFile(ops, source, analyzed, t)
  }

  /** The failure that one specifier of a file gives rise to, if any. */
  function FailureOf(ops: PathOps, source: EdgeSource, specifier: string, analyzed: set<string>): Option<Failure> {
    var evidence := Evidence(Some(source), specifier);
    if evidence.None? then None
    else match evidence.value
      case Internal(p) =>
        if p in analyzed then None
        else Some(Failure(source.filePath, "internal module \"" + specifier + "\" resolves outside the analyzed file set"))
      case External => None
      case Unresolved(reason) =>
        if Truthy(ResolveSpecifier(ops, source.filePath, specifier, analyzed)) then None
        else Some(Failure(source.filePath, reason))
  }

  /** The failures of the first occurrences of the specifiers, in order. */
  function FailuresOf(ops: PathOps, source: EdgeSource, specifiers: seq<string>, analyzed: set<string>): seq<Failure> {
    if specifiers == [] then []
    else
      var init, last := specifiers[..|specifiers| - 1], specifiers[|specifiers| - 1];
      var failure := FailureOf(ops, source, last, analyzed);
      FailuresOf(ops, source, init, analyzed) + if last !in init && failure.Some? then [failure.value] else []
  }

  // ---- the scan of one file ----

  /** The cache of a file holds the resolution of each of its specifiers, and of nothing else. */
  ghost predicate IsCacheOf(ops: PathOps, source: EdgeSource, filePath: string, analyzed: set<string>,
                            cache: map<string, Option<string>>)
  {
    && (forall s :: s in cache <==> s in source.specifiers)
    && (forall s :: s in cache ==> cache[s] == Resolution(ops, Some(source), filePath, s, analyzed))
  }

  ghost predicate Resolved(resolutions: map<string, Option<string>>, t: string) {
    exists s :: s in resolutions && resolutions[s] == Some(t)
  }

  /** What the loop over a file's specifiers has collected so far. */
  ghost predicate Scanned(ops: PathOps, source: EdgeSource, analyzed: set<string>, i: nat,
                          resolutions: map<string, Option<string>>, targets: seq<string>)
    requires i <= |source.specifiers|
  {
    && (forall s :: s in resolutions <==> s in source.specifiers[..i])
    && (forall s :: s in resolutions ==> resolutions[s] == Resolution(ops, Some(source), source.filePath, s, analyzed))
    && Distinct(targets)
    && (forall t :: t in targets <==> (t != source.filePath && t != "" && Resolved(resolutions, t)))
  }

  /** Resolve one specifier and note a failure, as the scan of a file does. */
  method ResolveOne(ops: PathOps, source: EdgeSource, specifier: string, analyzed: set<string>)
    returns (target: Option<string>, failure: Option<Failure>)
    ensures target == Resolution(ops, Some(source), source.filePath, specifier, analyzed)
    ensures failure == FailureOf(ops, source, specifier, analyzed)
  {
    var evidence := Evidence(Some(source), specifier);
    failure := None;
    target :=
      if evidence.Some? && evidence.value.Internal? && evidence.value.filePath in analyzed
      then Some(evidence.value.filePath)
      else ResolveSpecifier(ops, source.filePath, specifier, analyzed);
    if evidence.Some? && evidence.value.Internal? && evidence.value.filePath !in analyzed {
      failure := Some(Failure(source.filePath,
        "internal module \"" + specifier + "\" resolves outside the analyzed file set"));
      target := None;
    } else if evidence.Some? && evidence.value.Unresolved? && !Truthy(target) {
      failure := Some(Failure(source.filePath, evidence.value.reason));
    }
  }

  method ScanSource(ops: PathOps, source: EdgeSource, analyzed: set<string>)
    returns (resolutions: map<string, Option<string>>, edges: seq<string>, failures: seq<Failure>)
    ensures IsCacheOf(ops, source, source.filePath, analyzed, resolutions)
    ensures AreEdgesOf(ops, source, analyzed, edges)
    ensures failures == FailuresOf(ops, source, source.specifiers, analyzed)
  {
    hide Resolution, FailureOf, ImportsFile, Scanned, Increasing;
    var targets: seq<string> := [];
    resolutions, failures := map[], [];
    ScanNothing(ops, source, analyzed);
    for i := 0 to |source.specifiers|
      invariant Scanned(ops, source, analyzed, i, resolutions, targets)
      invariant failures == FailuresOf(ops, source, source.specifiers[..i], analyzed)
    {
      var specifier := source.specifiers[i];
      assert source.specifiers[..i + 1] == source.specifiers[..i] + [specifier];
      ScanSeen(ops, source, analyzed, i, resolutions, targets);
      if specifier !in resolutions {
        var target, failure := ResolveOne(ops, source, specifier, analyzed);
        if failure.Some? {
          failures := failures + [failure.value];
        }
        ScanMore(ops, source, analyzed, i, resolutions, targets, target);
        resolutions := resolutions[specifier := target];
        if Truthy(target) && target.value != source.filePath && target.value !in targets {
          targets := targets + [target.value];
        }
      }
    }
    assert source.specifiers[..|source.specifiers|] == source.specifiers;
    ScanComplete(ops, source, analyzed, resolutions, targets);
    SortStrings(targets);
    edges := Sort(StringLess, targets);
  }

  /** A specifier met before is cached, and scanning it again changes nothing. */
  lemma ScanSeen(ops: PathOps, source: EdgeSource, analyzed: set<string>, i: nat,
                 resolutions: map<string, Option<string>>, targets: seq<string>)
    requires i < |source.specifiers| && Scanned(ops, source, analyzed, i, resolutions, targets)
    ensures source.specifiers[i] in resolutions <==> source.specifiers[i] in source.specifiers[..i]
    ensures source.specifiers[i] in resolutions ==> Scanned(ops, source, analyzed, i + 1, resolutions, targets)
  {
    hide Resolution, Resolved;
    assert source.specifiers[..i + 1] == source.specifiers[..i] + [source.specifiers[i]];
  }

  lemma ScanNothing(ops: PathOps, source: EdgeSource, analyzed: set<string>)
    ensures Scanned(ops, source, analyzed, 0, map[], [])
  {
  }

  lemma ScanMore(ops: PathOps, source: EdgeSource, analyzed: set<string>, i: nat,
                 resolutions: map<string, Option<string>>, targets: seq<string>, target: Option<string>)
    requires i < |source.specifiers| && Scanned(ops, source, analyzed, i, resolutions, targets)
    requires source.specifiers[i] !in resolutions
    requires target == Resolution(ops, Some(source), source.filePath, source.specifiers[i], analyzed)
    ensures Scanned(ops, source, analyzed, i + 1, resolutions[source.specifiers[i] := target],
      if Truthy(target) && target.value != source.filePath && target.value !in targets
      then targets + [target.value] else targets)
  {
    hide Resolution;
    var more := resolutions[source.specifiers[i] := target];
    forall t
      ensures Resolved(more, t) <==> Resolved(resolutions, t) || target == Some(t)
    {
      ResolvedMore(resolutions, source.specifiers[i], target, t);
    }
    assert source.specifiers[..i + 1] == source.specifiers[..i] + [source.specifiers[i]];
    hide Resolved;
  }

  lemma ResolvedMore(resolutions: map<string, Option<string>>, s: string, target: Option<string>, t: string)
    requires s !in resolutions
    ensures Resolved(resolutions[s := target], t) <==> Resolved(resolutions, t) || target == Some(t)
  {
    var more := resolutions[s := target];
    if r :| r in resolutions && resolutions[r] == Some(t) {
      assert more[r] == Some(t);
    }
    if target == Some(t) {
      assert more[s] == Some(t);
    }
  }

  lemma ScanComplete(ops: PathOps, source: EdgeSource, analyzed: set<string>,
                     resolutions: map<string, Option<string>>, targets: seq<string>)
    requires Scanned(ops, source, analyzed, |source.specifiers|, resolutions, targets)
    ensures forall t :: t in targets <==> ImportsFile(ops, source, analyzed, t)
    ensures Distinct(targets) && IsCacheOf(ops, source, source.filePath, analyzed, resolutions)
  {
    hide Resolution;
    assert source.specifiers[..|source.specifiers|] == source.specifiers;
    forall t
      ensures t in targets <==> ImportsFile(ops, source, analyzed, t)
    {
      if s :| s in resolutions && resolutions[s] == Some(t) {
        var i :| 0 <= i < |source.specifiers| && source.specifiers[i] == s;
        assert ResolvesTo(ops, source, analyzed, i, t);
      }
      if i :| 0 <= i < |source.specifiers| && ResolvesTo(ops, source, analyzed, i, t) {
        assert source.specifiers[i] in resolutions;
      }
    }
  }

  // ---- the graph ----

  datatype ImportGraph = ImportGraph(
    ops: PathOps,
    files: seq<string>,
    analyzed: set<string>,
    sourceByPath: map<string, EdgeSource>,
    resolvedByFile: map<string, map<string, Option<string>>>,
    failures: seq<Failure>,
    edges: Edges,
    cycleChains: seq<seq<string>>)
  {
    function EdgesOf(filePath: string): seq<string> {
      if filePath in edges then edges[filePath] else []
    }

    function SourceAt(filePath: string): Option<EdgeSource> {
      if filePath in sourceByPath then Some(sourceByPath[filePath]) else None
    }

    /** Resolve one specifier from one file, from the cache when the file mentions it. */
    function Resolve(fromFile: string, specifier: string): Option<string> {
      if fromFile in resolvedByFile && specifier in resolvedByFile[fromFile] then
        resolvedByFile[fromFile][specifier]
      else
        var evidence := Evidence(SourceAt(fromFile), specifier);
        if evidence.Some? && evidence.value.Internal? then
          if evidence.value.filePath in analyzed then Some(evidence.value.filePath) else None
        else
          ResolveSpecifier(ops, fromFile, specifier, analyzed)
    }
  }

  function Paths(sources: seq<EdgeSource>): seq<string> {
    seq(|sources|, i requires 0 <= i < |sources| => sources[i].filePath)
  }

  /** The sources by path; of several sources with one path the last counts. */
  function ByPath(sources: seq<EdgeSource>): map<string, EdgeSource> {
    if sources == [] then map[]
    else
      var last := sources[|sources| - 1];
      ByPath(sources[..|sources| - 1])[last.filePath := last]
  }

  lemma {:induction false} ByPathExact(sources: seq<EdgeSource>)
    ensures forall f :: f in ByPath(sources) <==> f in Paths(sources)
    ensures forall f :: f in ByPath(sources) ==> ByPath(sources)[f] in sources && ByPath(sources)[f].filePath == f
  {
    if sources != [] {
      var init, last := sources[..|sources| - 1], sources[|sources| - 1];
      ByPathExact(init);
      assert sources == init + [last];
      assert Paths(sources) == Paths(init) + [last.filePath];
    }
  }

  function AllFailures(ops: PathOps, files: seq<string>, sources: map<string, EdgeSource>, analyzed: set<string>):
    seq<Failure>
  {
    if files == [] then []
    else
      var last := files[|files| - 1];
      AllFailures(ops, files[..|files| - 1], sources, analyzed)
      + if last in sources then FailuresOf(ops, sources[last], sources[last].specifiers, analyzed) else []
  }

  /** The graph of the sources, whatever way it was built. */
  ghost predicate IsGraphOf(ops: PathOps, sources: seq<EdgeSource>, graph: ImportGraph) {
    && graph.ops == ops
    && graph.files == Sort(StringLess, Paths(sources))
    && (forall f :: f in graph.analyzed <==> f in Paths(sources))
    && graph.sourceByPath == ByPath(sources)
    && (forall f :: f in graph.edges <==> f in Paths(sources))
    && (forall f :: f in graph.edges && f in graph.sourceByPath ==>
          AreEdgesOf(ops, graph.sourceByPath[f], graph.analyzed, graph.edges[f]))
    && (forall f :: f in graph.resolvedByFile <==> f in Paths(sources))
    && (forall f :: f in graph.resolvedByFile && f in graph.sourceByPath ==>
          IsCacheOf(ops, graph.sourceByPath[f], f, graph.analyzed, graph.resolvedByFile[f]))
    && graph.failures == AllFailures(ops, graph.files, graph.sourceByPath, graph.analyzed)
    && AreChains(graph.edges, graph.cycleChains)
  }

  /** What the scan stores for one file. */
  ghost predicate IsScanOf(ops: PathOps, source: EdgeSource, f: string, analyzed: set<string>, targets: seq<string>,
                           cache: map<string, Option<string>>)
  {
    AreEdgesOf(ops, source, analyzed, targets) && IsCacheOf(ops, source, f, analyzed, cache)
  }

  /** What the scan of the first `i` files has stored. */
  ghost predicate ScannedFiles(ops: PathOps, files: seq<string>, i: nat, analyzed: set<string>,
                               sources: map<string, EdgeSource>, edges: Edges,
                               resolved: map<string, map<string, Option<string>>>)
    requires i <= |files|
  {
    && (forall f :: f in edges <==> f in files[..i])
    && edges.Keys == resolved.Keys
    && (forall f :: f in edges ==> f in sources && IsScanOf(ops, sources[f], f, analyzed, edges[f], resolved[f]))
  }

  method ScanFiles(ops: PathOps, files: seq<string>, analyzed: set<string>, sources: map<string, EdgeSource>)
    returns (edges: Edges, resolved: map<string, map<string, Option<string>>>, failures: seq<Failure>)
    requires forall f :: f in files ==> f in sources && sources[f].filePath == f
    ensures ScannedFiles(ops, files, |files|, analyzed, sources, edges, resolved)
    ensures failures == AllFailures(ops, files, sources, analyzed)
  {
    hide AreEdgesOf, IsCacheOf, FailuresOf;
    edges, resolved, failures := map[], map[], [];
    for i := 0 to |files|
      invariant ScannedFiles(ops, files, i, analyzed, sources, edges, resolved)
      invariant failures == AllFailures(ops, files[..i], sources, analyzed)
    {
      var file := files[i];
      assert files[..i + 1] == files[..i] + [file];
      var resolutions, targets, more := ScanSource(ops, sources[file], analyzed);
      assert IsScanOf(ops, sources[file], file, analyzed, targets, resolutions);
      hide IsScanOf;
      failures := failures + more;
      resolved := resolved[file := resolutions];
      edges := edges[file := targets];
    }
    assert files[..|files|] == files;
  }

  method BuildImportGraph(ops: PathOps, sources: seq<EdgeSource>) returns (graph: ImportGraph)
    ensures IsGraphOf(ops, sources, graph)
  {
    hide AreEdgesOf, IsCacheOf, AllFailures, AreChains, Closed, NoSelfEdges;
    var files := Sort(StringLess, Paths(sources));
    SortedFiles(sources);
    ByPathExact(sources);
    var analyzed := set f <- files;
    var sourceByPath := ByPath(sources);
    var edges, resolved, failures := ScanFiles(ops, files, analyzed, sourceByPath);
    assert files[..|files|] == files;
    EdgesClosed(ops, analyzed, sourceByPath, edges);
    var chains := FindCycleChains(files, edges);
    graph := ImportGraph(ops, files, analyzed, sourceByPath, resolved, failures, edges, chains);
  }

  lemma SortedFiles(sources: seq<EdgeSource>)
    ensures forall f :: f in Sort(StringLess, Paths(sources)) <==> f in Paths(sources)
  {
    StringLessIsTotal();
    SortIsStable(StringLess, Paths(sources));
    SameElements(Paths(sources), Sort(StringLess, Paths(sources)));
  }

  /** Edges stay inside the analyzed files and never lead from a file to itself. */
  lemma EdgesClosed(ops: PathOps, analyzed: set<string>, sources: map<string, EdgeSource>, edges: Edges)
    requires edges.Keys == analyzed
    requires forall f :: f in edges ==> f in sources && sources[f].filePath == f
                                        && AreEdgesOf(ops, sources[f], analyzed, edges[f])
    ensures Closed(edges) && NoSelfEdges(edges)
  {
    hide Resolution, Increasing;
    forall u, v | Edge(edges, u, v)
      ensures v in edges && u != v
    {
      assert ImportsFile(ops, sources[u], analyzed, v);
      var i :| 0 <= i < |sources[u].specifiers| && ResolvesTo(ops, sources[u], analyzed, i, v);
      ResolutionIsAnalyzed(ops, Some(sources[u]), u, sources[u].specifiers[i], analyzed);
    }
  }

  /** The cached `resolve` gives, for every file and specifier, what the uncached resolution gives. */
  lemma ResolveAgrees(ops: PathOps, sources: seq<EdgeSource>, graph: ImportGraph, fromFile: string, specifier: string)
    requires IsGraphOf(ops, sources, graph)
    ensures graph.Resolve(fromFile, specifier)
            == Resolution(ops, graph.SourceAt(fromFile), fromFile, specifier, graph.analyzed)
    ensures graph.Resolve(fromFile, specifier).Some? ==> graph.Resolve(fromFile, specifier).value in graph.files
  {
    ByPathExact(sources);
    hide AreEdgesOf, AreChains, AllFailures;
    ResolutionIsAnalyzed(ops, graph.SourceAt(fromFile), fromFile, specifier, graph.analyzed);
    SortedFiles(sources);
    hide ResolveSpecifier;
  }

  /** The edges of a file are the increasing list of what its specifiers resolve to, without the file itself. */
  lemma EdgesAreResolutions(ops: PathOps, sources: seq<EdgeSource>, graph: ImportGraph, f: string, t: string)
    requires IsGraphOf(ops, sources, graph) && f in graph.sourceByPath
    ensures Increasing(StringLess, graph.EdgesOf(f))
    ensures t in graph.EdgesOf(f)
            <==> t != f && t != "" && exists s :: s in graph.sourceByPath[f].specifiers && graph.Resolve(f, s) == Some(t)
    ensures t in graph.EdgesOf(f) ==> t in graph.files
  {
    hide AreChains, AllFailures, Resolution, Increasing;
    ByPathExact(sources);
    var source := graph.sourceByPath[f];
    assert AreEdgesOf(ops, source, graph.analyzed, graph.edges[f]);
    hide IsGraphOf;
    forall s
      ensures graph.Resolve(f, s) == Resolution(ops, Some(source), f, s, graph.analyzed)
      ensures graph.Resolve(f, s).Some? ==> graph.Resolve(f, s).value in graph.files
    {
      ResolveAgrees(ops, sources, graph, f, s);
    }
    if t in graph.EdgesOf(f) {
      var i :| 0 <= i < |source.specifiers| && ResolvesTo(ops, source, graph.analyzed, i, t);
      assert source.specifiers[i] in source.specifiers;
    }
    if s :| s in source.specifiers && graph.Resolve(f, s) == Some(t) {
      var i :| 0 <= i < |source.specifiers| && source.specifiers[i] == s;
      assert ResolvesTo(ops, source, graph.analyzed, i, t);
    }
  }

  // ---- order independence ----

  /** Two lists of sources that differ in the order of files and of the specifiers inside a file only. */
  ghost predicate SameSources(a: seq<EdgeSource>, b: seq<EdgeSource>) {
    && Distinct(Paths(a)) && Distinct(Paths(b))
    && (forall f :: f in Paths(a) <==> f in Paths(b))
    && forall i, j :: 0 <= i < |a| && 0 <= j < |b| && a[i].filePath == b[j].filePath ==>
      a[i].evidence == b[j].evidence && forall s :: s in a[i].specifiers <==> s in b[j].specifiers
  }

  /** Files, edges and cycles depend on the graph alone. */
  lemma OrderIsIrrelevant(ops: PathOps, a: seq<EdgeSource>, b: seq<EdgeSource>, g: ImportGraph, h: ImportGraph)
    requires SameSources(a, b) && IsGraphOf(ops, a, g) && IsGraphOf(ops, b, h)
    ensures g.files == h.files && g.edges == h.edges && g.cycleChains == h.cycleChains
  {
    GraphParts(ops, a, g);
    GraphParts(ops, b, h);
    hide IsGraphOf, AreChains, SameSources, HasEdges;
    SameFiles(a, b);
    forall f
      ensures f in g.analyzed <==> f in h.analyzed
    {
      assert f in Paths(a) <==> f in Paths(b);
    }
    assert g.analyzed == h.analyzed;
    SameEdgeMaps(ops, a, b, g.analyzed, g.edges, h.edges);
    ChainsDetermined(g.edges, g.cycleChains, h.cycleChains);
  }

  /** `edges` maps every path of the sources to the edges of its source. */
  ghost predicate HasEdges(ops: PathOps, sources: seq<EdgeSource>, analyzed: set<string>, edges: Edges) {
    && edges.Keys == ByPath(sources).Keys
    && forall f :: f in edges ==> AreEdgesOf(ops, ByPath(sources)[f], analyzed, edges[f])
  }

  lemma GraphParts(ops: PathOps, sources: seq<EdgeSource>, g: ImportGraph)
    requires IsGraphOf(ops, sources, g)
    ensures g.files == Sort(StringLess, Paths(sources)) && AreChains(g.edges, g.cycleChains)
    ensures HasEdges(ops, sources, g.analyzed, g.edges)
    ensures forall f :: f in g.analyzed <==> f in Paths(sources)
  {
    hide AreChains, AllFailures, Resolution, AreEdgesOf;
    ByPathExact(sources);
  }

  lemma SameEdgeMaps(ops: PathOps, a: seq<EdgeSource>, b: seq<EdgeSource>, analyzed: set<string>, p: Edges, q: Edges)
    requires SameSources(a, b) && HasEdges(ops, a, analyzed, p) && HasEdges(ops, b, analyzed, q)
    ensures p == q
  {
    hide AreEdgesOf, Distinct;
    ByPathExact(a);
    ByPathExact(b);
    assert p.Keys == q.Keys by {
      hide HasEdges;
      assert forall f :: f in ByPath(a) <==> f in ByPath(b);
    }
    hide SameSources;
    forall f | f in p
      ensures p[f] == q[f]
    {
      SameEdges(ops, a, b, f, analyzed, p[f], q[f]);
    }
  }

  lemma SameFiles(a: seq<EdgeSource>, b: seq<EdgeSource>)
    requires SameSources(a, b)
    ensures Sort(StringLess, Paths(a)) == Sort(StringLess, Paths(b))
    ensures forall f :: f in Paths(a) <==> f in Paths(b)
  {
    hide Increasing, WeakOrder;
    StringLessIsTotal();
    SortStrings(Paths(a));
    SortStrings(Paths(b));
    forall f
      ensures f in Sort(StringLess, Paths(a)) <==> f in Sort(StringLess, Paths(b))
    {
      assert f in Paths(a) <==> f in Paths(b);
    }
    IncreasingSame(StringLess, Sort(StringLess, Paths(a)), Sort(StringLess, Paths(b)));
  }

  lemma SameEdges(ops: PathOps, a: seq<EdgeSource>, b: seq<EdgeSource>, f: string, analyzed: set<string>,
                  p: seq<string>, q: seq<string>)
    requires SameSources(a, b) && f in ByPath(a) && f in ByPath(b)
    requires AreEdgesOf(ops, ByPath(a)[f], analyzed, p) && AreEdgesOf(ops, ByPath(b)[f], analyzed, q)
    ensures p == q
  {
    hide Resolution, Increasing, WeakOrder, Distinct;
    ByPathExact(a);
    ByPathExact(b);
    var s, t := ByPath(a)[f], ByPath(b)[f];
    assert s.evidence == t.evidence && forall x :: x in s.specifiers <==> x in t.specifiers;
    hide SameSources;
    forall x
      ensures x in p <==> x in q
    {
      SameImports(ops, s, t, analyzed, x);
      SameImports(ops, t, s, analyzed, x);
    }
    StringLessIsTotal();
    IncreasingSame(StringLess, p, q);
  }

  lemma SameImports(ops: PathOps, s: EdgeSource, t: EdgeSource, analyzed: set<string>, x: string)
    requires s.filePath == t.filePath && s.evidence == t.evidence
    requires forall y :: y in s.specifiers ==> y in t.specifiers
    ensures ImportsFile(ops, s, analyzed, x) ==> ImportsFile(ops, t, analyzed, x)
  {
    if ImportsFile(ops, s, analyzed, x) {
      var i :| 0 <= i < |s.specifiers| && ResolvesTo(ops, s, analyzed, i, x);
      assert s.specifiers[i] in s.specifiers;
      var j :| 0 <= j < |t.specifiers| && t.specifiers[j] == s.specifiers[i];
      assert ResolvesTo(ops, t, analyzed, j, x);
    }
  }

  // ---- reachability ----

  /** The files that can be reached from the entries, entries included. */
  ghost predicate IsReachable(g: Edges, entries: seq<string>, v: string) {
    exists i :: 0 <= i < |entries| && Reach(g, entries[i], v)
  }

  /** Worklist reachability; duplicates may wait in the queue. */
  method ReachableFrom(entries: seq<string>, edges: Edges) returns (reachable: set<string>)
    ensures forall v :: v in reachable <==> IsReachable(edges, entries, v)
  {
    hide IsReachable;
    reachable := {};
    var queue := entries;
    ghost var all := Everything(entries, edges);
    EntriesReachable(edges, entries);
    while |queue| > 0
      invariant reachable <= all && forall v :: v in queue ==> v in all
      invariant forall v :: v in reachable || v in queue ==> IsReachable(edges, entries, v)
      invariant forall v :: v in entries ==> v in reachable || v in queue
      invariant forall u, v :: u in reachable && Edge(edges, u, v) ==> v in reachable || v in queue
      decreases all - reachable, |queue|
    {
      var node := queue[|queue| - 1];
      assert queue == queue[..|queue| - 1] + [node];
      queue := queue[..|queue| - 1];
      if node !in reachable {
        SuccessorsReachable(edges, entries, node);
        assert node in all - reachable;
        reachable := reachable + {node};
        queue := queue + Succ(edges, node);
      }
    }
    NothingElseReachable(edges, entries, reachable);
  }

  lemma EntriesReachable(g: Edges, entries: seq<string>)
    ensures forall v :: v in entries ==> IsReachable(g, entries, v)
  {
    forall v | v in entries
      ensures IsReachable(g, entries, v)
    {
      ReachSelf(g, v);
    }
  }

  lemma SuccessorsReachable(g: Edges, entries: seq<string>, u: string)
    requires IsReachable(g, entries, u)
    ensures forall v :: v in Succ(g, u) ==> IsReachable(g, entries, v) && v in Everything(entries, g)
  {
    var i :| 0 <= i < |entries| && Reach(g, entries[i], u);
    forall v | v in Succ(g, u)
      ensures IsReachable(g, entries, v)
    {
      ReachThenEdge(g, entries[i], u, v);
    }
  }

  lemma NothingElseReachable(g: Edges, entries: seq<string>, closed: set<string>)
    requires ClosedUnderEdges(g, closed) && forall v :: v in entries ==> v in closed
    ensures forall v :: IsReachable(g, entries, v) ==> v in closed
  {
    forall v | IsReachable(g, entries, v)
      ensures v in closed
    {
      var i :| 0 <= i < |entries| && Reach(g, entries[i], v);
      ReachStaysInside(g, closed, entries[i], v);
    }
  }

  ghost function Everything(entries: seq<string>, edges: Edges): set<string> {
    (set v <- entries) + edges.Keys + set u, v | u in edges && v in edges[u] :: v
  }
}
