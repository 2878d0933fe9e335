/** What the specifiers of a file resolve to, spelled out case by case. */
module ModuleSpecifiers {
  import opened Imports
  import opened Options
  import opened Orders

  /** The text begins with the path of the same or of the parent directory. */
  predicate StartsRelative(specifier: string) {
    (|specifier| >= 2 && specifier[..2] == "./") || (|specifier| >= 3 && specifier[..3] == "../")
  }

  function IfAnalyzed(analyzed: set<string>, path: string, otherwise: Option<string>): Option<string> {
    if path in analyzed then Some(path) else otherwise
  }

  /** The compiled file if it is analyzed, else the source it is compiled from. */
  function CompiledOrSource(analyzed: set<string>, base: string, extension: string, source: string): Option<string> {
    IfAnalyzed(analyzed, base,
      IfAnalyzed(analyzed, (if |extension| <= |base| then base[..|base| - |extension|] else "") + source, None))
  }

  /** The four extensions, one after the other. */
  function WithExtension(analyzed: set<string>, stem: string, otherwise: Option<string>): Option<string> {
    IfAnalyzed(analyzed, stem + ".ts",
      IfAnalyzed(analyzed, stem + ".tsx",
        IfAnalyzed(analyzed, stem + ".mts",
          IfAnalyzed(analyzed, stem + ".cts", otherwise))))
  }

  /** Without evidence: nothing for a package, else by the extension of the resolved path. */
  lemma SpecifierResolvesTo(ops: PathOps, fromFile: string, specifier: string, analyzed: set<string>)
    ensures var base := ops.resolveFrom(fromFile, specifier);
            var r, extension := ResolveSpecifier(ops, fromFile, specifier, analyzed), ops.extname(base);
            && (!StartsRelative(specifier) ==> r == None)
            && (StartsRelative(specifier) ==>
                  r == if extension == ".js" then CompiledOrSource(analyzed, base, ".js", ".ts")
                       else if extension == ".mjs" then CompiledOrSource(analyzed, base, ".mjs", ".mts")
                       else if extension == ".cjs" then CompiledOrSource(analyzed, base, ".cjs", ".cts")
                       else if extension in {".ts", ".tsx", ".mts", ".cts"} then IfAnalyzed(analyzed, base, None)
                       else WithExtension(analyzed, base, WithExtension(analyzed, base + "/index", None)))
  {
    assert StartsRelative(specifier) <==> IsRelative(specifier);
    if IsRelative(specifier) {
      CandidatesTried(ops, ops.resolveFrom(fromFile, specifier), analyzed);
    }
  }

  lemma CandidatesTried(ops: PathOps, base: string, analyzed: set<string>)
    ensures var r, extension := FirstIn(CandidatePaths(ops, base), analyzed), ops.extname(base);
            r == if extension == ".js" then CompiledOrSource(analyzed, base, ".js", ".ts")
                 else if extension == ".mjs" then CompiledOrSource(analyzed, base, ".mjs", ".mts")
                 else if extension == ".cjs" then CompiledOrSource(analyzed, base, ".cjs", ".cts")
                 else if extension in {".ts", ".tsx", ".mts", ".cts"} then IfAnalyzed(analyzed, base, None)
                 else WithExtension(analyzed, base, WithExtension(analyzed, base + "/index", None))
  {
    var extension := ops.extname(base);
    var candidates := CandidatePaths(ops, base);
    if extension in EXTENSION_SWAPS {
      TryTwo(candidates[0], candidates[1], analyzed);
      assert candidates == [candidates[0], candidates[1]];
    } else if extension in KNOWN_EXTENSIONS {
      TryOne(base, analyzed);
    } else {
      SuffixesTried(base, analyzed);
      SuffixesTried(base + "/index", analyzed);
      TryAppend(WithSuffixes(base, SUPPORTED), WithSuffixes(base + "/index", SUPPORTED), analyzed);
    }
  }

  lemma TryOne(a: string, analyzed: set<string>)
    ensures FirstIn([a], analyzed) == IfAnalyzed(analyzed, a, None)
  {
  }

  lemma TryTwo(a: string, b: string, analyzed: set<string>)
    ensures FirstIn([a, b], analyzed) == IfAnalyzed(analyzed, a, IfAnalyzed(analyzed, b, None))
  {
    TryOne(b, analyzed);
    assert [a, b][1..] == [b];
  }

  lemma {:induction false} TryAppend(p: seq<string>, q: seq<string>, analyzed: set<string>)
    ensures FirstIn(p + q, analyzed)
            == if FirstIn(p, analyzed).Some? then FirstIn(p, analyzed) else FirstIn(q, analyzed)
  {
    if p == [] {
      assert p + q == q;
    } else {
      TryAppend(p[1..], q, analyzed);
      assert (p + q)[1..] == p[1..] + q;
    }
  }

  lemma SuffixesTried(stem: string, analyzed: set<string>)
    ensures FirstIn(WithSuffixes(stem, SUPPORTED), analyzed) == WithExtension(analyzed, stem, None)
  {
    var a, b, c, d := stem + ".ts", stem + ".tsx", stem + ".mts", stem + ".cts";
    assert WithSuffixes(stem, SUPPORTED) == [a, b, c, d];
    TryTwo(c, d, analyzed);
    assert [b, c, d][1..] == [c, d] && [a, b, c, d][1..] == [b, c, d];
  }

  // ---- the graph ----

  /** The last source with a path is the one that counts. */
  lemma {:induction false} LastSourceCounts(sources: seq<EdgeSource>, i: nat)
    requires i < |sources| && forall j :: i < j < |sources| ==> sources[j].filePath != sources[i].filePath
    ensures sources[i].filePath in ByPath(sources) && ByPath(sources)[sources[i].filePath] == sources[i]
  {
    if i < |sources| - 1 {
      LastSourceCounts(sources[..|sources| - 1], i);
    }
  }

  /** Evidence of an internal module decides; every other specifier is resolved by its text. */
  lemma ResolveFollowsEvidence(ops: PathOps, sources: seq<EdgeSource>, graph: ImportGraph, f: string, s: string)
    requires IsGraphOf(ops, sources, graph)
    ensures forall x :: x in graph.analyzed <==> exists i :: 0 <= i < |sources| && sources[i].filePath == x
    ensures f in graph.sourceByPath && s in graph.sourceByPath[f].evidence && graph.sourceByPath[f].evidence[s].Internal? ==>
      graph.Resolve(f, s) == IfAnalyzed(graph.analyzed, graph.sourceByPath[f].evidence[s].filePath, None)
    ensures !(f in graph.sourceByPath && s in graph.sourceByPath[f].evidence
              && graph.sourceByPath[f].evidence[s].Internal?) ==>
      graph.Resolve(f, s) == ResolveSpecifier(ops, f, s, graph.analyzed)
  {
    hide Resolution, ResolveSpecifier;
    ResolveAgrees(ops, sources, graph, f, s);
    AnalyzedArePaths(ops, sources, graph);
    hide IsGraphOf;
    if f in graph.sourceByPath {
      ResolutionSpelled(ops, graph.sourceByPath[f], s, graph.analyzed, f);
    } else {
      ResolutionUnknown(ops, f, s, graph.analyzed);
    }
  }

  lemma ResolutionSpelled(ops: PathOps, source: EdgeSource, s: string, analyzed: set<string>, f: string)
    ensures Resolution(ops, Some(source), f, s, analyzed)
         == if s in source.evidence && source.evidence[s].Internal?
            then IfAnalyzed(analyzed, source.evidence[s].filePath, None)
            else ResolveSpecifier(ops, f, s, analyzed)
  {
    hide ResolveSpecifier;
  }

  lemma ResolutionUnknown(ops: PathOps, f: string, s: string, analyzed: set<string>)
    ensures Resolution(ops, None, f, s, analyzed) == ResolveSpecifier(ops, f, s, analyzed)
  {
    hide ResolveSpecifier;
  }

  lemma AnalyzedArePaths(ops: PathOps, sources: seq<EdgeSource>, graph: ImportGraph)
    requires IsGraphOf(ops, sources, graph)
    ensures forall x :: x in graph.analyzed <==> exists i :: 0 <= i < |sources| && sources[i].filePath == x
    ensures graph.ops == ops
  {
    hide AreEdgesOf, IsCacheOf, AllFailures, Sort, ByPath;
    assert |Paths(sources)| == |sources| && forall i :: 0 <= i < |sources| ==> Paths(sources)[i] == sources[i].filePath;
    hide Paths;
    forall x
      ensures x in graph.analyzed <==> exists i :: 0 <= i < |sources| && sources[i].filePath == x
    {
      if x in Paths(sources) {
        var i :| 0 <= i < |sources| && Paths(sources)[i] == x;
        assert sources[i].filePath == x;
      }
      if i :| 0 <= i < |sources| && sources[i].filePath == x {
        assert Paths(sources)[i] == x;
      }
    }
  }

  // ---- failures ----

  /** Why a specifier of a file is recorded as a failure. */
  ghost predicate FailsBecause(ops: PathOps, source: EdgeSource, specifier: string, analyzed: set<string>,
      reason: string)
  {
    && specifier in source.specifiers && specifier in source.evidence
    && match source.evidence[specifier]
       case Internal(p) =>
         p !in analyzed && reason == "internal module \"" + specifier + "\" resolves outside the analyzed file set"
       case External => false
       case Unresolved(why) =>
         var target := ResolveSpecifier(ops, source.filePath, specifier, analyzed);
         reason == why && (target == None || target == Some(""))
  }

  lemma FailureOfExactly(ops: PathOps, source: EdgeSource, s: string, analyzed: set<string>, x: Failure)
    requires s in source.specifiers
    ensures FailureOf(ops, source, s, analyzed) == Some(x)
            <==> x.filePath == source.filePath && FailsBecause(ops, source, s, analyzed, x.reason)
  {
    hide ResolveSpecifier;
  }

  lemma {:induction false} FailuresOfExactly(ops: PathOps, source: EdgeSource, specifiers: seq<string>,
      analyzed: set<string>, x: Failure)
    requires forall s :: s in specifiers ==> s in source.specifiers
    ensures x in FailuresOf(ops, source, specifiers, analyzed)
            <==> x.filePath == source.filePath
                 && exists s :: s in specifiers && FailsBecause(ops, source, s, analyzed, x.reason)
  {
    hide FailureOf, FailsBecause;
    if specifiers != [] {
      var init, last := specifiers[..|specifiers| - 1], specifiers[|specifiers| - 1];
      assert specifiers == init + [last] && last in specifiers;
      FailuresOfExactly(ops, source, init, analyzed, x);
      FailureOfExactly(ops, source, last, analyzed, x);
      var failure := FailureOf(ops, source, last, analyzed);
      var before := FailuresOf(ops, source, init, analyzed);
      if last !in init && failure.Some? {
        assert x in before + [failure.value] <==> x in before || failure == Some(x);
      }
    }
  }

  /** The specifiers among the given ones that fail. */
  function Failing(ops: PathOps, source: EdgeSource, specifiers: seq<string>, analyzed: set<string>): set<string> {
    set s | s in specifiers && FailureOf(ops, source, s, analyzed).Some?
  }

  /** Each failing specifier of a file is recorded once, however often it is mentioned. */
  lemma {:induction false} FailuresOncePerSpecifier(ops: PathOps, source: EdgeSource, specifiers: seq<string>,
      analyzed: set<string>)
    ensures |FailuresOf(ops, source, specifiers, analyzed)| == |Failing(ops, source, specifiers, analyzed)|
  {
    hide FailureOf;
    if specifiers != [] {
      var init, last := specifiers[..|specifiers| - 1], specifiers[|specifiers| - 1];
      assert specifiers == init + [last];
      FailuresOncePerSpecifier(ops, source, init, analyzed);
      var p, q := Failing(ops, source, init, analyzed), Failing(ops, source, specifiers, analyzed);
      if last !in init && FailureOf(ops, source, last, analyzed).Some? {
        assert q == p + {last};
      } else {
        assert q == p;
      }
    }
  }

  lemma {:induction false} AllFailuresExactly(ops: PathOps, files: seq<string>, sources: map<string, EdgeSource>,
      analyzed: set<string>, x: Failure)
    requires forall f :: f in sources ==> sources[f].filePath == f
    ensures x in AllFailures(ops, files, sources, analyzed)
            <==> x.filePath in files && x.filePath in sources
                 && exists s :: FailsBecause(ops, sources[x.filePath], s, analyzed, x.reason)
  {
    hide FailsBecause, FailuresOf;
    if files != [] {
      var init, last := files[..|files| - 1], files[|files| - 1];
      assert files == init + [last];
      AllFailuresExactly(ops, init, sources, analyzed, x);
      if last in sources {
        FailuresOfExactly(ops, sources[last], sources[last].specifiers, analyzed, x);
        FailsMentioned(ops, sources[last], analyzed, x.reason);
      }
    }
  }

  lemma FailsMentioned(ops: PathOps, source: EdgeSource, analyzed: set<string>, reason: string)
    ensures forall s :: FailsBecause(ops, source, s, analyzed, reason) ==> s in source.specifiers
  {
  }

  /** A failure is recorded exactly for the files and reasons for which some specifier fails. */
  lemma FailuresExactly(ops: PathOps, sources: seq<EdgeSource>, graph: ImportGraph, x: Failure)
    requires IsGraphOf(ops, sources, graph)
    ensures x in graph.failures
            <==> x.filePath in graph.sourceByPath
                 && exists s :: FailsBecause(ops, graph.sourceByPath[x.filePath], s, graph.analyzed, x.reason)
  {
    hide AreEdgesOf, ResolveSpecifier, IsCacheOf, FailsBecause;
    ByPathExact(sources);
    SortedFiles(sources);
    AllFailuresExactly(ops, graph.files, graph.sourceByPath, graph.analyzed, x);
  }

  /** File by file, and within a file in the order of the first mentions. */
  lemma {:induction false} FailuresInOrder(ops: PathOps, a: seq<string>, b: seq<string>,
      sources: map<string, EdgeSource>, analyzed: set<string>, f: string)
    ensures AllFailures(ops, a + b, sources, analyzed)
         == AllFailures(ops, a, sources, analyzed) + AllFailures(ops, b, sources, analyzed)
    ensures f in sources ==>
      AllFailures(ops, [f], sources, analyzed) == FailuresOf(ops, sources[f], sources[f].specifiers, analyzed)
  {
    hide FailuresOf;
    assert [f][..0] == [];
    if b == [] {
      assert a + b == a;
    } else {
      var n := |b| - 1;
      assert (a + b)[..|a + b| - 1] == a + b[..n];
      FailuresInOrder(ops, a, b[..n], sources, analyzed, f);
    }
  }

  lemma {:induction false} MentionsInOrder(ops: PathOps, source: EdgeSource, a: seq<string>, b: seq<string>,
      analyzed: set<string>)
    requires forall s :: s in b ==> s !in a
    ensures FailuresOf(ops, source, a + b, analyzed)
         == FailuresOf(ops, source, a, analyzed) + FailuresOf(ops, source, b, analyzed)
  {
    hide FailureOf;
    if b == [] {
      assert a + b == a;
    } else {
      var n := |b| - 1;
      assert (a + b)[..|a + b| - 1] == a + b[..n] && b == b[..n] + [b[n]];
      assert b[n] in a + b[..n] <==> b[n] in b[..n];
      MentionsInOrder(ops, source, a, b[..n], analyzed);
    }
  }

  // ---- sorted output ----

  /** Files and edges come in lexicographic order, edges without repetition. */
  lemma GraphIsSorted(ops: PathOps, sources: seq<EdgeSource>, graph: ImportGraph, f: string)
    requires IsGraphOf(ops, sources, graph)
    ensures multiset(graph.files) == multiset(Paths(sources))
    ensures forall i, j :: 0 <= i < j < |graph.files| ==> !Precedes(graph.files[j], graph.files[i])
    ensures f in graph.sourceByPath ==>
      forall i, j :: 0 <= i < j < |graph.EdgesOf(f)| ==> Precedes(graph.EdgesOf(f)[i], graph.EdgesOf(f)[j])
  {
    StringLessIsTotal();
    SortIsStable(StringLess, Paths(sources));
    hide StringLess, Precedes, WeakOrder;
    forall a, b
      ensures StringLess(a, b) <==> Precedes(a, b)
    {
      StringLessIsLexicographic(a, b);
    }
    if f in graph.sourceByPath {
      EdgesAreResolutions(ops, sources, graph, f, "");
    }
    hide IsGraphOf;
  }
}
