/** The findings of the rule against circular imports: for every chain its members, each at an import of the cycle. */
module CircularImports {
  import opened CycleReports
  import opened Graphs
  import opened GraphRules
  import opened ImportCycles
  import opened Imports
  import opened Options
  import opened SimpleCycles
  import opened Texts

  /**
   * What the rule is given besides the graph: the relative form of a path, the position of the first import or
   * re-export of a specifier in a file if there is one, and the message around the text of a chain.
   */
  datatype Surroundings = Surroundings(
    relative: string -> string, nodeAt: (string, string) -> Option<(int, int)>, message: string -> string)

  /** The first source with the path. */
  function FindSource(sources: seq<EdgeSource>, filePath: string): Option<EdgeSource> {
    if sources == [] then None
    else if sources[0].filePath == filePath then Some(sources[0])
    else FindSource(sources[1..], filePath)
  }

  /** The specifier leads from the file into the cycle. */
  predicate LeadsInto(graph: ImportGraph, filePath: string, specifier: string, members: seq<string>) {
    var target := graph.Resolve(filePath, specifier);
    Truthy(target) && target.value in members
  }

  /** The position of the first of the specifiers that leads into the cycle and has a node. */
  function EdgePosition(graph: ImportGraph, around: Surroundings, filePath: string, specifiers: seq<string>,
      members: seq<string>): Option<(int, int)>
  {
    if specifiers == [] then None
    else if LeadsInto(graph, filePath, specifiers[0], members) && around.nodeAt(filePath, specifiers[0]).Some? then
      around.nodeAt(filePath, specifiers[0])
    else EdgePosition(graph, around, filePath, specifiers[1..], members)
  }

  function ChainText(around: Surroundings, chain: seq<string>): string {
    around.message(JoinTexts(seq(|chain|, i requires 0 <= i < |chain| => around.relative(chain[i])), " -> "))
  }

  function FindingAt(graph: ImportGraph, around: Surroundings, source: EdgeSource, members: seq<string>,
      message: string): ProjectFinding
  {
    var position := GetOr(EdgePosition(graph, around, source.filePath, source.specifiers, members), (1, 1));
    ProjectFinding(source.filePath, Some(position.0), Some(position.1), message)
  }

  /** The findings for the first `n` members of a chain. */
  function MemberFindings(graph: ImportGraph, sources: seq<EdgeSource>, around: Surroundings, members: seq<string>,
      message: string, n: nat): seq<ProjectFinding>
    requires n <= |members|
  {
    if n == 0 then []
    else
      var rest := MemberFindings(graph, sources, around, members, message, n - 1);
      var source := FindSource(sources, members[n - 1]);
      if source.None? then rest else rest + [FindingAt(graph, around, source.value, members, message)]
  }

  function ChainFindings(graph: ImportGraph, sources: seq<EdgeSource>, around: Surroundings, chain: seq<string>):
    seq<ProjectFinding>
  {
    var members := if chain == [] then [] else chain[..|chain| - 1];
    MemberFindings(graph, sources, around, members, ChainText(around, chain), |members|)
  }

  function AllFindings(graph: ImportGraph, sources: seq<EdgeSource>, around: Surroundings, chains: seq<seq<string>>):
    seq<ProjectFinding>
  {
    if chains == [] then []
    else
      AllFindings(graph, sources, around, chains[..|chains| - 1])
      + ChainFindings(graph, sources, around, chains[|chains| - 1])
  }

  method FirstCycleEdgePosition(graph: ImportGraph, around: Surroundings, source: EdgeSource, members: seq<string>)
    returns (position: (int, int))
    ensures position == GetOr(EdgePosition(graph, around, source.filePath, source.specifiers, members), (1, 1))
  {
    var specifiers := source.specifiers;
    for i := 0 to |specifiers|
      invariant EdgePosition(graph, around, source.filePath, specifiers, members)
                == EdgePosition(graph, around, source.filePath, specifiers[i..], members)
    {
      var target := graph.Resolve(source.filePath, specifiers[i]);
      if !Truthy(target) || target.value !in members {
        continue;
      }
      var node := around.nodeAt(source.filePath, specifiers[i]);
      if node.Some? {
        return node.value;
      }
    }
    return (1, 1);
  }

  method CircularDependency(graph: ImportGraph, sources: seq<EdgeSource>, around: Surroundings)
    returns (findings: seq<ProjectFinding>)
    ensures findings == AllFindings(graph, sources, around, graph.cycleChains)
  {
    hide EdgePosition, ChainText, FindSource;
    findings := [];
    var chains := graph.cycleChains;
    for i := 0 to |chains|
      invariant findings == AllFindings(graph, sources, around, chains[..i])
    {
      assert chains[..i + 1][..i] == chains[..i];
      var members := if chains[i] == [] then [] else chains[i][..|chains[i]| - 1];
      var message := ChainText(around, chains[i]);
      ghost var before := findings;
      for k := 0 to |members|
        invariant findings == before + MemberFindings(graph, sources, around, members, message, k)
      {
        var source := FindSource(sources, members[k]);
        if source.None? {
          continue;
        }
        var position := FirstCycleEdgePosition(graph, around, source.value, members);
        findings := findings + [ProjectFinding(source.value.filePath, Some(position.0), Some(position.1), message)];
      }
    }
    assert chains[..|chains|] == chains;
  }

  // ---- which files, and where in them ----

  function FlaggedPaths(findings: seq<ProjectFinding>): seq<string> {
    seq(|findings|, i requires 0 <= i < |findings| => findings[i].filePath)
  }

  lemma {:induction false} FindSourceExact(sources: seq<EdgeSource>, filePath: string)
    ensures FindSource(sources, filePath).Some? <==> filePath in Paths(sources)
    ensures FindSource(sources, filePath).Some? ==> FoundFirst(sources, filePath, FindSource(sources, filePath).value)
  {
    if sources != [] {
      var rest := sources[1..];
      FindSourceExact(rest, filePath);
      assert Paths(sources) == [sources[0].filePath] + Paths(rest);
      if sources[0].filePath == filePath {
        assert IsFirstSource(sources, filePath, 0);
      } else if FindSource(rest, filePath).Some? {
        var k :| 0 <= k < |rest| && IsFirstSource(rest, filePath, k) && rest[k] == FindSource(rest, filePath).value;
        assert IsFirstSource(sources, filePath, k + 1) && sources[k + 1] == rest[k];
      }
    }
  }

  ghost predicate FoundFirst(sources: seq<EdgeSource>, filePath: string, source: EdgeSource) {
    exists k :: 0 <= k < |sources| && IsFirstSource(sources, filePath, k) && sources[k] == source
  }

  ghost predicate IsFirstSource(sources: seq<EdgeSource>, filePath: string, k: nat)
    requires k < |sources|
  {
    sources[k].filePath == filePath && forall j :: 0 <= j < k ==> sources[j].filePath != filePath
  }

  lemma {:induction false} MembersAreFlagged(graph: ImportGraph, sources: seq<EdgeSource>, around: Surroundings,
      members: seq<string>, message: string, n: nat)
    requires n <= |members| && forall m :: m in members ==> m in Paths(sources)
    ensures FlaggedPaths(MemberFindings(graph, sources, around, members, message, n)) == members[..n]
  {
    hide EdgePosition;
    if n > 0 {
      MembersAreFlagged(graph, sources, around, members, message, n - 1);
      FindSourceExact(sources, members[n - 1]);
      var rest := MemberFindings(graph, sources, around, members, message, n - 1);
      var all := MemberFindings(graph, sources, around, members, message, n);
      assert |all| == |rest| + 1 && all[..|rest|] == rest;
      assert FlaggedPaths(all) == FlaggedPaths(rest) + [members[n - 1]];
      assert members[..n] == members[..n - 1] + [members[n - 1]];
    }
  }

  lemma FlaggedAppend(a: seq<ProjectFinding>, b: seq<ProjectFinding>)
    ensures FlaggedPaths(a + b) == FlaggedPaths(a) + FlaggedPaths(b)
  {
  }

  lemma ChainIsFlagged(graph: ImportGraph, sources: seq<EdgeSource>, around: Surroundings, chain: seq<string>)
    requires forall m :: m in chain ==> m in Paths(sources)
    ensures FlaggedPaths(ChainFindings(graph, sources, around, chain)) == if chain == [] then [] else chain[..|chain| - 1]
  {
    hide MemberFindings;
    var members := if chain == [] then [] else chain[..|chain| - 1];
    MembersAreFlagged(graph, sources, around, members, ChainText(around, chain), |members|);
    assert members[..|members|] == members;
  }

  lemma {:induction false} ChainsAreFlagged(graph: ImportGraph, sources: seq<EdgeSource>, around: Surroundings,
      chains: seq<seq<string>>)
    requires forall chain, m :: chain in chains && m in chain ==> m in Paths(sources)
    ensures FlaggedPaths(AllFindings(graph, sources, around, chains)) == Members(chains)
  {
    hide ChainFindings, FlaggedPaths, Paths;
    if chains == [] {
      FlaggedNone();
    } else {
      var n := |chains| - 1;
      assert chains[n] in chains && forall c :: c in chains[..n] ==> c in chains;
      ChainsAreFlagged(graph, sources, around, chains[..n]);
      ChainIsFlagged(graph, sources, around, chains[n]);
      FlaggedAppend(AllFindings(graph, sources, around, chains[..n]), ChainFindings(graph, sources, around, chains[n]));
    }
  }

  lemma FlaggedNone()
    ensures FlaggedPaths([]) == []
  {
  }

  lemma ChainMembersAnalyzed(ops: PathOps, sources: seq<EdgeSource>, graph: ImportGraph)
    requires IsGraphOf(ops, sources, graph)
    ensures forall chain, m :: chain in graph.cycleChains && m in chain ==> m in Paths(sources)
  {
    forall chain, m | chain in graph.cycleChains && m in chain
      ensures m in Paths(sources)
    {
      assert IsChain(graph.edges, chain);
      ChainInGraph(graph.edges, chain, m);
    }
  }

  lemma ChainInGraph(g: Edges, chain: seq<string>, m: string)
    requires IsChain(g, chain) && m in chain
    ensures m in g
  {
    hide Before, Reach;
    var c := chain[..|chain| - 1];
    assert SimpleCycle(g, ClassOf(g, c[0]), c[0], c);
    var i :| 0 <= i < |chain| && chain[i] == m;
    if i < |c| {
      assert c[i] in c;
    }
  }

  /** The rule reports every member of every chain, chain by chain, and nothing else. */
  lemma FlaggedFilesExactly(ops: PathOps, sources: seq<EdgeSource>, graph: ImportGraph, around: Surroundings)
    requires IsGraphOf(ops, sources, graph)
    ensures FlaggedPaths(AllFindings(graph, sources, around, graph.cycleChains)) == Members(graph.cycleChains)
  {
    ChainMembersAnalyzed(ops, sources, graph);
    hide IsGraphOf;
    ChainsAreFlagged(graph, sources, around, graph.cycleChains);
  }

  /** The file at `i` mentions a specifier that leads on to the next member of the chain. */
  lemma NextIsMentioned(ops: PathOps, sources: seq<EdgeSource>, graph: ImportGraph, chain: seq<string>, i: nat)
    requires IsGraphOf(ops, sources, graph) && chain in graph.cycleChains && i + 1 < |chain|
    ensures chain[i] in graph.sourceByPath
    ensures exists s :: s in graph.sourceByPath[chain[i]].specifiers
                        && LeadsInto(graph, chain[i], s, chain[..|chain| - 1])
  {
    assert IsChain(graph.edges, chain);
    ByPathExact(sources);
    ChainInGraph(graph.edges, chain, chain[i]);
    NextIsMember(graph.edges, chain, i);
    EdgesAreResolutions(ops, sources, graph, chain[i], chain[i + 1]);
  }

  lemma NextIsMember(g: Edges, chain: seq<string>, i: nat)
    requires IsChain(g, chain) && i + 1 < |chain|
    ensures Edge(g, chain[i], chain[i + 1]) && chain[i + 1] in chain[..|chain| - 1]
  {
    hide Before, Reach;
    var c := chain[..|chain| - 1];
    assert SimpleCycle(g, ClassOf(g, c[0]), c[0], c);
    assert chain[i] == c[i];
    if i + 1 < |c| {
      assert chain[i + 1] == c[i + 1];
    } else {
      assert chain[i + 1] == c[0];
    }
  }

  /** The specifier resolves to a member of the cycle, and an import or re-export of it stands in the file. */
  ghost predicate Qualifies(graph: ImportGraph, around: Surroundings, filePath: string, specifier: string,
      members: seq<string>) {
    var target := graph.Resolve(filePath, specifier);
    target.Some? && target.value != "" && target.value in members && around.nodeAt(filePath, specifier).Some?
  }

  ghost predicate FirstQualifies(graph: ImportGraph, around: Surroundings, filePath: string, specifiers: seq<string>,
      members: seq<string>, k: nat)
    requires k < |specifiers|
  {
    && Qualifies(graph, around, filePath, specifiers[k], members)
    && forall j :: 0 <= j < k ==> !Qualifies(graph, around, filePath, specifiers[j], members)
  }

  ghost predicate PositionedAtFirst(graph: ImportGraph, around: Surroundings, filePath: string,
      specifiers: seq<string>, members: seq<string>, position: Option<(int, int)>) {
    exists k :: 0 <= k < |specifiers| && FirstQualifies(graph, around, filePath, specifiers, members, k)
      && around.nodeAt(filePath, specifiers[k]) == position
  }

  /** The position is that of the first specifier that qualifies; there is none exactly if none qualifies. */
  ghost predicate IsFirstPosition(graph: ImportGraph, around: Surroundings, filePath: string,
      specifiers: seq<string>, members: seq<string>, position: Option<(int, int)>) {
    && (position.None? <==> forall s :: s in specifiers ==> !Qualifies(graph, around, filePath, s, members))
    && (position.Some? ==> PositionedAtFirst(graph, around, filePath, specifiers, members, position))
  }

  lemma {:induction false} PositionExact(graph: ImportGraph, around: Surroundings, filePath: string,
      specifiers: seq<string>, members: seq<string>)
    ensures IsFirstPosition(graph, around, filePath, specifiers, members,
              EdgePosition(graph, around, filePath, specifiers, members))
  {
    if specifiers != [] {
      var rest := specifiers[1..];
      PositionExact(graph, around, filePath, rest, members);
      assert Qualifies(graph, around, filePath, specifiers[0], members)
        <==> LeadsInto(graph, filePath, specifiers[0], members) && around.nodeAt(filePath, specifiers[0]).Some?;
      hide LeadsInto, Qualifies, FirstQualifies;
      assert specifiers == [specifiers[0]] + rest;
      var position := EdgePosition(graph, around, filePath, rest, members);
      if position.Some? && !Qualifies(graph, around, filePath, specifiers[0], members) {
        PositionStep(graph, around, filePath, specifiers, members, position);
      }
      FirstOfAll(graph, around, filePath, specifiers, members);
    }
  }

  lemma FirstOfAll(graph: ImportGraph, around: Surroundings, filePath: string, specifiers: seq<string>,
      members: seq<string>)
    requires specifiers != []
    ensures FirstQualifies(graph, around, filePath, specifiers, members, 0)
            <==> Qualifies(graph, around, filePath, specifiers[0], members)
  {
    hide Qualifies;
  }

  lemma PositionStep(graph: ImportGraph, around: Surroundings, filePath: string, specifiers: seq<string>,
      members: seq<string>, position: Option<(int, int)>)
    requires specifiers != [] && !Qualifies(graph, around, filePath, specifiers[0], members)
    requires PositionedAtFirst(graph, around, filePath, specifiers[1..], members, position)
    ensures PositionedAtFirst(graph, around, filePath, specifiers, members, position)
  {
    hide Qualifies;
    var rest := specifiers[1..];
    var k :| 0 <= k < |rest| && FirstQualifies(graph, around, filePath, rest, members, k)
      && around.nodeAt(filePath, rest[k]) == position;
    assert forall j :: 0 < j < |specifiers| ==> specifiers[j] == rest[j - 1];
    assert FirstQualifies(graph, around, filePath, specifiers, members, k + 1);
  }

  /** With distinct paths the rule looks at the very source the graph was built from. */
  lemma SameSource(sources: seq<EdgeSource>, f: string)
    requires Distinct(Paths(sources)) && f in Paths(sources)
    ensures f in ByPath(sources) && FindSource(sources, f) == Some(ByPath(sources)[f])
  {
    ByPathExact(sources);
    FindSourceExact(sources, f);
    hide FindSource, ByPath;
    var i :| 0 <= i < |sources| && IsFirstSource(sources, f, i) && sources[i] == FindSource(sources, f).value;
    var j :| 0 <= j < |sources| && sources[j] == ByPath(sources)[f];
    assert Paths(sources)[i] == Paths(sources)[j] == f;
  }

  /** The path of every file of the chain relative to the scan root, with arrows between them. */
  ghost predicate IsChainMessage(around: Surroundings, chain: seq<string>, message: string) {
    exists parts: seq<string> :: |parts| == |chain|
      && (forall i :: 0 <= i < |chain| ==> parts[i] == around.relative(chain[i]))
      && message == around.message(JoinTexts(parts, " -> "))
  }

  /** What is reported on the source of a member: its path, the first position that leads into the cycle, the chain. */
  ghost predicate IsFindingAt(graph: ImportGraph, around: Surroundings, source: EdgeSource, chain: seq<string>,
      finding: ProjectFinding)
    requires chain != []
  {
    && finding.filePath == source.filePath && IsChainMessage(around, chain, finding.message)
    && exists position: Option<(int, int)> ::
         && IsFirstPosition(graph, around, source.filePath, source.specifiers, chain[..|chain| - 1], position)
         && (position.Some? ==>
               finding.lineOr == Some(position.value.0) && finding.columnOr == Some(position.value.1))
         && (position.None? ==> finding.lineOr == Some(1) && finding.columnOr == Some(1))
  }

  lemma FindingAtSpelled(graph: ImportGraph, around: Surroundings, source: EdgeSource, chain: seq<string>)
    requires chain != []
    ensures IsFindingAt(graph, around, source, chain,
              FindingAt(graph, around, source, chain[..|chain| - 1], ChainText(around, chain)))
  {
    hide IsFirstPosition, EdgePosition, JoinTexts;
    PositionExact(graph, around, source.filePath, source.specifiers, chain[..|chain| - 1]);
    var parts := seq(|chain|, i requires 0 <= i < |chain| => around.relative(chain[i]));
    assert ChainText(around, chain) == around.message(JoinTexts(parts, " -> "));
  }

  lemma {:induction false} MemberFindingAt(graph: ImportGraph, sources: seq<EdgeSource>, around: Surroundings,
      members: seq<string>, message: string, n: nat, i: nat)
    requires i < n <= |members| && forall m :: m in members ==> m in Paths(sources)
    ensures var findings := MemberFindings(graph, sources, around, members, message, n);
            && |findings| == n && FindSource(sources, members[i]).Some?
            && findings[i] == FindingAt(graph, around, FindSource(sources, members[i]).value, members, message)
  {
    hide FindingAt, Paths, FindSource;
    FindSourceExact(sources, members[n - 1]);
    if i < n - 1 {
      MemberFindingAt(graph, sources, around, members, message, n - 1, i);
    } else if n > 1 {
      MemberFindingAt(graph, sources, around, members, message, n - 1, 0);
    }
  }

  /**
   * A chain gives one finding for each member but the repeated last one, in order: on the first source with the
   * member's path, at the first specifier that leads into the cycle and has a node, with the text of the chain.
   */
  lemma ChainFindingsSpelled(graph: ImportGraph, sources: seq<EdgeSource>, around: Surroundings, chain: seq<string>,
      i: nat)
    requires i + 1 < |chain| && forall m :: m in chain ==> m in Paths(sources)
    ensures var findings := ChainFindings(graph, sources, around, chain);
            && |findings| == |chain| - 1
            && exists k :: 0 <= k < |sources| && IsFirstSource(sources, chain[i], k)
                 && IsFindingAt(graph, around, sources[k], chain, findings[i])
  {
    var members := chain[..|chain| - 1];
    hide MemberFindings, FindingAt, IsFindingAt, ChainText;
    MemberFindingAt(graph, sources, around, members, ChainText(around, chain), |members|, i);
    FindSourceExact(sources, chain[i]);
    FindingAtSpelled(graph, around, FindSource(sources, chain[i]).value, chain);
  }

  /** Chain by chain, in their order. */
  lemma {:induction false} AllFindingsAppend(graph: ImportGraph, sources: seq<EdgeSource>, around: Surroundings,
      a: seq<seq<string>>, b: seq<seq<string>>, chain: seq<string>)
    ensures AllFindings(graph, sources, around, a + b)
         == AllFindings(graph, sources, around, a) + AllFindings(graph, sources, around, b)
    ensures AllFindings(graph, sources, around, [chain]) == ChainFindings(graph, sources, around, chain)
  {
    hide ChainFindings;
    assert [chain][..0] == [];
    if b == [] {
      assert a + b == a;
    } else {
      var n := |b| - 1;
      assert (a + b)[..|a + b| - 1] == a + b[..n];
      AllFindingsAppend(graph, sources, around, a, b[..n], chain);
    }
  }

  /**
   * Every flagged file imports into its cycle, and its finding sits at such an import; the first line is used only
   * when none of these imports has a node.
   */
  lemma FindingsSitOnTheCycle(ops: PathOps, sources: seq<EdgeSource>, graph: ImportGraph, around: Surroundings,
      chain: seq<string>, i: nat)
    requires IsGraphOf(ops, sources, graph) && chain in graph.cycleChains && i + 1 < |chain|
    ensures chain[i] in graph.sourceByPath
    ensures Distinct(Paths(sources)) ==> FindSource(sources, chain[i]) == Some(graph.sourceByPath[chain[i]])
    ensures var file, members := chain[i], chain[..|chain| - 1];
            var specifiers := graph.sourceByPath[file].specifiers;
            var position := EdgePosition(graph, around, file, specifiers, members);
            && (exists s :: s in specifiers && LeadsInto(graph, file, s, members))
            && IsFirstPosition(graph, around, file, specifiers, members, position)
  {
    NextIsMentioned(ops, sources, graph, chain, i);
    ByPathExact(sources);
    assert graph.sourceByPath == ByPath(sources);
    hide LeadsInto, IsGraphOf, Distinct, Paths, ByPath;
    if Distinct(Paths(sources)) {
      SameSource(sources, chain[i]);
    }
    PositionExact(graph, around, chain[i], graph.sourceByPath[chain[i]].specifiers, chain[..|chain| - 1]);
  }
}
