/** The project rules that read the import graph: unused files and circular imports. */
module GraphRules {
  import opened CycleReports
  import opened Graphs
  import opened ImportCycles
  import opened Imports
  import opened Options
  import opened Orders
  import opened SimpleCycles

  /** A finding of a project rule; the position defaults to the first column of the first line. */
  datatype ProjectFinding = ProjectFinding(
    filePath: string, lineOr: Option<int>, columnOr: Option<int>, message: string)

  // ---- unused files ----

  /** The wording of the findings is not modelled, only that it is the same for every file. */
  const UNUSED_FILE_MESSAGE := "unused file"

  function UnusedAt(filePath: string): ProjectFinding {
    ProjectFinding(filePath, Some(1), Some(1), UNUSED_FILE_MESSAGE)
  }

  /** One finding for every file no entry reaches, in the order of the files. */
  ghost function Unreached(edges: Edges, entries: seq<string>, files: seq<string>): seq<ProjectFinding> {
    if files == [] then []
    else
      var rest, last := Unreached(edges, entries, files[..|files| - 1]), files[|files| - 1];
      if IsReachable(edges, entries, last) then rest else rest + [UnusedAt(last)]
  }

  /** Without entries reachability proves nothing, and the rule is silent. */
  method UnusedFile(graph: ImportGraph, entries: seq<string>) returns (findings: seq<ProjectFinding>)
    ensures findings == if entries == [] then [] else Unreached(graph.edges, entries, graph.files)
  {
    findings := [];
    if |entries| == 0 {
      return;
    }
    var reachable := ReachableFrom(entries, graph.edges);
    for i := 0 to |graph.files|
      invariant findings == Unreached(graph.edges, entries, graph.files[..i])
    {
      assert graph.files[..i + 1][..i] == graph.files[..i];
      if graph.files[i] in reachable {
        continue;
      }
      findings := findings + [UnusedAt(graph.files[i])];
    }
    assert graph.files[..|graph.files|] == graph.files;
  }

  /** The rule reports exactly the complement of what the entries reach. */
  lemma {:induction false} UnreachedIsComplement(edges: Edges, entries: seq<string>, files: seq<string>, f: string)
    ensures UnusedAt(f) in Unreached(edges, entries, files) <==> f in files && !IsReachable(edges, entries, f)
  {
    if files != [] {
      var n := |files| - 1;
      UnreachedIsComplement(edges, entries, files[..n], f);
      assert f in files <==> f in files[..n] || f == files[n];
      hide IsReachable;
      assert UnusedAt(f) == UnusedAt(files[n]) <==> f == files[n];
    }
  }

  /** File by file and in their order: nothing for a reached one, one finding at its very beginning otherwise. */
  lemma {:induction false} UnreachedAppend(edges: Edges, entries: seq<string>, a: seq<string>, b: seq<string>, f: string)
    ensures Unreached(edges, entries, a + b) == Unreached(edges, entries, a) + Unreached(edges, entries, b)
    ensures IsReachable(edges, entries, f) ==> Unreached(edges, entries, [f]) == []
    ensures !IsReachable(edges, entries, f) ==>
      Unreached(edges, entries, [f]) == [ProjectFinding(f, Some(1), Some(1), UNUSED_FILE_MESSAGE)]
  {
    hide IsReachable;
    assert [f][..0] == [];
    if b == [] {
      assert a + b == a;
    } else {
      var n := |b| - 1;
      assert (a + b)[..|a + b| - 1] == a + b[..n];
      UnreachedAppend(edges, entries, a, b[..n], f);
    }
  }

  // ---- which files circular imports flag ----

  /** The members of the chains without their repeated last element, chain by chain. */
  function Members(chains: seq<seq<string>>): seq<string> {
    if chains == [] then []
    else
      var last := chains[|chains| - 1];
      Members(chains[..|chains| - 1]) + if last == [] then [] else last[..|last| - 1]
  }

  lemma {:induction false} MembersExact(chains: seq<seq<string>>, f: string)
    ensures f in Members(chains)
            <==> exists chain :: chain in chains && chain != [] && f in chain[..|chain| - 1]
  {
    if chains != [] {
      var n := |chains| - 1;
      MembersExact(chains[..n], f);
      assert forall chain :: chain in chains <==> chain in chains[..n] || chain == chains[n];
    }
  }

  /** The node lies on the first simple cycle through the smallest node of its component. */
  ghost predicate OnLeastCycle(g: Edges, f: string) {
    exists c :: Canonical(g, StringLess, c) && f in c
  }

  lemma FlaggedIsCanonical(g: Edges, chains: seq<seq<string>>, f: string)
    requires Closed(g) && AreChains(g, chains) && f in Members(chains)
    ensures OnLeastCycle(g, f) && OnCycle(g, f)
  {
    hide Canonical, OnCycle, Members, Closed, IsReport;
    MembersExact(chains, f);
    var chain :| chain in chains && chain != [] && f in chain[..|chain| - 1];
    assert IsChain(g, chain);
    CanonicalMemberOnCycle(g, chain[..|chain| - 1], f);
  }

  lemma CanonicalIsFlagged(g: Edges, chains: seq<seq<string>>, c: seq<string>, f: string)
    requires Closed(g) && AreChains(g, chains) && Canonical(g, StringLess, c) && f in c
    ensures f in Members(chains)
  {
    hide Canonical, Members, Closed, AreChains;
    var k := ReportHas(g, chains, c);
    MembersExact(chains, f);
    assert chains[k] in chains;
  }

  lemma NothingFlagged(g: Edges, chains: seq<seq<string>>)
    requires AreChains(g, chains)
    ensures Members(chains) == [] <==> chains == []
  {
    hide Canonical, IsReport;
    if chains != [] {
      assert IsChain(g, chains[0]);
      MembersExact(chains, chains[0][0]);
      assert chains[0][0] in chains[0][..|chains[0]| - 1];
      assert chains[0] in chains;
    }
  }

  /** Flagged are the files on the canonical cycles, all of them on an import cycle; none exactly when there is none. */
  lemma FlaggedExactly(g: Edges, chains: seq<seq<string>>, f: string)
    requires Closed(g) && AreChains(g, chains)
    ensures f in Members(chains) <==> OnLeastCycle(g, f)
    ensures f in Members(chains) ==> OnCycle(g, f)
    ensures Members(chains) == [] <==> forall v :: v in g ==> !OnCycle(g, v)
  {
    hide Canonical, OnCycle, Members, Closed, AreChains;
    NoChainsIffAcyclic(g, chains);
    NothingFlagged(g, chains);
    if f in Members(chains) {
      FlaggedIsCanonical(g, chains, f);
    }
    if c :| Canonical(g, StringLess, c) && f in c {
      CanonicalIsFlagged(g, chains, c, f);
    }
  }

  /** The canonical cycle of every component visits the whole component. */
  ghost predicate CyclesRunThrough(g: Edges) {
    forall c, v :: c != [] && Canonical(g, StringLess, c) && v in ClassOf(g, c[0]) ==> v in c
  }

  /** Every file on an import cycle is flagged exactly when each canonical cycle runs through its whole component. */
  lemma AllMembersFlagged(g: Edges, chains: seq<seq<string>>)
    requires Closed(g) && AreChains(g, chains)
    ensures (forall v :: v in g && OnCycle(g, v) ==> v in Members(chains)) <==> CyclesRunThrough(g)
  {
    hide Canonical, OnCycle, Members, Closed, ClassOf, AreChains;
    if forall v :: v in g && OnCycle(g, v) ==> v in Members(chains) {
      forall c, v | c != [] && Canonical(g, StringLess, c) && v in ClassOf(g, c[0])
        ensures v in c
      {
        FlaggedOnOwnCycle(g, chains, c, v);
      }
    }
    if CyclesRunThrough(g) {
      forall v | v in g && OnCycle(g, v)
        ensures v in Members(chains)
      {
        var c := CycleOfComponent(g, chains, v);
        CanonicalIsFlagged(g, chains, c, v);
      }
    }
  }

  lemma CanonicalInClass(g: Edges, c: seq<string>, v: string)
    requires Canonical(g, StringLess, c) && v in c
    ensures v in ClassOf(g, c[0])
  {
    hide Before, Reach;
  }

  /** Whoever belongs to the component of a canonical cycle and is flagged lies on that cycle. */
  lemma FlaggedOnOwnCycle(g: Edges, chains: seq<seq<string>>, c: seq<string>, v: string)
    requires Closed(g) && AreChains(g, chains) && c != [] && Canonical(g, StringLess, c)
    requires v in ClassOf(g, c[0])
    requires forall u :: u in g && OnCycle(g, u) ==> u in Members(chains)
    ensures v in c
  {
    hide LeastCycle, OnCycle, Members, Closed, AreChains, Reach;
    CanonicalOnCycle(g, StringLess, c);
    OnCycleInClass(g, v, c[0]);
    FlaggedExactly(g, chains, v);
    var d :| Canonical(g, StringLess, d) && v in d;
    CanonicalInClass(g, d, v);
    ReachTransitive(g, c[0], v, d[0]);
    ReachTransitive(g, d[0], v, c[0]);
    StringLessIsTotal();
    hide StringLess, WeakOrder;
    CanonicalUnique(g, StringLess, c, d);
  }

  /** A node on a cycle belongs to the component of some canonical cycle. */
  lemma CycleOfComponent(g: Edges, chains: seq<seq<string>>, v: string) returns (c: seq<string>)
    requires AreChains(g, chains) && v in g && OnCycle(g, v)
    ensures c != [] && Canonical(g, StringLess, c) && v in ClassOf(g, c[0])
  {
    hide Canonical, OnCycle;
    var k :| 0 <= k < |Opened(chains)| && Mutual(g, Opened(chains)[k][0], v);
    c := Opened(chains)[k];
  }

  lemma CanonicalMemberOnCycle(g: Edges, c: seq<string>, f: string)
    requires Closed(g) && Canonical(g, StringLess, c) && f in c
    ensures OnCycle(g, f)
  {
    hide Before, Closed;
    CanonicalOnCycle(g, StringLess, c);
    assert SimpleCycle(g, ClassOf(g, c[0]), c[0], c);
    assert f in ClassOf(g, c[0]);
    OnCycleInClass(g, f, c[0]);
  }

  /** Every canonical cycle is one of the chains. */
  lemma ReportHas(g: Edges, chains: seq<seq<string>>, c: seq<string>) returns (k: nat)
    requires Closed(g) && AreChains(g, chains) && Canonical(g, StringLess, c)
    ensures k < |chains| && |chains[k]| > 0 && chains[k][..|chains[k]| - 1] == c
  {
    hide Canonical, Closed, OnCycle, IsReport, StringLess, WeakOrder;
    StringLessIsTotal();
    assert StrictTotal(StringLess);
    ReportHasAll(g, StringLess, Opened(chains), c);
    k :| 0 <= k < |chains| && Opened(chains)[k] == c;
    assert IsChain(g, chains[k]);
  }

  /** With sorted edges the canonical cycle is the lexicographically least one through its start. */
  lemma ChainIsLexicographicallyLeast(g: Edges, c: seq<string>, d: seq<string>)
    requires forall v :: v in g ==> Increasing(StringLess, g[v])
    requires Canonical(g, StringLess, c) && SimpleCycle(g, ClassOf(g, c[0]), c[0], d)
    ensures d == c || exists k: nat ::
              0 < k <= |c| && k <= |d| && (c + [c[0]])[..k] == (d + [c[0]])[..k]
              && Precedes((c + [c[0]])[k], (d + [c[0]])[k])
  {
    hide SimpleCycle, StringLess, Precedes;
    if d != c {
      assert Before(g, c[0], c, d);
      var k: nat :| Parts(g, c[0], c, d, k);
      EarlierIsLess(g, (c + [c[0]])[k - 1], (c + [c[0]])[k], (d + [c[0]])[k]);
    }
  }

  lemma EarlierIsLess(g: Edges, u: string, x: string, y: string)
    requires forall v :: v in g ==> Increasing(StringLess, g[v])
    requires Earlier(g, u, x, y)
    ensures Precedes(x, y)
  {
    StringLessIsLexicographic(x, y);
    hide StringLess, Precedes;
    var i, j := FirstAt(Succ(g, u), x), FirstAt(Succ(g, u), y);
    assert Increasing(StringLess, g[u]);
    assert g[u][i] == x && g[u][j] == y;
  }

  // ---- the rule does not flag every file on a cycle ----

  const Detour: Edges := map["a" := ["b"], "b" := ["a", "c"], "c" := ["b"]]

  lemma DetourCycles(c: seq<string>)
    requires SimpleCycle(Detour, ClassOf(Detour, "a"), "a", c)
    ensures "c" !in c
  {
    hide Reach;
    assert Edge(Detour, c[|c| - 1], "a");
    assert c[|c| - 1] == "b";
    assert Edge(Detour, c[0], c[1]) && c[1] == "b";
    assert |c| == 2;
  }

  lemma DetourReach()
    ensures Closed(Detour) && Edge(Detour, "c", "b") && Reach(Detour, "b", "c")
    ensures Mutual(Detour, "a", "c")
    ensures StringLess("a", "b") && StringLess("a", "c")
  {
    var g := Detour;
    assert Edge(g, "a", "b") && Edge(g, "b", "a") && Edge(g, "b", "c") && Edge(g, "c", "b");
    hide Reach;
    ReachEdge(g, "a", "b");
    ReachEdge(g, "b", "c");
    ReachEdge(g, "c", "b");
    ReachThenEdge(g, "c", "b", "a");
    ReachThenEdge(g, "a", "b", "c");
  }

  lemma DetourCanonical(c: seq<string>)
    requires Canonical(Detour, StringLess, c)
    ensures "c" !in c
  {
    hide Before, Reach, StringLess, Detour;
    DetourReach();
    assert SimpleCycle(Detour, ClassOf(Detour, c[0]), c[0], c);
    if "c" in c {
      assert "c" in ClassOf(Detour, c[0]);
      ReachTransitive(Detour, c[0], "c", "a");
      ReachTransitive(Detour, "a", "c", c[0]);
      DetourStart(c[0]);
      DetourCycles(c);
    }
  }

  lemma DetourStart(s: string)
    requires s in Detour && forall v :: v in ClassOf(Detour, s) ==> v == s || StringLess(s, v)
    requires Mutual(Detour, s, "a")
    ensures s == "a"
  {
    DetourReach();
    hide Reach;
    assert "a" in ClassOf(Detour, s);
  }

  /** A file can import and be imported in a circle and still not be flagged. */
  lemma NotEveryMemberIsFlagged(chains: seq<seq<string>>)
    requires AreChains(Detour, chains)
    ensures OnCycle(Detour, "c") && "c" !in Members(chains)
  {
    hide Canonical, AreChains, Members, Reach, StringLess;
    DetourReach();
    FlaggedExactly(Detour, chains, "c");
    if c :| Canonical(Detour, StringLess, c) && "c" in c {
      DetourCanonical(c);
    }
  }
}
