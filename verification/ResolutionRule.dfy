/** The resolution rule spelled out on the lists of the application model, with chains of imports by class name. */
module ResolutionRule {
  import opened Graphs
  import opened Grouping
  import opened InjectionResolution
  import opened NestModel

  /** Some import of the module at `chain[t - 1]` is the class name of the module at `chain[t]`. */
  ghost predicate Imports(modules: seq<ModuleEntry>, chain: seq<nat>, t: nat)
    requires 0 < t < |chain|
  {
    && chain[t - 1] < |modules| && chain[t] < |modules|
    && NamesModule(modules[chain[t - 1]].imports, modules[chain[t]])
  }

  ghost predicate NamesModule(imports: seq<string>, entry: ModuleEntry) {
    exists i :: 0 <= i < |imports| && imports[i] == entry.className
  }

  ghost predicate ImportChain(modules: seq<ModuleEntry>, chain: seq<nat>) {
    && chain != [] && (forall t :: 0 <= t < |chain| ==> chain[t] < |modules|)
    && forall t :: 0 < t < |chain| ==> Imports(modules, chain, t)
  }

  ghost predicate NamesNoModule(modules: seq<ModuleEntry>, name: string) {
    forall k :: 0 <= k < |modules| ==> modules[k].className != name
  }

  /** The end of the chain was imported and exports the provider or could not be read, or it imports what is unknown. */
  ghost predicate EndSupplies(modules: seq<ModuleEntry>, chain: seq<nat>, providerName: string)
    requires ImportChain(modules, chain)
  {
    var last := modules[chain[|chain| - 1]];
    || (|chain| > 1 && (last.hasUnresolved || providerName in last.exports))
    || exists i :: 0 <= i < |last.imports| && NamesNoModule(modules, last.imports[i])
  }

  /** The owner cannot be read, provides it itself, or a chain of imports leads to a module that supplies it. */
  ghost predicate Supplies(modules: seq<ModuleEntry>, owner: nat, providerName: string)
    requires owner < |modules|
  {
    || modules[owner].hasUnresolved || providerName in modules[owner].providers
    || exists chain :: ImportChain(modules, chain) && chain[0] == owner && EndSupplies(modules, chain, providerName)
  }

  lemma NamedNone(modules: seq<ModuleEntry>, name: string)
    ensures Named(modules, name) == [] <==> NamesNoModule(modules, name)
  {
    PositionsExact(ModuleNames(modules), name);
    hide Positions;
    assert forall k :: 0 <= k < |modules| ==> ModuleNames(modules)[k] == modules[k].className;
    var named := Named(modules, name);
    assert forall k: nat :: k in named <==> k < |modules| && modules[k].className == name;
    if named != [] {
      assert named[0] in named;
    }
  }

  lemma ImportsIsEdge(modules: seq<ModuleEntry>, chain: seq<nat>, t: nat)
    requires 0 < t < |chain|
    ensures Imports(modules, chain, t) <==> Edge(ModuleGraph(modules), chain[t - 1], chain[t])
  {
    EdgeIsImport(modules, chain[t - 1], chain[t]);
    hide ModuleGraph, Edge;
    if ImportsModule(modules, chain[t - 1], chain[t]) {
      var names := modules[chain[t - 1]].imports;
      var i :| 0 <= i < |names| && names[i] == modules[chain[t]].className;
    }
  }

  lemma ImportsInside(modules: seq<ModuleEntry>, chain: seq<nat>, t: nat)
    requires 0 < t < |chain| && Imports(modules, chain, t)
    ensures chain[t] < |modules|
  {
  }

  lemma ChainIsWalk(modules: seq<ModuleEntry>, chain: seq<nat>)
    requires chain != [] && chain[0] < |modules|
    ensures ImportChain(modules, chain) <==> IsWalk(ModuleGraph(modules), chain)
  {
    forall t | 0 < t < |chain|
      ensures Imports(modules, chain, t) <==> Edge(ModuleGraph(modules), chain[t - 1], chain[t])
    {
      ImportsIsEdge(modules, chain, t);
    }
    hide ModuleGraph, Edge, Imports;
    if IsWalk(ModuleGraph(modules), chain) {
      forall t | 0 < t < |chain|
        ensures chain[t] < |modules|
      {
        assert Edge(ModuleGraph(modules), chain[t - 1], chain[t]);
        ImportsInside(modules, chain, t);
      }
    }
  }

  /** A chain whose end supplies shows that nothing blocks the owner. */
  lemma ChainUnblocks(modules: seq<ModuleEntry>, owner: nat, chain: seq<nat>, providerName: string)
    requires owner < |modules| && ImportChain(modules, chain) && chain[0] == owner
    requires EndSupplies(modules, chain, providerName)
    ensures !Blocked(modules, owner, providerName)
  {
    var g, n := ModuleGraph(modules), |chain| - 1;
    ChainIsWalk(modules, chain);
    hide ModuleGraph;
    var last := modules[chain[n]];
    if n > 0 && (last.hasUnresolved || providerName in last.exports) {
      assert Imports(modules, chain, n);
      assert ImportsModule(modules, chain[n - 1], chain[n]);
      assert !ImportsSilent(modules, chain[n - 1], providerName);
      PrefixIsWalk(g, chain);
      assert WalkFromTo(g, chain[..n], owner, chain[n - 1]);
      assert Reach(g, owner, chain[n - 1]);
    } else {
      var i :| 0 <= i < |last.imports| && NamesNoModule(modules, last.imports[i]);
      NamedNone(modules, last.imports[i]);
      assert !ImportsSilent(modules, chain[n], providerName);
      assert WalkFromTo(g, chain, owner, chain[n]);
      assert Reach(g, owner, chain[n]);
    }
  }

  lemma PrefixIsWalk(g: Graph<nat>, chain: seq<nat>)
    requires IsWalk(g, chain) && |chain| > 1
    ensures IsWalk(g, chain[..|chain| - 1])
  {
    var p := chain[..|chain| - 1];
    forall i | 0 < i < |p|
      ensures Edge(g, p[i - 1], p[i])
    {
      assert Edge(g, chain[i - 1], chain[i]);
    }
  }

  /** A module within reach that is not silent gives such a chain. */
  lemma UnblockedHasChain(modules: seq<ModuleEntry>, owner: nat, m: nat, providerName: string)
    requires owner < |modules| && m < |modules| && Reach(ModuleGraph(modules), owner, m)
    requires !ImportsSilent(modules, m, providerName)
    ensures exists chain :: ImportChain(modules, chain) && chain[0] == owner && EndSupplies(modules, chain, providerName)
  {
    var g := ModuleGraph(modules);
    var p :| WalkFromTo(g, p, owner, m);
    ChainIsWalk(modules, p);
    hide ModuleGraph, Reach;
    if i :| 0 <= i < |modules[m].imports| && Named(modules, modules[m].imports[i]) == [] {
      NamedNone(modules, modules[m].imports[i]);
      assert EndSupplies(modules, p, providerName);
    } else {
      var k: nat :| ImportsModule(modules, m, k) && !Silent(modules[k], providerName);
      var chain := p + [k];
      EdgeIsImport(modules, m, k);
      ChainGrows(g, p, k);
      ChainIsWalk(modules, chain);
      assert EndSupplies(modules, chain, providerName);
    }
  }

  lemma ChainGrows(g: Graph<nat>, p: seq<nat>, k: nat)
    requires IsWalk(g, p) && Edge(g, p[|p| - 1], k)
    ensures IsWalk(g, p + [k])
  {
    var chain := p + [k];
    forall i | 0 < i < |chain|
      ensures Edge(g, chain[i - 1], chain[i])
    {
      if i < |p| {
        assert Edge(g, p[i - 1], p[i]);
      }
    }
  }

  lemma SuppliesUnlessBlocked(modules: seq<ModuleEntry>, owner: nat, providerName: string)
    requires owner < |modules|
    ensures Supplies(modules, owner, providerName) <==> !Blocked(modules, owner, providerName)
  {
    hide ImportsSilent, EndSupplies, Imports, ModuleGraph, Reach;
    if m: nat :| m < |modules| && Reach(ModuleGraph(modules), owner, m) && !ImportsSilent(modules, m, providerName) {
      UnblockedHasChain(modules, owner, m, providerName);
    }
    if chain :| ImportChain(modules, chain) && chain[0] == owner && EndSupplies(modules, chain, providerName) {
      ChainUnblocks(modules, owner, chain, providerName);
    }
  }

  /**
   * An injection counts as resolvable exactly if no such provider is known, or no module lists the consumer as a
   * provider or a controller, or a readable global module exports it, or a module that lists the consumer supplies it.
   */
  lemma ResolvableSpelled(model: AppModel, className: string, providerName: string)
    ensures Resolvable(model, className, providerName)
            <==> || (forall i :: 0 <= i < |model.providers| ==> model.providers[i].className != providerName)
                 || (forall i :: 0 <= i < |model.modules| ==> !Lists(model.modules[i], className))
                 || (exists i :: 0 <= i < |model.modules| && OffersEverywhere(model.modules[i], providerName))
                 || (exists i :: 0 <= i < |model.modules| && Lists(model.modules[i], className)
                        && Supplies(model.modules, i, providerName))
  {
    forall i | 0 <= i < |model.modules|
      ensures Supplies(model.modules, i, providerName) <==> !Blocked(model.modules, i, providerName)
      ensures Lists(model.modules[i], className) <==> Owns(model.modules[i], className)
      ensures OffersEverywhere(model.modules[i], providerName) <==> GlobalExport(model.modules[i], providerName)
    {
      SuppliesUnlessBlocked(model.modules, i, providerName);
    }
    hide Supplies, Blocked, Lists, Owns, OffersEverywhere, GlobalExport;
  }

  ghost predicate Lists(entry: ModuleEntry, className: string) {
    (exists i :: 0 <= i < |entry.providers| && entry.providers[i] == className)
    || (exists i :: 0 <= i < |entry.controllers| && entry.controllers[i] == className)
  }

  ghost predicate OffersEverywhere(entry: ModuleEntry, providerName: string) {
    entry.isGlobal && !entry.hasUnresolved && providerName in entry.exports
  }
}
