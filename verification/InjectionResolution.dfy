/** Whether an injected provider can be resolved from the modules that own its consumer. */
module InjectionResolution {
  import opened Graphs
  import opened Grouping
  import opened NestModel

  function ModuleNames(modules: seq<ModuleEntry>): seq<string> {
    seq(|modules|, i requires 0 <= i < |modules| => modules[i].className)
  }

  /** The positions of the modules with a class name. */
  function Named(modules: seq<ModuleEntry>, name: string): seq<nat> {
    Positions(ModuleNames(modules), name)
  }

  predicate Owns(entry: ModuleEntry, className: string) {
    className in entry.providers || className in entry.controllers
  }

  /** Module `m` imports module `k` by its class name. */
  ghost predicate ImportsModule(modules: seq<ModuleEntry>, m: nat, k: nat) {
    m < |modules| && k < |modules| && modules[k].className in modules[m].imports
  }

  ghost function ImportedBy(modules: seq<ModuleEntry>, m: nat, k: nat): seq<nat>
    requires k <= |modules|
  {
    if k == 0 then []
    else ImportedBy(modules, m, k - 1) + if ImportsModule(modules, m, k - 1) then [k - 1] else []
  }

  /** The graph of module imports. */
  ghost function ModuleGraph(modules: seq<ModuleEntry>): Graph<nat> {
    map m: nat | m < |modules| :: ImportedBy(modules, m, |modules|)
  }

  /** A module that an import leads to says nothing about the provider. */
  ghost predicate Silent(entry: ModuleEntry, providerName: string) {
    !entry.hasUnresolved && providerName !in entry.exports
  }

  /** Every import of `m` names modules of the model, and none of them exports the provider. */
  ghost predicate ImportsSilent(modules: seq<ModuleEntry>, m: nat, providerName: string)
    requires m < |modules|
  {
    && (forall i :: 0 <= i < |modules[m].imports| ==> Named(modules, modules[m].imports[i]) != [])
    && (forall k: nat :: ImportsModule(modules, m, k) ==> Silent(modules[k], providerName))
  }

  /** Nothing that can be seen from `owner` supplies the provider. */
  ghost predicate Blocked(modules: seq<ModuleEntry>, owner: nat, providerName: string)
    requires owner < |modules|
  {
    && !modules[owner].hasUnresolved && providerName !in modules[owner].providers
    && forall m: nat :: m < |modules| && Reach(ModuleGraph(modules), owner, m) ==> ImportsSilent(modules, m, providerName)
  }

  predicate GlobalExport(entry: ModuleEntry, providerName: string) {
    entry.isGlobal && !entry.hasUnresolved && providerName in entry.exports
  }

  /** The resolution rule, stated on the whole model. */
  ghost predicate Resolvable(model: AppModel, className: string, providerName: string) {
    || (forall i :: 0 <= i < |model.providers| ==> model.providers[i].className != providerName)
    || (forall i :: 0 <= i < |model.modules| ==> !Owns(model.modules[i], className))
    || (exists i :: 0 <= i < |model.modules| && GlobalExport(model.modules[i], providerName))
    || (exists i :: 0 <= i < |model.modules| && Owns(model.modules[i], className)
                    && !Blocked(model.modules, i, providerName))
  }

  lemma {:induction false} ImportedByExact(modules: seq<ModuleEntry>, m: nat, k: nat)
    requires k <= |modules|
    ensures forall v: nat :: v in ImportedBy(modules, m, k) <==> v < k && ImportsModule(modules, m, v)
  {
    if k > 0 {
      ImportedByExact(modules, m, k - 1);
    }
  }

  lemma EdgeIsImport(modules: seq<ModuleEntry>, m: nat, k: nat)
    ensures Edge(ModuleGraph(modules), m, k) <==> ImportsModule(modules, m, k)
  {
    ImportedByExact(modules, m, |modules|);
  }

  method IsInjectionResolvable(model: AppModel, className: string, providerName: string) returns (r: bool)
    ensures r <==> Resolvable(model, className, providerName)
  {
    hide Blocked;
    var modules := model.modules;
    if !exists i :: 0 <= i < |model.providers| && model.providers[i].className == providerName {
      return true;
    }
    if !exists i :: 0 <= i < |modules| && Owns(modules[i], className) {
      return true;
    }
    for i := 0 to |modules|
      invariant forall k :: 0 <= k < i ==> !GlobalExport(modules[k], providerName)
    {
      if modules[i].isGlobal && !modules[i].hasUnresolved && providerName in modules[i].exports {
        return true;
      }
    }
    for i := 0 to |modules|
      invariant forall k :: 0 <= k < i && Owns(modules[k], className) ==> Blocked(modules, k, providerName)
    {
      if Owns(modules[i], className) {
        var reached := ReachableFrom(modules, i, providerName);
        if reached {
          return true;
        }
      }
    }
    r := false;
  }

  /** The walk has visited module `k` and found it silent. */
  ghost predicate TargetDone(modules: seq<ModuleEntry>, k: nat, visited: set<nat>, providerName: string) {
    k < |modules| && k in visited && Silent(modules[k], providerName)
  }

  /** There are modules called `name`, and the first `t` of them are done. */
  ghost predicate NameDone(modules: seq<ModuleEntry>, name: string, t: nat, visited: set<nat>, providerName: string) {
    && t <= |Named(modules, name)| && Named(modules, name) != []
    && forall u :: 0 <= u < t ==> TargetDone(modules, Named(modules, name)[u], visited, providerName)
  }

  /** The first `i` imports of `m` are done. */
  ghost predicate ImportsDone(modules: seq<ModuleEntry>, m: nat, i: nat, visited: set<nat>, providerName: string)
    requires m < |modules| && i <= |modules[m].imports|
  {
    forall j :: 0 <= j < i ==>
      var name := modules[m].imports[j]; NameDone(modules, name, |Named(modules, name)|, visited, providerName)
  }

  /** Visited modules are reachable from `start` and, unless they wait or are `current`, done with. */
  ghost predicate Walk(modules: seq<ModuleEntry>, start: nat, visited: set<nat>, queue: seq<nat>, current: set<nat>,
                       providerName: string) {
    && start in visited
    && (forall m: nat :: m in visited ==> m < |modules| && Reach(ModuleGraph(modules), start, m))
    && (forall m: nat :: m in queue ==> m in visited)
    && (forall m: nat :: m in visited && m !in queue && m !in current ==>
          ImportsDone(modules, m, |modules[m].imports|, visited, providerName))
  }

  /** Look at the modules that the import at position `i` of module `m` names. */
  method VisitTargets(modules: seq<ModuleEntry>, ghost start: nat, m: nat, i: nat, visited: set<nat>, queue: seq<nat>,
                      providerName: string) returns (found: bool, visited': set<nat>, queue': seq<nat>)
    requires start < |modules| && m < |modules| && i < |modules[m].imports|
    requires Walk(modules, start, visited, queue, {m}, providerName) && visited <= ModuleGraph(modules).Keys
    requires m in visited && ImportsDone(modules, m, i, visited, providerName)
    ensures found ==> !Blocked(modules, start, providerName)
    ensures !found ==>
      && Walk(modules, start, visited', queue', {m}, providerName) && visited' <= ModuleGraph(modules).Keys
      && visited <= visited' && ImportsDone(modules, m, i + 1, visited', providerName)
    ensures visited' == visited ==> queue' == queue
  {
    hide Walk, ImportsDone, Blocked, Reach;
    visited', queue' := visited, queue;
    var targets := Named(modules, modules[m].imports[i]);
    if |targets| == 0 {
      MissingUnblocks(modules, start, visited, queue, m, i, providerName);
      return true, visited, queue;
    }
    for t := 0 to |targets|
      invariant Walk(modules, start, visited', queue', {m}, providerName) && visited' <= ModuleGraph(modules).Keys
      invariant ImportsDone(modules, m, i, visited', providerName)
      invariant NameDone(modules, modules[m].imports[i], t, visited', providerName)
      invariant visited <= visited' && (visited' == visited ==> queue' == queue)
    {
      var target := targets[t];
      TargetImported(modules, m, i, t);
      if modules[target].hasUnresolved || providerName in modules[target].exports {
        SuppliesUnblocks(modules, start, visited', queue', m, target, providerName);
        return true, visited', queue';
      }
      if target !in visited' {
        WalkVisits(modules, start, visited', queue', m, i, t, providerName);
        visited' := visited' + {target};
        queue' := queue' + [target];
      }
    }
    ImportsDoneMore(modules, m, i, visited', providerName);
    found := false;
  }

  method ReachableFrom(modules: seq<ModuleEntry>, start: nat, providerName: string) returns (r: bool)
    requires start < |modules|
    ensures r <==> !Blocked(modules, start, providerName)
  {
    if modules[start].hasUnresolved {
      return true;
    }
    if providerName in modules[start].providers {
      return true;
    }
    hide Walk, ImportsDone, Blocked, Reach;
    var visited, queue := {start}, [start];
    ghost var all := ModuleGraph(modules).Keys;
    WalkStarts(modules, start, providerName);
    while |queue| > 0
      invariant Walk(modules, start, visited, queue, {}, providerName) && visited <= all
      decreases all - visited, |queue|
    {
      var m := queue[0];
      WalkTakes(modules, start, visited, queue, providerName);
      queue := queue[1..];
      ghost var visitedBefore, queueBefore := visited, queue;
      for i := 0 to |modules[m].imports|
        invariant Walk(modules, start, visited, queue, {m}, providerName) && visited <= all && m in visited
        invariant ImportsDone(modules, m, i, visited, providerName)
        invariant visitedBefore <= visited && (visited == visitedBefore ==> queue == queueBefore)
      {
        var found;
        found, visited, queue := VisitTargets(modules, start, m, i, visited, queue, providerName);
        if found {
          return true;
        }
      }
      WalkFinishes(modules, start, visited, queue, m, providerName);
    }
    WalkDone(modules, start, visited, providerName);
    r := false;
  }

  lemma WalkStarts(modules: seq<ModuleEntry>, start: nat, providerName: string)
    requires start < |modules|
    ensures Walk(modules, start, {start}, [start], {}, providerName)
  {
    ReachSelf(ModuleGraph(modules), start);
  }

  lemma WalkTakes(modules: seq<ModuleEntry>, start: nat, visited: set<nat>, queue: seq<nat>, providerName: string)
    requires |queue| > 0 && Walk(modules, start, visited, queue, {}, providerName)
    ensures queue[0] < |modules| && queue[0] in visited
    ensures Walk(modules, start, visited, queue[1..], {queue[0]}, providerName)
    ensures ImportsDone(modules, queue[0], 0, visited, providerName)
  {
    hide Reach;
    assert queue[0] in queue;
    assert queue == [queue[0]] + queue[1..];
  }

  lemma TargetImported(modules: seq<ModuleEntry>, m: nat, i: nat, t: nat)
    requires m < |modules| && i < |modules[m].imports| && t < |Named(modules, modules[m].imports[i])|
    ensures ImportsModule(modules, m, Named(modules, modules[m].imports[i])[t])
  {
    var targets := Named(modules, modules[m].imports[i]);
    PositionsExact(ModuleNames(modules), modules[m].imports[i]);
    assert targets[t] in targets;
  }

  lemma MissingUnblocks(modules: seq<ModuleEntry>, start: nat, visited: set<nat>, queue: seq<nat>, m: nat, i: nat,
                        providerName: string)
    requires start < |modules| && Walk(modules, start, visited, queue, {m}, providerName) && m in visited
    requires m < |modules| && i < |modules[m].imports| && Named(modules, modules[m].imports[i]) == []
    ensures !Blocked(modules, start, providerName)
  {
    hide Reach, ImportsDone, Named;
    assert !ImportsSilent(modules, m, providerName);
  }

  lemma SuppliesUnblocks(modules: seq<ModuleEntry>, start: nat, visited: set<nat>, queue: seq<nat>, m: nat, k: nat,
                         providerName: string)
    requires start < |modules| && Walk(modules, start, visited, queue, {m}, providerName) && m in visited
    requires ImportsModule(modules, m, k) && !Silent(modules[k], providerName)
    ensures !Blocked(modules, start, providerName)
  {
    hide Reach, ImportsDone, Named;
    assert !ImportsSilent(modules, m, providerName);
  }

  lemma WalkVisits(modules: seq<ModuleEntry>, start: nat, visited: set<nat>, queue: seq<nat>, m: nat, i: nat, t: nat,
                   providerName: string)
    requires Walk(modules, start, visited, queue, {m}, providerName) && m in visited
    requires m < |modules| && i < |modules[m].imports| && t < |Named(modules, modules[m].imports[i])|
    requires ImportsDone(modules, m, i, visited, providerName)
    requires NameDone(modules, modules[m].imports[i], t, visited, providerName)
    ensures var k := Named(modules, modules[m].imports[i])[t];
            && Walk(modules, start, visited + {k}, queue + [k], {m}, providerName)
            && ImportsDone(modules, m, i, visited + {k}, providerName)
            && NameDone(modules, modules[m].imports[i], t, visited + {k}, providerName)
  {
    hide Reach, Named;
    var k := Named(modules, modules[m].imports[i])[t];
    TargetImported(modules, m, i, t);
    EdgeIsImport(modules, m, k);
    ReachThenEdge(ModuleGraph(modules), start, m, k);
  }

  lemma ImportsDoneMore(modules: seq<ModuleEntry>, m: nat, i: nat, visited: set<nat>, providerName: string)
    requires m < |modules| && i < |modules[m].imports| && ImportsDone(modules, m, i, visited, providerName)
    requires var name := modules[m].imports[i]; NameDone(modules, name, |Named(modules, name)|, visited, providerName)
    ensures ImportsDone(modules, m, i + 1, visited, providerName)
  {
  }

  lemma WalkFinishes(modules: seq<ModuleEntry>, start: nat, visited: set<nat>, queue: seq<nat>, m: nat,
                     providerName: string)
    requires Walk(modules, start, visited, queue, {m}, providerName) && m < |modules|
    requires ImportsDone(modules, m, |modules[m].imports|, visited, providerName)
    ensures Walk(modules, start, visited, queue, {}, providerName)
  {
    hide Reach, ImportsDone;
  }

  /** A finished walk has seen everything reachable, and all of it was silent. */
  lemma WalkDone(modules: seq<ModuleEntry>, start: nat, visited: set<nat>, providerName: string)
    requires start < |modules| && Walk(modules, start, visited, [], {}, providerName)
    requires !modules[start].hasUnresolved && providerName !in modules[start].providers
    ensures Blocked(modules, start, providerName)
  {
    hide Reach;
    var g := ModuleGraph(modules);
    forall u: nat, v: nat | u in visited && Edge(g, u, v)
      ensures v in visited
    {
      EdgeIsImport(modules, u, v);
      DoneIsSilent(modules, u, visited, providerName);
    }
    forall m: nat | m < |modules| && Reach(g, start, m)
      ensures ImportsSilent(modules, m, providerName)
    {
      ReachStaysInside(g, visited, start, m);
      DoneIsSilent(modules, m, visited, providerName);
    }
  }

  lemma DoneIsSilent(modules: seq<ModuleEntry>, m: nat, visited: set<nat>, providerName: string)
    requires m < |modules| && ImportsDone(modules, m, |modules[m].imports|, visited, providerName)
    ensures ImportsSilent(modules, m, providerName)
    ensures forall k: nat :: ImportsModule(modules, m, k) ==> k in visited
  {
    forall k: nat | ImportsModule(modules, m, k)
      ensures k in visited && Silent(modules[k], providerName)
    {
      var name := modules[k].className;
      PositionsExact(ModuleNames(modules), name);
      var j :| 0 <= j < |modules[m].imports| && modules[m].imports[j] == name;
      assert k in Named(modules, name);
      var t :| 0 <= t < |Named(modules, name)| && Named(modules, name)[t] == k;
      assert TargetDone(modules, Named(modules, name)[t], visited, providerName);
    }
  }

  // ---- what more entries, and what less knowledge, change ----

  /** `after` is `before` with import or export entries added to existing modules. */
  ghost predicate MoreEntries(before: seq<ModuleEntry>, after: seq<ModuleEntry>) {
    && |before| == |after|
    && forall i :: 0 <= i < |before| ==> MoreInModule(before[i], after[i])
  }

  ghost predicate MoreInModule(a: ModuleEntry, b: ModuleEntry) {
    && b == a.(imports := b.imports, exports := b.exports)
    && (forall x :: x in a.imports ==> x in b.imports)
    && (forall x :: x in a.exports ==> x in b.exports)
  }

  lemma WalkKept(before: seq<ModuleEntry>, after: seq<ModuleEntry>, u: nat, v: nat)
    requires (forall m: nat, k: nat :: ImportsModule(before, m, k) ==> ImportsModule(after, m, k))
    requires Reach(ModuleGraph(before), u, v)
    ensures Reach(ModuleGraph(after), u, v)
  {
    var p :| WalkFromTo(ModuleGraph(before), p, u, v);
    forall i | 0 < i < |p|
      ensures Edge(ModuleGraph(after), p[i - 1], p[i])
    {
      EdgeIsImport(before, p[i - 1], p[i]);
      EdgeIsImport(after, p[i - 1], p[i]);
    }
    assert WalkFromTo(ModuleGraph(after), p, u, v);
  }

  lemma MoreImports(before: seq<ModuleEntry>, after: seq<ModuleEntry>)
    requires MoreEntries(before, after)
    ensures forall m: nat, k: nat :: ImportsModule(before, m, k) ==> ImportsModule(after, m, k)
    ensures ModuleNames(before) == ModuleNames(after)
  {
    forall m: nat, k: nat | ImportsModule(before, m, k)
      ensures ImportsModule(after, m, k)
    {
      assert MoreInModule(before[m], after[m]) && MoreInModule(before[k], after[k]);
    }
    assert forall i :: 0 <= i < |before| ==> before[i].className == after[i].className by {
      assert forall i :: 0 <= i < |before| ==> MoreInModule(before[i], after[i]);
    }
  }

  /** An owner that is blocked with more entries was blocked before. */
  lemma BlockedBefore(before: seq<ModuleEntry>, after: seq<ModuleEntry>, owner: nat, providerName: string)
    requires MoreEntries(before, after) && owner < |before| && Blocked(after, owner, providerName)
    ensures Blocked(before, owner, providerName)
  {
    hide Reach;
    MoreImports(before, after);
    assert MoreInModule(before[owner], after[owner]);
    forall m: nat | m < |before| && Reach(ModuleGraph(before), owner, m)
      ensures ImportsSilent(before, m, providerName)
    {
      WalkKept(before, after, owner, m);
      assert ImportsSilent(after, m, providerName);
      SilentBefore(before, after, m, providerName);
    }
  }

  lemma SilentBefore(before: seq<ModuleEntry>, after: seq<ModuleEntry>, m: nat, providerName: string)
    requires MoreEntries(before, after) && m < |before| && ImportsSilent(after, m, providerName)
    ensures ImportsSilent(before, m, providerName)
  {
    MoreImports(before, after);
    assert MoreInModule(before[m], after[m]);
    forall i | 0 <= i < |before[m].imports|
      ensures Named(before, before[m].imports[i]) != []
    {
      assert before[m].imports[i] in after[m].imports;
      var j :| 0 <= j < |after[m].imports| && after[m].imports[j] == before[m].imports[i];
      assert Named(after, after[m].imports[j]) != [];
    }
    forall k: nat | ImportsModule(before, m, k)
      ensures Silent(before[k], providerName)
    {
      assert ImportsModule(after, m, k) && MoreInModule(before[k], after[k]);
    }
  }

  /** Adding an import or an export entry never makes a resolvable injection unresolvable. */
  lemma MoreEntriesKeepResolvable(a: AppModel, b: AppModel, className: string, providerName: string)
    requires a.providers == b.providers && MoreEntries(a.modules, b.modules)
    requires Resolvable(a, className, providerName)
    ensures Resolvable(b, className, providerName)
  {
    hide Blocked;
    assert forall i :: 0 <= i < |a.modules| ==> MoreInModule(a.modules[i], b.modules[i]);
    if !Resolvable(b, className, providerName) {
      forall i | 0 <= i < |a.modules| && Owns(a.modules[i], className)
        ensures Blocked(a.modules, i, providerName)
      {
        assert Owns(b.modules[i], className);
        BlockedBefore(a.modules, b.modules, i, providerName);
      }
      forall i | 0 <= i < |a.modules|
        ensures !GlobalExport(a.modules[i], providerName)
      {
        assert !GlobalExport(b.modules[i], providerName);
      }
    }
  }

  /** The model with module `k` marked as unresolved. */
  function MarkUnresolved(model: AppModel, k: nat): AppModel
    requires k < |model.modules|
  {
    model.(modules := model.modules[k := model.modules[k].(hasUnresolved := true)])
  }

  /** `k` is the only resolved global module that exports the provider. */
  ghost predicate SoleGlobalExporter(modules: seq<ModuleEntry>, k: nat, providerName: string) {
    && k < |modules| && GlobalExport(modules[k], providerName)
    && forall i :: 0 <= i < |modules| && i != k ==> !GlobalExport(modules[i], providerName)
  }

  /** Every owner is blocked, and there is one. */
  ghost predicate OwnersBlocked(model: AppModel, className: string, providerName: string) {
    && (exists i :: 0 <= i < |model.providers| && model.providers[i].className == providerName)
    && (exists i :: 0 <= i < |model.modules| && Owns(model.modules[i], className))
    && forall i :: 0 <= i < |model.modules| && Owns(model.modules[i], className) ==>
      Blocked(model.modules, i, providerName)
  }

  /** Module `k` is `owner` itself, or some import that can be followed from `owner` leads to it. */
  ghost predicate Meets(modules: seq<ModuleEntry>, owner: nat, k: nat) {
    owner == k || exists m: nat :: Reach(ModuleGraph(modules), owner, m) && ImportsModule(modules, m, k)
  }

  lemma {:induction false} SameImports(a: seq<ModuleEntry>, b: seq<ModuleEntry>, m: nat, k: nat)
    requires |a| == |b| && k <= |a|
    requires forall i: nat, j: nat :: ImportsModule(a, i, j) <==> ImportsModule(b, i, j)
    ensures ImportedBy(a, m, k) == ImportedBy(b, m, k)
  {
    if k > 0 {
      SameImports(a, b, m, k - 1);
    }
  }

  /** Marking a module changes neither names nor imports. */
  lemma MarkedGraph(modules: seq<ModuleEntry>, k: nat)
    requires k < |modules|
    ensures var after := modules[k := modules[k].(hasUnresolved := true)];
            && ModuleNames(after) == ModuleNames(modules) && ModuleGraph(after) == ModuleGraph(modules)
            && forall m: nat, j: nat :: ImportsModule(modules, m, j) <==> ImportsModule(after, m, j)
  {
    var after := modules[k := modules[k].(hasUnresolved := true)];
    assert ModuleNames(after) == ModuleNames(modules);
    assert forall m: nat, j: nat :: ImportsModule(modules, m, j) <==> ImportsModule(after, m, j);
    forall m: nat | m < |modules|
      ensures ImportedBy(after, m, |modules|) == ImportedBy(modules, m, |modules|)
    {
      SameImports(modules, after, m, |modules|);
    }
  }

  /** An owner is blocked after the marking exactly when it was blocked before and the walk never meets the module. */
  lemma MarkedBlocked(modules: seq<ModuleEntry>, k: nat, owner: nat, providerName: string)
    requires k < |modules| && owner < |modules|
    ensures Blocked(modules[k := modules[k].(hasUnresolved := true)], owner, providerName)
            <==> Blocked(modules, owner, providerName) && !Meets(modules, owner, k)
  {
    var after := modules[k := modules[k].(hasUnresolved := true)];
    MarkedGraph(modules, k);
    hide Reach, ModuleGraph, ImportsModule, ModuleNames;
    forall m: nat | m < |modules|
      ensures ImportsSilent(after, m, providerName)
              <==> ImportsSilent(modules, m, providerName) && !ImportsModule(modules, m, k)
    {
      MarkedSilent(modules, k, m, providerName);
    }
    forall m: nat | Reach(ModuleGraph(modules), owner, m) && ImportsModule(modules, m, k)
      ensures m < |modules|
    {
      ImporterInRange(modules, m, k);
    }
    hide ImportsSilent;
  }

  lemma ImporterInRange(modules: seq<ModuleEntry>, m: nat, k: nat)
    requires ImportsModule(modules, m, k)
    ensures m < |modules| && k < |modules|
  {
  }

  lemma MarkedSilent(modules: seq<ModuleEntry>, k: nat, m: nat, providerName: string)
    requires k < |modules| && m < |modules|
    ensures ImportsSilent(modules[k := modules[k].(hasUnresolved := true)], m, providerName)
            <==> ImportsSilent(modules, m, providerName) && !ImportsModule(modules, m, k)
  {
    var after := modules[k := modules[k].(hasUnresolved := true)];
    MarkedGraph(modules, k);
    assert after[m].imports == modules[m].imports;
    assert forall i: nat :: ImportsModule(modules, m, i) ==>
      (Silent(after[i], providerName) <==> i != k && Silent(modules[i], providerName));
  }

  /**
   * Losing knowledge about a module fails open, with one exception: a resolvable injection becomes
   * unresolvable exactly when the module was the only resolved global exporter, every owner was
   * blocked but for it, and no owner is the module or meets it along its imports.
   */
  lemma MarkingUnresolves(model: AppModel, k: nat, className: string, providerName: string)
    requires k < |model.modules|
    ensures Resolvable(model, className, providerName) && !Resolvable(MarkUnresolved(model, k), className, providerName)
            <==> SoleGlobalExporter(model.modules, k, providerName) && OwnersBlocked(model, className, providerName)
                 && forall i :: 0 <= i < |model.modules| && Owns(model.modules[i], className) ==>
                      !Meets(model.modules, i, k)
  {
    hide Blocked, Meets;
    var b := MarkUnresolved(model, k);
    forall i | 0 <= i < |model.modules|
      ensures Owns(model.modules[i], className) <==> Owns(b.modules[i], className)
      ensures GlobalExport(b.modules[i], providerName) <==> i != k && GlobalExport(model.modules[i], providerName)
      ensures Blocked(b.modules, i, providerName) <==>
              Blocked(model.modules, i, providerName) && !Meets(model.modules, i, k)
    {
      MarkedBlocked(model.modules, k, i, providerName);
    }
  }

  /** The exception is real: one global exporter, one owner, and the exporter's metadata turns unreadable. */
  lemma MarkingCanUnresolve()
    ensures exists model: AppModel, k: nat :: k < |model.modules|
              && Resolvable(model, "C", "P") && !Resolvable(MarkUnresolved(model, k), "C", "P")
  {
    var exporter := ModuleEntry("G", [], [], [], ["P"], false, true);
    var owner := ModuleEntry("M", [], ["C"], [], [], false, false);
    var model := AppModel([exporter, owner], [Provider("P", "p.ts", [])]);
    var after := MarkUnresolved(model, 0);
    assert GlobalExport(model.modules[0], "P");
    assert Owns(after.modules[1], "C");
    forall m: nat | m < 2
      ensures ImportsSilent(after.modules, m, "P")
    {
    }
    assert Blocked(after.modules, 1, "P");
    assert after.providers[0].className == "P";
  }
}
