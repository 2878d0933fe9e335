/** How the database collector wraps client classes as modules are loaded, in any order and any number of times. */
module PrismaWrapping {
  import opened Options

  /** A class, its superclass if it has one, and whether it carries the marker itself. */
  datatype ClassInfo = ClassInfo(parent: Option<nat>, ownMarker: bool)

  /** Where wrapping a class fails, if it does. */
  datatype Mishap = Smooth | ExtendFails | AssignFails

  /** What a client instance offers to observe its queries. */
  datatype Api = Observable | Missing | InstallFails

  datatype Step =
    | Define(parent: Option<nat>)                         // the host declares a class
    | Export(client: Option<nat>)                         // a new exports object, maybe with a copied client class
    | Reassign(record: nat, client: Option<nat>)          // the host overwrites the property
    | Load(record: nat, isTarget: bool, mishap: Mishap)   // a module load returns the exports object
    | Construct(chosen: nat, api: Api)                      // the host creates a client
    | Query(instance: nat)                                // and runs a query on it

  /**
   * The classes, the `PrismaClient` property of every exports object, the wrapper map, how many observers each
   * client instance has, and how many events each query caused.
   */
  datatype WrapState = WrapState(
    classes: seq<ClassInfo>, records: seq<Option<nat>>, wrapped: map<nat, nat>, disabled: bool,
    instances: seq<nat>, events: seq<nat>)

  const Initial := WrapState([], [], map[], false, [], [])

  /** Superclasses are declared first. */
  predicate WellFounded(classes: seq<ClassInfo>) {
    forall c :: 0 <= c < |classes| && classes[c].parent.Some? ==> classes[c].parent.value < c
  }

  /** How many wrappers an instance of the class runs through: the class itself and all its superclasses. */
  function Wrappers(classes: seq<ClassInfo>, c: nat): nat
    requires WellFounded(classes) && c < |classes|
  {
    var info := classes[c];
    (if info.ownMarker then 1 else 0) + if info.parent.Some? then Wrappers(classes, info.parent.value) else 0
  }

  /** Whether reading the marker off a class finds it: static properties are inherited. */
  predicate Marked(classes: seq<ClassInfo>, c: nat)
    requires WellFounded(classes) && c < |classes|
  {
    Wrappers(classes, c) > 0
  }

  predicate Known(s: WrapState, client: Option<nat>) {
    client.Some? ==> client.value < |s.classes|
  }

  /** `wrapClientOnce` on an exports object. */
  function Wrap(s: WrapState, record: nat, mishap: Mishap): WrapState
    requires WellFounded(s.classes) && record < |s.records| && Known(s, s.records[record])
  {
    if s.disabled || s.records[record].None? then s
    else
      var client := s.records[record].value;
      if Marked(s.classes, client) then s
      else if client in s.wrapped then
        if mishap.AssignFails? then s.(disabled := true)
        else s.(records := s.records[record := Some(s.wrapped[client])])
      else if mishap.ExtendFails? then s.(disabled := true)
      else
        var wrapper := |s.classes|;
        var created := s.(classes := s.classes + [ClassInfo(Some(client), true)], wrapped := s.wrapped[client := wrapper]);
        if mishap.AssignFails? then created.(disabled := true)
        else created.(records := s.records[record := Some(wrapper)])
  }

  /** The constructors of all wrappers of the class install one observer each, unless the collector is disabled. */
  function Instantiate(s: WrapState, client: nat, api: Api): WrapState
    requires WellFounded(s.classes) && client < |s.classes|
  {
    var n := Wrappers(s.classes, client);
    if s.disabled || n == 0 then s.(instances := s.instances + [0])
    else if api.Observable? then s.(instances := s.instances + [n])
    else s.(instances := s.instances + [0], disabled := true)
  }

  /** The effect of one step; a step that cannot happen changes nothing. */
  function Apply(s: WrapState, step: Step): WrapState
    requires Consistent(s)
  {
    match step
    case Define(parent) =>
      if Known(s, parent) then s.(classes := s.classes + [ClassInfo(parent, false)]) else s
    case Export(client) =>
      if Known(s, client) then s.(records := s.records + [client]) else s
    case Reassign(record, client) =>
      if record < |s.records| && Known(s, client) then s.(records := s.records[record := client]) else s
    case Load(record, isTarget, mishap) =>
      if record < |s.records| && isTarget then Wrap(s, record, mishap) else s
    case Construct(client, api) =>
      if client < |s.classes| then Instantiate(s, client, api) else s
    case Query(instance) =>
      if instance < |s.instances| then
        s.(events := s.events + [if s.disabled then 0 else s.instances[instance]])
      else s
  }

  /** What holds after any steps. */
  ghost predicate Consistent(s: WrapState) {
    && WellFounded(s.classes)
    && (forall r :: 0 <= r < |s.records| ==> Known(s, s.records[r]))
    && (forall c :: 0 <= c < |s.classes| ==> Wrappers(s.classes, c) <= 1)
    && (forall base :: base in s.wrapped ==>
          base < s.wrapped[base] < |s.classes| && s.classes[s.wrapped[base]] == ClassInfo(Some(base), true))
    && (forall w :: 0 <= w < |s.classes| && s.classes[w].ownMarker ==>
          s.classes[w].parent.Some? && s.classes[w].parent.value in s.wrapped
          && s.wrapped[s.classes[w].parent.value] == w)
    && (forall i :: 0 <= i < |s.instances| ==> s.instances[i] <= 1)
    && (forall q :: 0 <= q < |s.events| ==> s.events[q] <= 1)
  }

  /** Declaring a class leaves the chains of the others alone. */
  lemma {:induction false} WrappersOfOlder(classes: seq<ClassInfo>, info: ClassInfo, c: nat)
    requires WellFounded(classes) && WellFounded(classes + [info]) && c < |classes|
    ensures Wrappers(classes + [info], c) == Wrappers(classes, c)
    decreases c
  {
    if classes[c].parent.Some? {
      WrappersOfOlder(classes, info, classes[c].parent.value);
    }
  }

  lemma AddClass(classes: seq<ClassInfo>, info: ClassInfo)
    requires WellFounded(classes) && (info.parent.Some? ==> info.parent.value < |classes|)
    ensures WellFounded(classes + [info])
    ensures forall c: nat :: c < |classes| ==> Wrappers(classes + [info], c) == Wrappers(classes, c)
    ensures Wrappers(classes + [info], |classes|)
            == (if info.ownMarker then 1 else 0) + if info.parent.Some? then Wrappers(classes, info.parent.value) else 0
  {
    forall c: nat | c < |classes|
      ensures Wrappers(classes + [info], c) == Wrappers(classes, c)
    {
      WrappersOfOlder(classes, info, c);
    }
  }

  lemma WrapKeeps(s: WrapState, record: nat, mishap: Mishap)
    requires Consistent(s) && record < |s.records|
    ensures Consistent(Wrap(s, record, mishap))
  {
    if s.records[record].Some? {
      AddClass(s.classes, ClassInfo(s.records[record], true));
      hide Wrappers;
    }
  }

  lemma DefineKeeps(s: WrapState, parent: Option<nat>)
    requires Consistent(s)
    ensures Consistent(Apply(s, Define(parent)))
  {
    if Known(s, parent) {
      AddClass(s.classes, ClassInfo(parent, false));
      hide Wrappers;
    }
  }

  lemma ExportKeeps(s: WrapState, client: Option<nat>)
    requires Consistent(s)
    ensures Consistent(Apply(s, Export(client)))
  {
    hide Wrappers;
  }

  lemma ReassignKeeps(s: WrapState, record: nat, client: Option<nat>)
    requires Consistent(s)
    ensures Consistent(Apply(s, Reassign(record, client)))
  {
    hide Wrappers;
  }

  lemma ConstructKeeps(s: WrapState, client: nat, api: Api)
    requires Consistent(s)
    ensures Consistent(Apply(s, Construct(client, api)))
  {
    hide Wrappers;
  }

  lemma QueryKeeps(s: WrapState, instance: nat)
    requires Consistent(s)
    ensures Consistent(Apply(s, Query(instance)))
  {
    hide Wrappers;
  }

  /** Every step keeps the wrappers consistent, whoever shares or copies a class and whatever fails. */
  lemma StepKeeps(s: WrapState, step: Step)
    requires Consistent(s)
    ensures Consistent(Apply(s, step))
  {
    match step
    case Define(parent) =>
      hide Consistent, Apply;
      DefineKeeps(s, parent);
    case Export(client) =>
      hide Consistent, Apply;
      ExportKeeps(s, client);
    case Reassign(record, client) =>
      hide Consistent, Apply;
      ReassignKeeps(s, record, client);
    case Load(record, isTarget, mishap) =>
      if record < |s.records| && isTarget {
        WrapKeeps(s, record, mishap);
      }
      hide Consistent, Wrap;
    case Construct(client, api) =>
      hide Consistent, Apply;
      ConstructKeeps(s, client, api);
    case Query(instance) =>
      hide Consistent, Apply;
      QueryKeeps(s, instance);
  }

  ghost function Run(steps: seq<Step>): (s: WrapState)
    ensures Consistent(s)
  {
    if steps == [] then Initial
    else
      var before := Run(steps[..|steps| - 1]);
      StepKeeps(before, steps[|steps| - 1]);
      Apply(before, steps[|steps| - 1])
  }

  // ---- what that means ----

  /** A base class has at most one wrapper, and no wrapper extends a wrapper, directly or through other classes. */
  lemma OneWrapperPerClass(steps: seq<Step>, v: nat, w: nat)
    requires v < |Run(steps).classes| && w < |Run(steps).classes|
    requires Run(steps).classes[v].ownMarker && Run(steps).classes[w].ownMarker
    ensures Run(steps).classes[v].parent == Run(steps).classes[w].parent ==> v == w
    ensures !Marked(Run(steps).classes, Run(steps).classes[v].parent.value)
  {
    assert Wrappers(Run(steps).classes, v) <= 1;
  }

  /** No query ever causes two events. */
  lemma AtMostOneEventPerQuery(steps: seq<Step>, q: nat)
    requires q < |Run(steps).events|
    ensures Run(steps).events[q] <= 1
  {
  }

  /** An intercepted exports object ends at a marked class, unless it has no client class or the collector gave up. */
  lemma InterceptedRecordIsMarked(s: WrapState, record: nat, mishap: Mishap)
    requires Consistent(s) && record < |s.records| && s.records[record].Some?
    ensures var t := Wrap(s, record, mishap);
            Consistent(t) && (t.disabled || (t.records[record].Some? && Marked(t.classes, t.records[record].value)))
  {
    WrapKeeps(s, record, mishap);
  }

  /** Loading the same module again changes nothing. */
  lemma LoadTwice(s: WrapState, record: nat, mishap: Mishap, again: Mishap)
    requires Consistent(s) && record < |s.records|
    ensures var t := Wrap(s, record, mishap); Consistent(t) && Wrap(t, record, again) == t
  {
    WrapKeeps(s, record, mishap);
    if s.records[record].Some? {
      InterceptedRecordIsMarked(s, record, mishap);
    }
  }

  /** Exports objects that share a class end at the same wrapper. */
  lemma SharedClassSharedWrapper(s: WrapState, a: nat, b: nat)
    requires Consistent(s) && !s.disabled && a < |s.records| && b < |s.records| && s.records[a] == s.records[b]
    ensures var t := Wrap(s, a, Smooth);
            && Consistent(t)
            && var u := Wrap(t, b, Smooth);
               u.records[a] == u.records[b] && (u.records[a].Some? ==> Marked(u.classes, u.records[a].value))
  {
    WrapKeeps(s, a, Smooth);
    var t := Wrap(s, a, Smooth);
    WrapKeeps(t, b, Smooth);
    if s.records[a].Some? {
      InterceptedRecordIsMarked(s, a, Smooth);
      InterceptedRecordIsMarked(t, b, Smooth);
      AddClass(s.classes, ClassInfo(s.records[a], true));
      hide Wrappers;
    }
  }

  /** Through a marked class whose instances can be observed, every query causes exactly one event. */
  lemma ObservedExactlyOnce(s: WrapState, client: nat)
    requires Consistent(s) && !s.disabled && client < |s.classes| && Marked(s.classes, client)
    ensures var t := Apply(s, Construct(client, Observable));
            Consistent(t) && Apply(t, Query(|s.instances|)).events == s.events + [1]
  {
    StepKeeps(s, Construct(client, Observable));
    assert Wrappers(s.classes, client) == 1;
  }

  // ---- the collector ----

  class DbCollector {
    var classes: seq<ClassInfo>
    var records: seq<Option<nat>>
    var wrappedClasses: map<nat, nat>
    var disabled: bool
    var instances: seq<nat>     // how many observers each client has
    var events: seq<nat>        // how many events each query caused

    ghost function State(): WrapState
      reads this
    {
      WrapState(classes, records, wrappedClasses, disabled, instances, events)
    }

    constructor ()
      ensures State() == Initial
    {
      classes, records, wrappedClasses, disabled, instances, events := [], [], map[], false, [], [];
    }

    /** Reading the marker of a class, which its superclasses may provide. */
    method HasMarker(client: nat) returns (marked: bool)
      requires WellFounded(classes) && client < |classes|
      ensures marked == Marked(classes, client)
    {
      var current: nat := client;
      while !classes[current].ownMarker && classes[current].parent.Some?
        invariant current < |classes| && Wrappers(classes, current) == Wrappers(classes, client)
        decreases current
      {
        current := classes[current].parent.value;
      }
      marked := classes[current].ownMarker;
    }

    method WrapClientOnce(record: nat, mishap: Mishap) returns (thrown: bool)
      requires Consistent(State()) && record < |records|
      modifies this`classes, this`records, this`wrappedClasses
      ensures State().(disabled := disabled || thrown) == Wrap(old(State()), record, mishap)
    {
      thrown := false;
      if disabled || records[record].None? {
        return;
      }
      var client := records[record].value;
      var marked := HasMarker(client);
      if marked {
        return;
      }
      if client in wrappedClasses {
        if mishap.AssignFails? {
          return true;
        }
        records := records[record := Some(wrappedClasses[client])];
        return;
      }
      if mishap.ExtendFails? {
        return true;
      }
      var wrapper := |classes|;
      classes := classes + [ClassInfo(Some(client), true)];
      wrappedClasses := wrappedClasses[client := wrapper];
      if mishap.AssignFails? {
        return true;
      }
      records := records[record := Some(wrapper)];
    }

    /** An intercepted module load: the original load first, then the wrapping, whose errors only disable. */
    method OnLoad(record: nat, isTarget: bool, mishap: Mishap)
      requires Consistent(State()) && record < |records|
      modifies this
      ensures State() == Apply(old(State()), Load(record, isTarget, mishap)) && Consistent(State())
    {
      StepKeeps(State(), Load(record, isTarget, mishap));
      if isTarget {
        var thrown := WrapClientOnce(record, mishap);
        if thrown {
          disabled := true;
        }
      }
    }

    /** How many wrapper constructors a new instance of the class runs through. */
    method CountWrappers(client: nat) returns (n: nat)
      requires WellFounded(classes) && client < |classes|
      ensures n == Wrappers(classes, client)
    {
      n := 0;
      var current: Option<nat> := Some(client);
      while current.Some?
        invariant current.Some? ==> current.value <= client
        invariant n + (if current.Some? then Wrappers(classes, current.value) else 0) == Wrappers(classes, client)
        decreases if current.Some? then current.value + 1 else 0
      {
        if classes[current.value].ownMarker {
          n := n + 1;
        }
        current := classes[current.value].parent;
      }
    }

    /** The host creates a client: every wrapper constructor on the way installs an observer or gives up. */
    method OnConstruct(client: nat, api: Api)
      requires Consistent(State()) && client < |classes|
      modifies this`instances, this`disabled
      ensures State() == Apply(old(State()), Construct(client, api))
    {
      var n := CountWrappers(client);
      if disabled || n == 0 {
        instances := instances + [0];
      } else if api.Observable? {
        instances := instances + [n];
      } else {
        instances := instances + [0];
        disabled := true;
      }
    }

    /** One step, if it can happen. */
    method Perform(step: Step)
      requires Consistent(State())
      modifies this
      ensures Consistent(State()) && State() == Apply(old(State()), step)
    {
      StepKeeps(State(), step);
      match step {
        case Define(parent) =>
          if parent.None? || parent.value < |classes| {
            classes := classes + [ClassInfo(parent, false)];
          }
        case Export(client) =>
          if client.None? || client.value < |classes| {
            records := records + [client];
          }
        case Reassign(record, client) =>
          if record < |records| && (client.None? || client.value < |classes|) {
            records := records[record := client];
          }
        case Load(record, isTarget, mishap) =>
          if record < |records| {
            OnLoad(record, isTarget, mishap);
          }
        case Construct(client, api) =>
          if client < |classes| {
            OnConstruct(client, api);
          }
        case Query(instance) =>
          if instance < |instances| {
            events := events + [if disabled then 0 else instances[instance]];
          }
      }
    }

    /** Whatever happens to a fresh collector, its state is the one the steps lead to, and it is consistent. */
    method PerformAll(steps: seq<Step>)
      requires State() == Initial
      modifies this
      ensures State() == Run(steps) && Consistent(State())
    {
      hide Apply, Consistent;
      assert Run([]) == Initial;
      for i := 0 to |steps|
        invariant State() == Run(steps[..i]) && Consistent(State())
      {
        assert steps[..i + 1][..i] == steps[..i];
        Perform(steps[i]);
      }
      assert steps[..|steps|] == steps;
    }
  }
}
