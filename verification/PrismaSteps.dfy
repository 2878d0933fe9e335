/** What the database collector wraps, when it gives up and which queries cause events, told from the steps. */
module PrismaSteps {
  import opened Options
  import opened PrismaWrapping

  // ---- the marker ----

  /** Each class is the superclass of the one before it, and the last one carries the marker itself. */
  ghost predicate LeadsToMarker(classes: seq<ClassInfo>, up: seq<nat>) {
    && up != [] && (forall i :: 0 <= i < |up| ==> up[i] < |classes|)
    && (forall i :: 0 < i < |up| ==> IsSuperclass(classes, up, i))
    && classes[up[|up| - 1]].ownMarker
  }

  ghost predicate IsSuperclass(classes: seq<ClassInfo>, up: seq<nat>, i: nat)
    requires 0 < i < |up|
  {
    up[i - 1] < |classes| && classes[up[i - 1]].parent == Some(up[i])
  }

  ghost predicate InheritsMarker(classes: seq<ClassInfo>, c: nat) {
    exists up :: LeadsToMarker(classes, up) && up[0] == c
  }

  /** A class is marked exactly if it or one of its superclasses carries the marker. */
  lemma {:induction false} MarkedExactly(classes: seq<ClassInfo>, c: nat)
    requires WellFounded(classes) && c < |classes|
    ensures Marked(classes, c) <==> InheritsMarker(classes, c)
    decreases c
  {
    var info := classes[c];
    if info.parent.Some? {
      MarkedExactly(classes, info.parent.value);
    }
    if info.ownMarker {
      assert LeadsToMarker(classes, [c]);
    } else if info.parent.Some? && InheritsMarker(classes, info.parent.value) {
      MarkerBelow(classes, c);
    }
    if !info.ownMarker && InheritsMarker(classes, c) {
      MarkerAbove(classes, c);
    }
    hide InheritsMarker;
  }

  lemma MarkerBelow(classes: seq<ClassInfo>, c: nat)
    requires c < |classes| && classes[c].parent.Some? && InheritsMarker(classes, classes[c].parent.value)
    ensures InheritsMarker(classes, c)
  {
    var up :| LeadsToMarker(classes, up) && up[0] == classes[c].parent.value;
    var longer := [c] + up;
    forall i | 0 < i < |longer|
      ensures IsSuperclass(classes, longer, i)
    {
      if i > 1 {
        assert IsSuperclass(classes, up, i - 1);
      }
    }
    assert longer[|longer| - 1] == up[|up| - 1];
    assert LeadsToMarker(classes, longer);
  }

  lemma MarkerAbove(classes: seq<ClassInfo>, c: nat)
    requires c < |classes| && !classes[c].ownMarker && InheritsMarker(classes, c)
    ensures classes[c].parent.Some? && InheritsMarker(classes, classes[c].parent.value)
  {
    var up :| LeadsToMarker(classes, up) && up[0] == c;
    assert IsSuperclass(classes, up, 1);
    var rest := up[1..];
    forall i | 0 < i < |rest|
      ensures IsSuperclass(classes, rest, i)
    {
      assert IsSuperclass(classes, up, i + 1);
    }
    assert rest[|rest| - 1] == up[|up| - 1];
    assert LeadsToMarker(classes, rest);
  }

  // ---- what one load does ----

  /** The collector is on, and the exports object has a client class without a marker. */
  ghost predicate NeedsWrapping(s: WrapState, record: nat)
    requires record < |s.records|
  {
    !s.disabled && s.records[record].Some? && !InheritsMarker(s.classes, s.records[record].value)
  }

  /** Making the wrapper is attempted, and either that or storing it fails. */
  ghost predicate WrappingFails(s: WrapState, record: nat, mishap: Mishap)
    requires record < |s.records| && NeedsWrapping(s, record)
  {
    mishap.AssignFails? || (mishap.ExtendFails? && s.records[record].value !in s.wrapped)
  }

  /** A load touches its own exports object only, adds at most the one wrapper it needs, and a failure leaves it. */
  lemma WrapExactly(s: WrapState, record: nat, mishap: Mishap)
    requires Consistent(s) && record < |s.records|
    ensures var t := Wrap(s, record, mishap);
            && t.instances == s.instances && t.events == s.events && |t.records| == |s.records|
            && (forall r :: 0 <= r < |s.records| && r != record ==> t.records[r] == s.records[r])
            && (!NeedsWrapping(s, record) ==> t == s)
    ensures NeedsWrapping(s, record) ==>
            var t, client := Wrap(s, record, mishap), s.records[record].value;
            && (t.disabled <==> WrappingFails(s, record, mishap))
            && (t.disabled ==> t.records == s.records)
            && (!t.disabled ==> client in t.wrapped && t.records[record] == Some(t.wrapped[client]))
            && (client in s.wrapped || mishap.ExtendFails? ==> t.classes == s.classes && t.wrapped == s.wrapped)
            && (client !in s.wrapped && !mishap.ExtendFails? ==>
                  && t.classes == s.classes + [ClassInfo(Some(client), true)]
                  && t.wrapped == s.wrapped[client := |s.classes|])
  {
    if s.records[record].Some? {
      MarkedExactly(s.classes, s.records[record].value);
    }
    hide InheritsMarker, Wrappers;
  }

  // ---- when the collector gives up ----

  /** Step `k` is a load of a target that fails to wrap, or creates a client that cannot be observed. */
  ghost predicate GivesUpAt(steps: seq<Step>, k: nat)
    requires k < |steps|
  {
    GivesUp(Run(steps[..k]), steps[k])
  }

  ghost predicate GivesUp(s: WrapState, step: Step) {
    match step
    case Load(record, isTarget, mishap) =>
      isTarget && record < |s.records| && NeedsWrapping(s, record) && WrappingFails(s, record, mishap)
    case Construct(chosen, api) =>
      !s.disabled && chosen < |s.classes| && InheritsMarker(s.classes, chosen) && !api.Observable?
    case _ => false
  }

  lemma DisabledStep(s: WrapState, step: Step)
    requires Consistent(s)
    ensures Apply(s, step).disabled <==> s.disabled || GivesUp(s, step)
  {
    match step
    case Load(record, isTarget, mishap) =>
      if record < |s.records| {
        WrapExactly(s, record, mishap);
      }
      hide Wrap, InheritsMarker, Consistent;
    case Construct(chosen, api) =>
      if chosen < |s.classes| {
        MarkedExactly(s.classes, chosen);
      }
      hide Wrappers, InheritsMarker;
    case _ =>
  }

  /** The collector is off exactly after a step at which it gave up. */
  lemma DisabledExactly(steps: seq<Step>)
    ensures Run(steps).disabled <==> exists k :: 0 <= k < |steps| && GivesUpAt(steps, k)
  {
    hide Run, GivesUpAt;
    DisabledUpTo(steps, |steps|);
    assert steps[..|steps|] == steps;
  }

  lemma {:induction false} DisabledUpTo(steps: seq<Step>, n: nat)
    requires n <= |steps|
    ensures Run(steps[..n]).disabled <==> exists k :: 0 <= k < n && GivesUpAt(steps, k)
  {
    hide Apply, GivesUp, Consistent;
    if n > 0 {
      DisabledUpTo(steps, n - 1);
      assert steps[..n][..n - 1] == steps[..n - 1];
      DisabledStep(Run(steps[..n - 1]), steps[n - 1]);
      assert GivesUpAt(steps, n - 1) <==> GivesUp(Run(steps[..n - 1]), steps[n - 1]);
      hide GivesUpAt;
    }
  }

  // ---- which queries cause events ----

  /** Step `j` creates the client with this number: as many were created before it. */
  ghost predicate CreatesAt(steps: seq<Step>, instance: nat, j: nat) {
    && j < |steps| && steps[j].Construct? && |Run(steps[..j]).instances| == instance
    && steps[j].chosen < |Run(steps[..j]).classes|
  }

  /** At step `j` the collector was on, the class marked, and the client could be observed. */
  ghost predicate ObservedAt(steps: seq<Step>, j: nat)
    requires j < |steps| && steps[j].Construct?
  {
    !Run(steps[..j]).disabled && InheritsMarker(Run(steps[..j]).classes, steps[j].chosen) && steps[j].api.Observable?
  }

  lemma InstanceStep(s: WrapState, step: Step, i: nat)
    requires Consistent(s)
    ensures i < |s.instances| ==> i < |Apply(s, step).instances| && Apply(s, step).instances[i] == s.instances[i]
    ensures |s.instances| <= i < |Apply(s, step).instances| ==>
      && i == |s.instances| && step.Construct? && step.chosen < |s.classes|
      && Apply(s, step).instances[i]
         == if !s.disabled && InheritsMarker(s.classes, step.chosen) && step.api.Observable? then 1 else 0
  {
    match step
    case Load(record, _, mishap) =>
      if record < |s.records| {
        WrapExactly(s, record, mishap);
      }
      hide Wrap, InheritsMarker, Consistent;
    case Construct(chosen, api) =>
      if chosen < |s.classes| {
        MarkedExactly(s.classes, chosen);
      }
      hide Wrappers, InheritsMarker;
    case _ => hide InheritsMarker, Consistent;
  }

  /** Every client was created at some step, and is observed exactly if it could be at that step. */
  lemma {:induction false} InstanceHasOrigin(steps: seq<Step>, i: nat) returns (j: nat)
    requires i < |Run(steps).instances|
    ensures CreatesAt(steps, i, j)
    ensures Run(steps).instances[i] == if ObservedAt(steps, j) then 1 else 0
  {
    var n := |steps| - 1;
    var before := steps[..n];
    InstanceStep(Run(before), steps[n], i);
    hide Apply, InheritsMarker, Consistent;
    if i < |Run(before).instances| {
      j := InstanceHasOrigin(before, i);
      assert before[..j] == steps[..j];
    } else {
      j := n;
    }
  }

  /**
   * A query of the client created at step `j` causes one event exactly if the client was observed then and the
   * collector is still on; no other kind of step causes events.
   */
  lemma EventsExactly(steps: seq<Step>, step: Step)
    ensures var before, after := Run(steps), Run(steps + [step]);
            && (step.Query? && step.instance < |before.instances| ==>
                  exists j :: CreatesAt(steps, step.instance, j)
                    && after.events == before.events + [if ObservedAt(steps, j) && !before.disabled then 1 else 0])
            && (!(step.Query? && step.instance < |before.instances|) ==> after.events == before.events)
  {
    assert (steps + [step])[..|steps|] == steps;
    var s := Run(steps);
    EventStep(s, step);
    hide Apply, InheritsMarker, Consistent, CreatesAt, ObservedAt;
    if step.Query? && step.instance < |s.instances| {
      var j := InstanceHasOrigin(steps, step.instance);
    }
  }

  lemma EventStep(s: WrapState, step: Step)
    requires Consistent(s)
    ensures step.Query? && step.instance < |s.instances| ==>
      Apply(s, step).events == s.events + [if s.disabled then 0 else s.instances[step.instance]]
    ensures !(step.Query? && step.instance < |s.instances|) ==> Apply(s, step).events == s.events
  {
    if step.Load? && step.record < |s.records| {
      WrapExactly(s, step.record, step.mishap);
    }
    hide InheritsMarker, Consistent, Wrap;
  }
}
