/** The iterative component search over the provider graph, on arrays and an explicit frame stack. */
module ProviderComponents {
  import opened Graphs
  import opened NestModel
  import opened Tarjan

  /** One adjacency entry: the injection chosen for the edge and the provider it leads to. */
  datatype InjectionEdge = InjectionEdge(injection: InjectionRef, target: nat)

  type Adjacency = seq<seq<InjectionEdge>>

  ghost predicate ValidAdjacency(adjacency: Adjacency) {
    forall v, j :: 0 <= v < |adjacency| && 0 <= j < |adjacency[v]| ==> adjacency[v][j].target < |adjacency|
  }

  function Targets(edges: seq<InjectionEdge>): seq<nat> {
    seq(|edges|, i requires 0 <= i < |edges| => edges[i].target)
  }

  function ToGraph(adjacency: Adjacency): Graph<nat> {
    map v: nat | 0 <= v < |adjacency| :: Targets(adjacency[v])
  }

  datatype Frame = Frame(node: nat, edgePos: nat)

  /** The out-edges that the live frames have not consumed yet. */
  ghost function Pending(adjacency: Adjacency, call: seq<Frame>): nat {
    if call == [] then 0
    else
      var top := call[|call| - 1];
      Pending(adjacency, call[..|call| - 1])
      + if top.node < |adjacency| && top.edgePos < |adjacency[top.node]| then |adjacency[top.node]| - top.edgePos else 0
  }

  // ---- how the arrays represent the snapshot ----

  /** `-1` marks a node that has no number. */
  ghost predicate Numbers(a: seq<int>, m: map<nat, nat>) {
    && (forall v: nat :: v in m <==> v < |a| && a[v] != -1)
    && (forall v: nat :: v in m ==> v < |a| && a[v] == m[v])
  }

  ghost predicate Lows(a: seq<int>, m: map<nat, nat>) {
    forall v: nat :: v in m ==> v < |a| && a[v] == m[v]
  }

  ghost predicate Flags(a: seq<bool>, on: set<nat>) {
    forall v: nat :: v in on <==> v < |a| && a[v]
  }

  ghost predicate Frames(frames: seq<Frame>, call: seq<nat>, pos: map<nat, nat>) {
    && |frames| == |call|
    && forall i :: 0 <= i < |frames| ==>
      frames[i].node == call[i] && call[i] in pos && pos[call[i]] == frames[i].edgePos
  }

  lemma NumbersSet(a: seq<int>, m: map<nat, nat>, v: nat, x: nat)
    requires Numbers(a, m) && v < |a|
    ensures Numbers(a[v := x], m[v := x])
  {
  }

  lemma LowsSet(a: seq<int>, m: map<nat, nat>, v: nat, x: nat)
    requires Lows(a, m) && v < |a|
    ensures Lows(a[v := x], m[v := x])
  {
  }

  lemma FlagsSet(a: seq<bool>, on: set<nat>, v: nat)
    requires Flags(a, on) && v < |a|
    ensures Flags(a[v := true], on + {v}) && Flags(a[v := false], on - {v})
  {
  }

  lemma FramesPush(frames: seq<Frame>, call: seq<nat>, pos: map<nat, nat>, v: nat)
    requires Frames(frames, call, pos) && v !in call
    ensures Frames(frames + [Frame(v, 0)], call + [v], pos[v := 0])
  {
  }

  /** `log` lists each node of `nodes` exactly once. */
  ghost predicate Logged(log: seq<nat>, nodes: set<nat>) {
    Distinct(log) && forall v :: v in log <==> v in nodes
  }

  lemma LoggedPush(log: seq<nat>, nodes: set<nat>, v: nat)
    requires Logged(log, nodes) && v !in nodes
    ensures Logged(log + [v], nodes + {v})
  {
  }

  lemma FramesPop(frames: seq<Frame>, call: seq<nat>, pos: map<nat, nat>)
    requires Frames(frames, call, pos) && |call| > 0 && Distinct(call)
    ensures Frames(frames[..|frames| - 1], call[..|call| - 1], pos - {call[|call| - 1]})
  {
  }

  lemma FramesBump(frames: seq<Frame>, call: seq<nat>, pos: map<nat, nat>, u: nat)
    requires Frames(frames, call, pos) && |call| > 0 && u == call[|call| - 1] && Distinct(call)
    ensures u in pos && Frames(frames[|frames| - 1 := Frame(u, pos[u] + 1)], call, pos[u := pos[u] + 1])
  {
  }

  lemma NothingStored(numbers: seq<int>, lows: seq<int>, flags: seq<bool>)
    requires (forall i :: 0 <= i < |numbers| ==> numbers[i] == -1) && forall i :: 0 <= i < |flags| ==> !flags[i]
    ensures Numbers(numbers, map[]) && Lows(lows, map[]) && Flags(flags, {}) && Frames([], [], map[]) && Logged([], {})
  {
  }

  class ComponentSearch {
    const adjacency: Adjacency
    const index: array<int>
    const low: array<int>
    const onStack: array<bool>
    const componentOf: array<int>
    var stack: seq<nat>
    var call: seq<Frame>
    var nextIndex: nat
    var nextComponent: nat
    ghost var view: Search<nat>
    ghost var pushes: seq<nat>  // every node ever pushed on `stack`
    ghost var pops: seq<nat>    // every node ever popped off it

    ghost const graph: Graph<nat> := ToGraph(adjacency)

    ghost predicate Shape()
      reads this
    {
      && ValidAdjacency(adjacency)
      && index.Length == low.Length == onStack.Length == componentOf.Length == |adjacency|
      && index != low && index != componentOf && low != componentOf
    }

    ghost predicate Represents()
      reads this, index, low, onStack, componentOf
    {
      && Numbers(index[..], view.index)
      && Lows(low[..], view.low)
      && Flags(onStack[..], view.on)
      && Numbers(componentOf[..], view.comp)
      && stack == view.stack && nextIndex == view.next && nextComponent == view.nextComp
      && Frames(call, view.call, view.pos)
      && Logged(pushes, view.index.Keys) && Logged(pops, view.comp.Keys)
    }

    ghost predicate Valid()
      reads this, index, low, onStack, componentOf
    {
      Shape() && Represents() && Inv(graph, view)
    }

    constructor (adjacency: Adjacency)
      requires ValidAdjacency(adjacency)
      ensures Valid() && this.adjacency == adjacency && view == Start()
      ensures fresh(index) && fresh(low) && fresh(onStack) && fresh(componentOf)
    {
      this.adjacency := adjacency;
      index := new int[|adjacency|](_ => -1);
      low := new int[|adjacency|](_ => 0);
      onStack := new bool[|adjacency|](_ => false);
      componentOf := new int[|adjacency|](_ => -1);
      stack, call, nextIndex, nextComponent := [], [], 0, 0;
      view, pushes, pops := Start(), [], [];
      new;
      hide Inv, ToGraph, Numbers, Lows, Flags, Frames, Logged, ValidAdjacency;
      NothingStored(index[..], low[..], onStack[..]);
      NothingStored(componentOf[..], low[..], onStack[..]);
      StartInv(graph);
    }

    /** Give a node its number and its flag. */
    method Number(node: nat)
      requires Shape() && node < |adjacency|
      modifies index, low, onStack
      ensures index[..] == old(index[..])[node := nextIndex] && low[..] == old(low[..])[node := nextIndex]
      ensures onStack[..] == old(onStack[..])[node := true]
    {
      index[node] := nextIndex;
      low[node] := nextIndex;
      onStack[node] := true;
    }

    /** The next snapshot is represented by the arrays with the node numbered and by the lists with it appended. */
    lemma Represented(node: nat)
      requires Shape() && Represents() && node < |adjacency| && node !in view.call && node !in view.index
      ensures var s := Discover(view, node);
              && Numbers(index[..][node := nextIndex], s.index) && Lows(low[..][node := nextIndex], s.low)
              && Flags(onStack[..][node := true], s.on) && Numbers(componentOf[..], s.comp)
              && stack + [node] == s.stack && nextIndex + 1 == s.next && nextComponent == s.nextComp
              && Frames(call + [Frame(node, 0)], s.call, s.pos)
              && Logged(pushes + [node], s.index.Keys) && Logged(pops, s.comp.Keys)
    {
      NumbersSet(index[..], view.index, node, nextIndex);
      LowsSet(low[..], view.low, node, nextIndex);
      FlagsSet(onStack[..], view.on, node);
      FramesPush(call, view.call, view.pos, node);
      hide Numbers, Lows, Flags, Frames, Logged;
      LoggedPush(pushes, view.index.Keys, node);
      assert Discover(view, node).index.Keys == view.index.Keys + {node};
    }

    /** Number a node, put it on the stack and open its frame. */
    method Open(node: nat)
      requires Shape() && Represents() && node < |adjacency| && node !in view.call && node !in view.index
      modifies this, index, low, onStack
      ensures Shape() && Represents() && view == Discover(old(view), node)
      ensures call == old(call) + [Frame(node, 0)]
    {
      Represented(node);
      hide Numbers, Lows, Flags, Frames, Logged, Discover;
      Number(node);
      nextIndex := nextIndex + 1;
      stack := stack + [node];
      call := call + [Frame(node, 0)];
      view, pushes := Discover(view, node), pushes + [node];
    }

    /** What the top frame and the arrays say about its node. */
    ghost predicate TopFrame()
      requires Shape()
      reads this, index, low, onStack, componentOf
    {
      && 0 < |call| == |view.call|
      && Distinct(view.call)
      && var top := call[|call| - 1]; var u := top.node;
      && u == view.call[|view.call| - 1] && u < |adjacency| && Succ(graph, u) == Targets(adjacency[u])
      && u in view.pos && view.pos[u] == top.edgePos <= |adjacency[u]|
      && OnStackNode(u)
    }

    lemma TopFrameHolds()
      requires Valid() && |call| > 0
      ensures TopFrame()
    {
      hide Frontier, LiveReach, LowSound, LowRetired, LowEdges, LowUnder, Components;
      var u := call[|call| - 1].node;
      assert u in view.call && u in view.on;
      LiveNode(u);
    }

    /** The arrays agree with the snapshot on an on-stack node. */
    ghost predicate OnStackNode(u: nat)
      requires Shape() && u < |adjacency|
      reads this, index, low, onStack, componentOf
    {
      && onStack[u] && u in view.on && u in view.index && u in view.low
      && index[u] == view.index[u] && low[u] == view.low[u]
    }

    lemma LiveNode(u: nat)
      requires Valid() && u in view.on
      ensures u < |adjacency| && OnStackNode(u)
    {
      hide Frontier, LiveReach, LowSound, LowRetired, LowEdges, LowUnder, Components, Frames, Stacks, Logged;
    }

    /** How the arrays classify the target of an edge. */
    lemma Classify(v: nat)
      requires Valid() && v < |adjacency|
      ensures v in graph
      ensures index[v] == -1 <==> v !in view.index
      ensures onStack[v] <==> v in view.on
      ensures v in view.on ==> OnStackNode(v)
      ensures v !in view.index ==> v !in view.call
    {
      hide Frontier, LiveReach, LowSound, LowRetired, LowEdges, LowUnder, Components, Frames, Logged;
      if v in view.on {
        LiveNode(v);
      }
    }

    /** `u` takes over the `low` of `v` if that is smaller. */
    method MinLow(u: nat, v: nat)
      requires Shape() && Represents() && u in view.low && v in view.low
      modifies this`view, low
      ensures Shape() && Represents() && view == LowerTo(old(view), u, old(view).low[v])
    {
      assert u < low.Length && v < low.Length && low[u] == view.low[u] && low[v] == view.low[v];
      hide Numbers, Lows, Flags, Frames, Logged;
      var own, other := low[u], low[v];
      if other < own {
        LowsSet(low[..], view.low, u, other);
        low[u] := other;
        view := Lower(view, u, other);
        assert low[..] == old(low[..])[u := other];
      }
    }

    /** Consume the next edge of the top frame. */
    method FollowEdge()
      requires |call| > 0
      requires var top := call[|call| - 1]; top.node < |adjacency| && top.edgePos < |adjacency[top.node]|
      requires Valid()
      modifies this, index, low, onStack
      ensures Valid()
      ensures old(view).index.Keys <= view.index.Keys
      ensures view.index.Keys != old(view).index.Keys
              || (|call| == |old(call)| && Pending(adjacency, call) < old(Pending(adjacency, call)))
    {
      hide Numbers, Lows, Flags, Frames, Domains, Ascending, Holds, Stacks, Frontier, LiveReach, LowSound,
        LowRetired, LowEdges, LowUnder, Components, Inv, Logged;
      var frame := call[|call| - 1];
      var u, v := frame.node, adjacency[frame.node][frame.edgePos].target;
      TopFrameHolds();
      Classify(v);
      call := call[|call| - 1 := Frame(u, frame.edgePos + 1)];
      view := Advance(view, u);
      FramesBump(old(call), old(view).call, old(view).pos, u);
      if index[v] == -1 {
        WalkToNew(graph, old(view), u, v);
        Open(v);
      } else if onStack[v] {
        MinLow(u, v);
        var w := WitnessBelow(graph, old(view), v);
        WalkBack(graph, old(view), u, v, w);
      } else {
        WalkToClosed(graph, old(view), u, v);
      }
    }

    /** The stack was popped down to position `k`. */
    ghost predicate PoppedTo(k: nat)
      requires Shape()
      reads this, onStack, componentOf
    {
      && k <= |view.stack| && stack == view.stack[..k]
      && Flags(onStack[..], view.on - Members(view, k))
      && Numbers(componentOf[..], Numbered(view, k))
      && Logged(pops, Numbered(view, k).Keys)
    }

    /** The stack can be popped: its nodes are distinct, in range and not yet numbered. */
    ghost predicate Poppable()
      reads this`view, this`nextComponent
    {
      && Distinct(view.stack) && nextComponent == view.nextComp
      && forall v :: v in view.stack ==> v < |adjacency| && v !in view.comp
    }

    method PopMember() returns (member: nat)
      requires Shape() && Poppable() && PoppedTo(|stack|) && |stack| > 0
      modifies this`stack, this`pops, onStack, componentOf
      ensures Poppable() && PoppedTo(|stack|) && |stack| == |old(stack)| - 1 && member == old(stack)[|stack|]
    {
      var k: nat := |stack| - 1;
      hide Numbers, Flags, Logged, Distinct, Members, Numbered, Poppable;
      member := stack[k];
      PopFacts(k);
      MembersGrow(view, k);
      FlagsSet(onStack[..], view.on - Members(view, k + 1), member);
      NumbersSet(componentOf[..], Numbered(view, k + 1), member, nextComponent);
      LoggedPush(pops, Numbered(view, k + 1).Keys, member);
      stack, pops := stack[..|stack| - 1], pops + [member];
      onStack[member] := false;
      componentOf[member] := nextComponent;
      assert onStack[..] == old(onStack[..])[member := false];
      assert componentOf[..] == old(componentOf[..])[member := nextComponent];
    }

    lemma PopFacts(k: nat)
      requires Poppable() && k < |view.stack|
      ensures Distinct(view.stack) && nextComponent == view.nextComp
      ensures view.stack[k] < |adjacency| && view.stack[k] !in view.comp
    {
      assert view.stack[k] in view.stack;
    }

    /** Pop the stack down to `node`; everything popped gets the next component number. */
    method PopComponent(node: nat)
      requires Shape() && Poppable() && PoppedTo(|view.stack|) && node in view.stack
      modifies this`stack, this`pops, onStack, componentOf
      ensures PoppedTo(|stack|) && |stack| < |view.stack| && view.stack[|stack|] == node
    {
      hide Numbers, Flags, Logged, Distinct, Members, Numbered;
      while |stack| > 0
        invariant Poppable() && PoppedTo(|stack|) && node in stack
        decreases |stack|
      {
        var member := PopMember();
        if member == node {
          break;
        }
      }
    }

    /** The frame below the top one takes over the top frame's `low` if that is smaller. */
    method PassLow()
      requires |call| > 1 && Valid()
      modifies this`view, low
      ensures Valid() && call == old(call) && TopFrame()
      ensures view.index == old(view).index && Finishable()
    {
      hide Numbers, Lows, Flags, Frames, Domains, Ascending, Holds, Stacks, Frontier, LiveReach, LowSound,
        LowRetired, LowEdges, LowUnder, Components, Inv, Logged, Distinct;
      var child, parent := call[|call| - 1].node, call[|call| - 2].node;
      TopFrameHolds();
      ParentFrameHolds();
      HandDown(graph, view, parent, child);
      MinLow(parent, child);
      TopFrameHolds();
    }

    /** The frame below the top one holds a live node discovered earlier. */
    ghost predicate ParentFrame()
      requires Shape()
      reads this, index, low, onStack, componentOf
    {
      && 1 < |call| == |view.call|
      && var c, p := call[|call| - 1].node, call[|call| - 2].node;
      && p == view.call[|view.call| - 2] && p != c && p < |adjacency| && p in view.pos && OnStackNode(p)
      && c in view.index && view.index[p] <= view.index[c]
    }

    lemma ParentFrameHolds()
      requires Valid() && |call| > 1
      ensures ParentFrame()
    {
      hide Frontier, LiveReach, LowSound, LowRetired, LowEdges, LowUnder, Components;
      var p := call[|call| - 2].node;
      assert p in view.call && p in view.on;
      assert call[|call| - 1].node == view.call[|call| - 1];
      LiveNode(p);
    }

    /** The top frame's `low` has been handed down. */
    ghost predicate Finishable()
      reads this
    {
      |view.call| > 1 ==>
        var c, p := view.call[|view.call| - 1], view.call[|view.call| - 2];
        p in view.low && c in view.low && view.low[p] <= view.low[c]
    }

    /** Every edge of the top frame is consumed. */
    ghost predicate TopDone()
      requires Shape()
      reads this
    {
      |call| > 0 && var top := call[|call| - 1]; top.node < |adjacency| && top.edgePos >= |adjacency[top.node]|
    }

    /** Return from the top frame. */
    method FinishFrame()
      requires Valid() && TopDone()
      modifies this, low, onStack, componentOf
      ensures Valid() && view.index == old(view).index && call == old(call)[..|old(call)| - 1]
    {
      hide Numbers, Lows, Flags, Frames, Domains, Ascending, Holds, Stacks, Frontier, LiveReach, LowSound,
        LowRetired, LowEdges, LowUnder, Components, Inv, Logged, Distinct, Members, Numbered;
      if |call| > 1 {
        PassLow();
      } else {
        TopFrameHolds();
      }
      var node := call[|call| - 1].node;
      assert Finished(graph, view, node);
      ReturnInv(graph, view, node);
      FramesPop(call, view.call, view.pos);
      if low[node] == index[node] {
        ReadyToPop(node);
        CloseTop(node);
      } else {
        call := call[..|call| - 1];
        view := Retire(view);
      }
    }

    /** The top frame's node is the root of a component: close it. */
    method CloseTop(node: nat)
      requires |call| > 0 && Shape() && Represents() && Poppable() && PoppedTo(|view.stack|) && node in view.stack
      requires |view.call| == |call| && node == view.call[|call| - 1]
      requires Frames(call[..|call| - 1], view.call[..|call| - 1], view.pos - {node})
      modifies this, onStack, componentOf
      ensures Shape() && Represents() && call == old(call)[..|old(call)| - 1]
      ensures exists k :: 0 <= k < |old(view).stack| && old(view).stack[k] == node && view == Close(old(view), k)
    {
      hide Numbers, Lows, Flags, Frames, Logged, Distinct, Members, Numbered;
      call := call[..|call| - 1];
      PopComponent(node);
      nextComponent := nextComponent + 1;
      ClosedFields(view, |stack|);
      view := Close(view, |stack|);
    }

    lemma ReadyToPop(node: nat)
      requires Valid() && TopFrame() && node == call[|call| - 1].node
      ensures Poppable() && PoppedTo(|view.stack|) && node in view.stack
    {
      hide Frontier, LiveReach, LowSound, LowRetired, LowEdges, LowUnder, Components;
      MembersAtEnd(view);
      assert view.stack[..|view.stack|] == view.stack;
      forall v | v in view.stack
        ensures v < |adjacency| && v !in view.comp
      {
        assert v in view.on;
      }
    }

    /** Explore everything that is reachable from `start` and still undiscovered. */
    method StrongConnect(start: nat)
      requires Valid() && call == [] && start < |adjacency| && index[start] == -1
      modifies this, index, low, onStack, componentOf
      ensures Valid() && call == []
      ensures old(view).index.Keys + {start} <= view.index.Keys
    {
      hide Numbers, Lows, Flags, Frames, Domains, Ascending, Holds, Stacks, Frontier, LiveReach, LowSound,
        LowRetired, LowEdges, LowUnder, Components, Inv, Logged, Distinct, Members, Numbered;
      Classify(start);
      NoFrames();
      DiscoverInv(graph, view, start);
      Open(start);
      while |call| > 0
        invariant Valid()
        invariant old(view).index.Keys + {start} <= view.index.Keys
        decreases graph.Keys - view.index.Keys, Pending(adjacency, call), |call|
      {
        TopFrameHolds();
        var frame := call[|call| - 1];
        if frame.edgePos < |adjacency[frame.node]| {
          ghost var before := view.index.Keys;
          FollowEdge();
          Undiscovered(before);
        } else {
          FinishFrame();
        }
      }
    }

    lemma NoFrames()
      requires Valid() && call == []
      ensures view.call == []
    {
      hide Frontier, LiveReach, LowSound, LowRetired, LowEdges, LowUnder, Components;
    }

    lemma Undiscovered(before: set<nat>)
      requires Valid() && before <= view.index.Keys
      ensures graph.Keys - view.index.Keys <= graph.Keys - before
      ensures before != view.index.Keys ==> graph.Keys - view.index.Keys < graph.Keys - before
    {
      hide Frontier, LiveReach, LowSound, LowRetired, LowEdges, LowUnder, Components;
      if before != view.index.Keys {
        var v :| v in view.index && v !in before;
        assert v in graph.Keys - before && v !in graph.Keys - view.index.Keys;
      }
    }

    /** Number the component of every node. */
    method Run()
      requires Valid() && view == Start()
      modifies this, index, low, onStack, componentOf
      ensures IsPartition(graph, componentOf[..])
      ensures Logged(pushes, graph.Keys) && Logged(pops, graph.Keys)
    {
      hide Numbers, Lows, Flags, Frames, Domains, Ascending, Holds, Stacks, Frontier, LiveReach, LowSound,
        LowRetired, LowEdges, LowUnder, Components, Inv, Logged, Distinct, Members, Numbered;
      FramesOfStart();
      for node := 0 to |adjacency|
        invariant Valid() && call == []
        invariant forall v: nat :: v < node ==> v in view.index
      {
        Classify(node);
        if index[node] == -1 {
          StrongConnect(node);
        }
      }
      AllClosed();
    }

    lemma FramesOfStart()
      requires Valid() && view == Start()
      ensures call == []
    {
    }

    lemma AllClosed()
      requires Valid() && call == [] && forall v: nat :: v < |adjacency| ==> v in view.index
      ensures IsPartition(graph, componentOf[..])
      ensures Logged(pushes, graph.Keys) && Logged(pops, graph.Keys)
    {
      NoFrames();
      NothingLeftOnStack(graph, view);
      hide Frontier, LiveReach, LowSound, LowRetired, LowEdges, LowUnder, Stacks, Mutual, Logged;
      assert view.index.Keys == graph.Keys;
    }
  }

  /** Every node has a component number, and two nodes share it exactly when each reaches the other. */
  ghost predicate IsPartition(g: Graph<nat>, componentOf: seq<int>) {
    && (forall v: nat :: v in g <==> v < |componentOf|)
    && (forall v :: 0 <= v < |componentOf| ==> componentOf[v] >= 0)
    && (forall u: nat, v: nat :: u < |componentOf| && v < |componentOf| ==>
          (componentOf[u] == componentOf[v] <==> Mutual(g, u, v)))
  }

  lemma ClosedFields(s: Search<nat>, k: nat)
    requires k <= |s.stack| && |s.call| > 0
    ensures var t := Close(s, k); t.comp == Numbered(s, k) && t.on == s.on - Members(s, k) && t.stack == s.stack[..k]
  {
  }

  ghost function Numbered(s: Search<nat>, k: nat): map<nat, nat>
    requires k <= |s.stack|
  {
    s.comp + map w | w in Members(s, k) :: s.nextComp
  }

  lemma MembersAtEnd(s: Search<nat>)
    ensures s.on - Members(s, |s.stack|) == s.on && Numbered(s, |s.stack|) == s.comp
  {
  }

  lemma MembersGrow(s: Search<nat>, k: nat)
    requires k < |s.stack| && Distinct(s.stack) && s.stack[k] !in s.comp
    ensures var v := s.stack[k];
            && s.on - Members(s, k) == s.on - Members(s, k + 1) - {v}
            && Numbered(s, k) == Numbered(s, k + 1)[v := s.nextComp]
            && v !in Numbered(s, k + 1) && Numbered(s, k).Keys == Numbered(s, k + 1).Keys + {v}
  {
    hide Distinct, Members;
    var v := s.stack[k];
    MemberAdded(s, k);
    NumberedGrow(s.comp, Members(s, k + 1), v, s.nextComp);
    assert s.on - (Members(s, k + 1) + {v}) == s.on - Members(s, k + 1) - {v};
  }

  lemma NumberedGrow(comp: map<nat, nat>, members: set<nat>, v: nat, c: nat)
    requires v !in comp && v !in members
    ensures var m, m' := comp + (map w | w in members :: c), comp + (map w | w in members + {v} :: c);
            m' == m[v := c] && v !in m && m'.Keys == m.Keys + {v}
  {
  }
}
