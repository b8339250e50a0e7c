/** The direct-call-graph half of WASM admission: an iterative three-colour
    depth-first search that must reject recursion and call chains of more than
    64 functions. */
module CallGraph {

  const MAX_CALL_DEPTH: nat := 64

  /** `graph[f]` lists the functions that `f` calls directly, in order. */
  type Graph = seq<seq<nat>>

  datatype CallState = Unvisited | Visiting | Visited

  datatype Frame = Frame(callee: nat, nextCall: nat)

  datatype Verdict = Accepted | Recursion | TooDeep

  ghost predicate InBounds(g: Graph) {
    forall f, k :: 0 <= f < |g| && 0 <= k < |g[f]| ==> g[f][k] < |g|
  }

  // ---- The specification: call paths, stated without reference to the search ----

  ghost predicate CallPath(g: Graph, p: seq<nat>) {
    && p != []
    && (forall i :: 0 <= i < |p| ==> p[i] < |g|)
    && forall i, j :: 0 <= i && j == i + 1 && j < |p| ==> p[j] in g[p[i]]
  }

  ghost predicate Acyclic(g: Graph) {
    forall p :: CallPath(g, p) && |p| > 1 ==> p[0] != p[|p| - 1]
  }

  ghost predicate DepthWithin(g: Graph, bound: nat) {
    forall p :: CallPath(g, p) ==> |p| <= bound
  }

  // ---- The search invariant ----

  /** A finished function knows the length of the longest call path that starts in it. */
  ghost predicate Settled(g: Graph, st: seq<CallState>, d: seq<nat>, v: nat)
    requires InBounds(g) && |st| == |d| == |g| && v < |g|
  {
    && 1 <= d[v] <= MAX_CALL_DEPTH
    && (forall k :: 0 <= k < |g[v]| ==> st[g[v][k]] == Visited && d[g[v][k]] < d[v])
    && (d[v] == 1 || exists k :: 0 <= k < |g[v]| && d[g[v][k]] + 1 == d[v])
  }

  ghost predicate AllSettled(g: Graph, st: seq<CallState>, d: seq<nat>)
    requires InBounds(g) && |st| == |d| == |g|
  {
    forall v {:trigger Settled(g, st, d, v)} :: 0 <= v < |g| && st[v] == Visited ==> Settled(g, st, d, v)
  }

  /** Frame `i` is being visited; the calls it has moved past lead to finished
      functions, except the last one of a buried frame, which is the frame above. */
  ghost predicate FrameInv(g: Graph, st: seq<CallState>, stack: seq<Frame>, i: nat)
    requires InBounds(g) && |st| == |g| && i < |stack|
  {
    var frame := stack[i];
    && frame.callee < |g|
    && st[frame.callee] == Visiting
    && frame.nextCall <= |g[frame.callee]|
    && (i + 1 < |stack| ==>
          0 < frame.nextCall && g[frame.callee][frame.nextCall - 1] == stack[i + 1].callee)
    && forall k :: 0 <= k < (if i + 1 < |stack| then frame.nextCall - 1 else frame.nextCall) ==>
                     st[g[frame.callee][k]] == Visited
  }

  /** The stack is a call path without repetition, made of exactly the functions
      being visited. */
  ghost predicate StackInv(g: Graph, st: seq<CallState>, stack: seq<Frame>)
    requires InBounds(g) && |st| == |g|
  {
    && (forall i {:trigger FrameInv(g, st, stack, i)} :: 0 <= i < |stack| ==> FrameInv(g, st, stack, i))
    && Distinct(stack)
    && (forall v {:trigger OnStack(stack, v)} :: 0 <= v < |g| && st[v] == Visiting ==> OnStack(stack, v))
  }

  ghost predicate Distinct(stack: seq<Frame>) {
    forall i, j :: 0 <= i < j < |stack| ==> stack[i].callee != stack[j].callee
  }

  ghost predicate OnStack(stack: seq<Frame>, v: nat) {
    exists i :: 0 <= i < |stack| && stack[i].callee == v
  }

  ghost function Functions(stack: seq<Frame>): (p: seq<nat>)
    ensures |p| == |stack| && forall i :: 0 <= i < |p| ==> p[i] == stack[i].callee
  {
    seq(|stack|, i requires 0 <= i < |stack| => stack[i].callee)
  }

  // ---- What the outcomes mean ----

  /** A call back into a function still on the stack closes a cycle. */
  lemma BackCallIsCycle(g: Graph, st: seq<CallState>, stack: seq<Frame>)
    requires InBounds(g) && |st| == |g| && StackInv(g, st, stack)
    requires |stack| > 0 && FrameInv(g, st, stack, |stack| - 1)
    requires var top := stack[|stack| - 1];
             top.nextCall < |g[top.callee]| && st[g[top.callee][top.nextCall]] == Visiting
    ensures !Acyclic(g)
  {
    var top := stack[|stack| - 1];
    var target := g[top.callee][top.nextCall];
    assert OnStack(stack, target);
    var j :| 0 <= j < |stack| && stack[j].callee == target;
    var p := Functions(stack)[j..] + [target];
    forall i | 0 <= i < |p| - 1
      ensures p[i] < |g| && p[i + 1] in g[p[i]]
    {
      assert FrameInv(g, st, stack, j + i);
    }
    assert CallPath(g, p) && |p| > 1 && p[0] == p[|p| - 1];
  }

  /** A finished function of depth `d[v]` starts a call path of exactly that length. */
  lemma {:induction false} DepthIsWitnessed(g: Graph, st: seq<CallState>, d: seq<nat>, v: nat) returns (p: seq<nat>)
    requires InBounds(g) && |st| == |d| == |g| && AllSettled(g, st, d)
    requires v < |g| && st[v] == Visited
    ensures CallPath(g, p) && p[0] == v && |p| == d[v]
    decreases d[v]
  {
    assert Settled(g, st, d, v);
    if d[v] == 1 {
      p := [v];
    } else {
      var k :| 0 <= k < |g[v]| && d[g[v][k]] + 1 == d[v];
      var q := DepthIsWitnessed(g, st, d, g[v][k]);
      p := [v] + q;
      forall i, j | 0 <= i && j == i + 1 && j < |p|
        ensures p[j] in g[p[i]]
      {
        if i > 0 {
          assert p[i] == q[i - 1] && p[j] == q[j - 1];
        }
      }
    }
  }

  lemma DeepCalleeIsTooDeep(g: Graph, st: seq<CallState>, d: seq<nat>, v: nat, k: nat)
    requires InBounds(g) && |st| == |d| == |g| && AllSettled(g, st, d)
    requires v < |g| && k < |g[v]| && st[g[v][k]] == Visited && d[g[v][k]] >= MAX_CALL_DEPTH
    ensures !DepthWithin(g, MAX_CALL_DEPTH)
  {
    var q := DepthIsWitnessed(g, st, d, g[v][k]);
    var p := [v] + q;
    forall i, j | 0 <= i && j == i + 1 && j < |p|
      ensures p[j] in g[p[i]]
    {
      if i > 0 {
        assert p[i] == q[i - 1] && p[j] == q[j - 1];
      }
    }
    assert CallPath(g, p) && |p| > MAX_CALL_DEPTH;
  }

  /** No call path outgrows the depth of the function it starts in, and depth
      strictly falls along a path. */
  lemma {:induction false} DepthBoundsPaths(g: Graph, st: seq<CallState>, d: seq<nat>, p: seq<nat>)
    requires InBounds(g) && |st| == |d| == |g| && AllSettled(g, st, d)
    requires forall v :: 0 <= v < |g| ==> st[v] == Visited
    requires CallPath(g, p)
    ensures |p| <= d[p[0]] <= MAX_CALL_DEPTH
    ensures |p| > 1 ==> d[p[|p| - 1]] < d[p[0]]
    decreases |p|
  {
    assert Settled(g, st, d, p[0]);
    if |p| > 1 {
      var q := p[1..];
      assert CallPath(g, q);
      DepthBoundsPaths(g, st, d, q);
      assert p[1] in g[p[0]];
    }
  }

  lemma AllVisitedIsAccepted(g: Graph, st: seq<CallState>, d: seq<nat>)
    requires InBounds(g) && |st| == |d| == |g| && AllSettled(g, st, d)
    requires forall v :: 0 <= v < |g| ==> st[v] == Visited
    ensures Acyclic(g) && DepthWithin(g, MAX_CALL_DEPTH)
  {
    forall p | CallPath(g, p)
      ensures |p| <= MAX_CALL_DEPTH
      ensures |p| > 1 ==> p[0] != p[|p| - 1]
    {
      DepthBoundsPaths(g, st, d, p);
    }
  }

  // ---- Steps of the search ----

  lemma PushKeepsInv(g: Graph, st: seq<CallState>, d: seq<nat>, stack: seq<Frame>, target: nat)
    requires InBounds(g) && |st| == |d| == |g| && AllSettled(g, st, d) && StackInv(g, st, stack)
    requires target < |g| && st[target] == Unvisited
    requires |stack| > 0 ==> CallsNext(g, stack, target)
    ensures AllSettled(g, st[target := Visiting], d)
    ensures StackInv(g, st[target := Visiting], Descend(stack, target))
  {
    var st' := st[target := Visiting];
    var stack' := Descend(stack, target);
    forall v | 0 <= v < |g| && st'[v] == Visited
      ensures Settled(g, st', d, v)
    {
      assert Settled(g, st, d, v);
    }
    PushKeepsStack(g, st, stack, target);
  }

  lemma PushKeepsStack(g: Graph, st: seq<CallState>, stack: seq<Frame>, target: nat)
    requires InBounds(g) && |st| == |g| && StackInv(g, st, stack)
    requires target < |g| && st[target] == Unvisited
    requires |stack| > 0 ==> CallsNext(g, stack, target)
    ensures StackInv(g, st[target := Visiting], Descend(stack, target))
  {
    hide OnStack, FrameInv;
    var st' := st[target := Visiting];
    var stack' := Descend(stack, target);
    forall i | 0 <= i < |stack'|
      ensures FrameInv(g, st', stack', i)
    {
      if i < |stack| {
        assert FrameInv(g, st, stack, i);
      }
      PushKeepsFrame(g, st, stack, target, i);
    }
    forall v | 0 <= v < |g| && st'[v] == Visiting
      ensures OnStack(stack', v)
    {
      assert v == target || OnStack(stack, v);
      PushShowsTarget(stack, target, v);
    }
    forall i | 0 <= i < |stack|
      ensures stack'[i].callee != target
    {
      assert FrameInv(g, st, stack, i);
      NotOnStack(g, st, stack, target, i);
    }
  }

  lemma NotOnStack(g: Graph, st: seq<CallState>, stack: seq<Frame>, target: nat, i: nat)
    requires InBounds(g) && |st| == |g| && i < |stack| && FrameInv(g, st, stack, i)
    requires target < |g| && st[target] == Unvisited
    ensures stack[i].callee != target
  {
  }

  lemma PushKeepsFrame(g: Graph, st: seq<CallState>, stack: seq<Frame>, target: nat, i: nat)
    requires InBounds(g) && |st| == |g| && i <= |stack|
    requires i < |stack| ==> FrameInv(g, st, stack, i)
    requires target < |g| && st[target] == Unvisited
    requires |stack| > 0 ==> CallsNext(g, stack, target)
    ensures FrameInv(g, st[target := Visiting], Descend(stack, target), i)
  {
  }

  lemma PushShowsTarget(stack: seq<Frame>, target: nat, v: nat)
    requires v == target || OnStack(stack, v)
    ensures OnStack(Descend(stack, target), v)
  {
    var stack' := Descend(stack, target);
    if v == target {
      assert stack'[|stack|].callee == v;
    } else {
      var i :| 0 <= i < |stack| && stack[i].callee == v;
      assert stack'[i].callee == v;
    }
  }

  ghost predicate CallsNext(g: Graph, stack: seq<Frame>, target: nat)
    requires |stack| > 0
  {
    var top := stack[|stack| - 1];
    top.callee < |g| && top.nextCall < |g[top.callee]| && g[top.callee][top.nextCall] == target
  }

  /** The stack after the top frame moves past its next call and enters `target`. */
  function Descend(stack: seq<Frame>, target: nat): seq<Frame> {
    Advance(stack) + [Frame(target, 0)]
  }

  function Advance(stack: seq<Frame>): (r: seq<Frame>)
    ensures |r| == |stack|
  {
    if stack == [] then []
    else var top := stack[|stack| - 1];
         stack[..|stack| - 1] + [Frame(top.callee, top.nextCall + 1)]
  }

  lemma PopKeepsInv(g: Graph, st: seq<CallState>, d: seq<nat>, stack: seq<Frame>, depth: nat)
    requires InBounds(g) && |st| == |d| == |g| && AllSettled(g, st, d) && StackInv(g, st, stack)
    requires |stack| > 0 && FrameInv(g, st, stack, |stack| - 1)
    requires var f := stack[|stack| - 1].callee;
             stack[|stack| - 1].nextCall == |g[f]| && Settled(g, st, d[f := depth], f)
    ensures var f := stack[|stack| - 1].callee;
            f < |g| && AllSettled(g, st[f := Visited], d[f := depth])
              && StackInv(g, st[f := Visited], stack[..|stack| - 1])
  {
    var f := stack[|stack| - 1].callee;
    var st', d', stack' := st[f := Visited], d[f := depth], stack[..|stack| - 1];
    forall v | 0 <= v < |g| && st'[v] == Visited
      ensures Settled(g, st', d', v)
    {
      if v != f {
        assert Settled(g, st, d, v);
        if d[v] != 1 {
          var k :| 0 <= k < |g[v]| && d[g[v][k]] + 1 == d[v];
          assert d'[g[v][k]] + 1 == d'[v];
        }
      }
    }
    forall i | 0 <= i < |stack'|
      ensures FrameInv(g, st', stack', i)
    {
      assert FrameInv(g, st, stack, i);
    }
    forall v | 0 <= v < |g| && st'[v] == Visiting
      ensures OnStack(stack', v)
    {
      assert OnStack(stack, v);
      var i :| 0 <= i < |stack| && stack[i].callee == v;
      assert stack'[i].callee == v;
    }
  }

  lemma AdvanceKeepsInv(g: Graph, st: seq<CallState>, stack: seq<Frame>)
    requires InBounds(g) && |st| == |g| && StackInv(g, st, stack)
    requires |stack| > 0 && FrameInv(g, st, stack, |stack| - 1)
    requires var top := stack[|stack| - 1];
             top.nextCall < |g[top.callee]| && st[g[top.callee][top.nextCall]] == Visited
    ensures StackInv(g, st, Advance(stack))
  {
    var stack' := Advance(stack);
    forall i | 0 <= i < |stack'|
      ensures FrameInv(g, st, stack', i)
    {
      assert FrameInv(g, st, stack, i);
    }
    forall v | 0 <= v < |g| && st[v] == Visiting
      ensures OnStack(stack', v)
    {
      assert OnStack(stack, v);
      var i :| 0 <= i < |stack| && stack[i].callee == v;
      assert stack'[i].callee == v;
    }
  }

  /** The depth of a function all of whose callees are finished: one more than
      the deepest callee, or `TooDeep` as soon as a callee is at the limit. */
  method FinishDepth(calls: seq<nat>, depths: array<nat>) returns (ok: bool, depth: nat, ghost bad: nat)
    requires forall k :: 0 <= k < |calls| ==> calls[k] < depths.Length
    ensures !ok ==> bad < |calls| && depths[calls[bad]] >= MAX_CALL_DEPTH
    ensures ok ==> 1 <= depth <= MAX_CALL_DEPTH
    ensures ok ==> forall k :: 0 <= k < |calls| ==> depths[calls[k]] < depth
    ensures ok ==> depth == 1 || exists k :: 0 <= k < |calls| && depths[calls[k]] + 1 == depth
  {
    depth := 1;
    bad := 0;
    for k := 0 to |calls|
      invariant 1 <= depth <= MAX_CALL_DEPTH
      invariant forall j :: 0 <= j < k ==> depths[calls[j]] < depth
      invariant depth == 1 || exists j :: 0 <= j < k && depths[calls[j]] + 1 == depth
    {
      var targetDepth := depths[calls[k]];
      if targetDepth >= MAX_CALL_DEPTH {
        return false, depth, k;
      }
      if targetDepth + 1 > depth {
        depth := targetDepth + 1;
      }
    }
    ok := true;
  }

  /** The search itself. It accepts exactly the call graphs without recursion
      whose call paths hold at most 64 functions, and each rejection names a
      defect the graph really has. */
  method ValidateDirectCallGraph(graph: Graph) returns (verdict: Verdict)
    requires InBounds(graph)
    ensures verdict == Accepted <==> Acyclic(graph) && DepthWithin(graph, MAX_CALL_DEPTH)
    ensures verdict == Recursion ==> !Acyclic(graph)
    ensures verdict == TooDeep ==> !DepthWithin(graph, MAX_CALL_DEPTH)
  {
    var total := |graph|;
    var states := new CallState[total](_ => Unvisited);
    var depths := new nat[total](_ => 0);
    for root := 0 to total
      invariant AllSettled(graph, states[..], depths[..])
      invariant StackInv(graph, states[..], [])
      invariant forall v :: 0 <= v < root ==> states[v] == Visited
    {
      if states[root] == Visited {
        continue;
      }
      assert states[root] == Visiting ==> OnStack([], root);
      verdict := Explore(graph, root, states, depths);
      if verdict != Accepted {
        return;
      }
    }
    AllVisitedIsAccepted(graph, states[..], depths[..]);
    verdict := Accepted;
  }

  function Remaining(graph: Graph, stack: seq<Frame>): int {
    if |stack| > 0 && stack[|stack| - 1].callee < |graph|
    then |graph[stack[|stack| - 1].callee]| - stack[|stack| - 1].nextCall
    else 0
  }

  /** Everything reachable from `root` is visited with an explicit stack. */
  method Explore(graph: Graph, root: nat, states: array<CallState>, depths: array<nat>) returns (verdict: Verdict)
    requires InBounds(graph) && states.Length == depths.Length == |graph|
    requires AllSettled(graph, states[..], depths[..]) && StackInv(graph, states[..], [])
    requires root < |graph| && states[root] == Unvisited
    modifies states, depths
    ensures verdict == Accepted ==>
              && AllSettled(graph, states[..], depths[..])
              && StackInv(graph, states[..], [])
              && states[root] == Visited
    ensures verdict == Accepted ==> forall v :: 0 <= v < |graph| && old(states[v]) == Visited ==> states[v] == Visited
    ensures verdict == Recursion ==> !Acyclic(graph)
    ensures verdict == TooDeep ==> !DepthWithin(graph, MAX_CALL_DEPTH)
  {
    hide AllSettled, StackInv, Acyclic, DepthWithin, Unseen, Advance;
    PushKeepsInv(graph, states[..], depths[..], [], root);
    ghost var before := states[..];
    states[root] := Visiting;
    assert states[..] == before[root := Visiting];
    var stack := [Frame(root, 0)];
    assert Advance([]) == [] by { AdvanceShape([]); }
    assert stack == Descend([], root);
    while |stack| != 0
      invariant AllSettled(graph, states[..], depths[..])
      invariant StackInv(graph, states[..], stack)
      invariant forall v :: 0 <= v < |graph| && old(states[v]) == Visited ==> states[v] == Visited
      invariant states[root] != Unvisited
      decreases Unseen(states[..]), |stack|, Remaining(graph, stack)
    {
      TopFrame(graph, states[..], stack);
      AdvanceShape(stack);
      var frame := stack[|stack| - 1];
      var f := frame.callee;
      var calls := graph[f];
      before := states[..];
      if frame.nextCall < |calls| {
        var target := calls[frame.nextCall];
        match states[target] {
          case Visiting =>
            BackCallIsCycle(graph, states[..], stack);
            return Recursion;
          case Visited =>
            AdvanceKeepsInv(graph, states[..], stack);
            stack := Advance(stack);
          case Unvisited =>
            PushKeepsInv(graph, states[..], depths[..], stack, target);
            UnseenShrinks(before, target, Visiting);
            states[target] := Visiting;
            assert states[..] == before[target := Visiting];
            stack := Descend(stack, target);
        }
      } else {
        var ok, depth, bad := FinishDepth(calls, depths);
        if !ok {
          DeepCalleeIsTooDeep(graph, states[..], depths[..], f, bad);
          return TooDeep;
        }
        ghost var depthsBefore := depths[..];
        UnseenShrinks(before, f, Visited);
        states[f] := Visited;
        depths[f] := depth;
        assert states[..] == before[f := Visited] && depths[..] == depthsBefore[f := depth];
        PopKeepsInv(graph, before, depthsBefore, stack, depth);
        stack := stack[..|stack| - 1];
      }
    }
    EmptyStack(graph, states[..], root);
    verdict := Accepted;
  }

  ghost function Unseen(st: seq<CallState>): set<nat> {
    set v: nat | v < |st| && st[v] == Unvisited
  }

  lemma UnseenShrinks(st: seq<CallState>, v: nat, seen: CallState)
    requires v < |st| && seen != Unvisited
    ensures st[v] == Unvisited ==> Unseen(st[v := seen]) < Unseen(st)
    ensures st[v] != Unvisited ==> Unseen(st[v := seen]) == Unseen(st)
  {
    if st[v] == Unvisited {
      assert v in Unseen(st);
    }
  }

  lemma TopFrame(g: Graph, st: seq<CallState>, stack: seq<Frame>)
    requires InBounds(g) && |st| == |g| && StackInv(g, st, stack) && |stack| > 0
    ensures FrameInv(g, st, stack, |stack| - 1)
  {
  }

  lemma AdvanceShape(stack: seq<Frame>)
    ensures stack == [] ==> Advance(stack) == []
    ensures stack != [] ==>
              var top := stack[|stack| - 1];
              Advance(stack) == stack[..|stack| - 1] + [Frame(top.callee, top.nextCall + 1)]
  {
  }

  lemma EmptyStack(g: Graph, st: seq<CallState>, v: nat)
    requires InBounds(g) && |st| == |g| && StackInv(g, st, []) && v < |g|
    ensures st[v] != Visiting
  {
    assert st[v] == Visiting ==> OnStack([], v);
  }
}
