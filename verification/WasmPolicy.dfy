/** Admission of a module's code: every body is decoded, the direct calls of all
    bodies form the call graph, and the graph must be acyclic and shallow. */
module WasmPolicy {
  import opened Wrappers
  import opened Leb
  import opened WasmScanner
  import opened CallGraph

  datatype Admission = Admitted | BodyCountMismatch | BadInstruction | TargetOutOfBounds | Recursive | TooDeepCalls

  ghost predicate Decodable(bodies: seq<Bytes>) {
    forall i :: 0 <= i < |bodies| ==> Parse(bodies[i]).Some?
  }

  /** Imported functions come first and call nothing. */
  ghost predicate IsCallGraph(imports: nat, bodies: seq<Bytes>, g: Graph)
    requires Decodable(bodies)
  {
    && |g| == imports + |bodies|
    && (forall f :: 0 <= f < imports ==> g[f] == [])
    && (forall i {:trigger bodies[i]} :: 0 <= i < |bodies| ==> g[imports + i] == CallsOf(Parse(bodies[i]).value))
  }

  /** A module is admitted exactly when all bodies decode to allowed instructions,
      all calls stay inside the module, no function reaches itself, and no chain
      of calls has more than 64 functions. */
  method ValidateDirectCalls(imports: nat, functions: nat, bodies: seq<Bytes>) returns (r: Admission)
    ensures r == BodyCountMismatch <==> |bodies| != functions
    ensures r == BadInstruction ==> !Decodable(bodies)
    ensures r == Admitted <==>
              && |bodies| == functions && Decodable(bodies)
              && exists g ::
                   IsCallGraph(imports, bodies, g) && InBounds(g) && Acyclic(g) && DepthWithin(g, MAX_CALL_DEPTH)
    ensures r == Recursive ==>
              Decodable(bodies) && exists g :: IsCallGraph(imports, bodies, g) && InBounds(g) && !Acyclic(g)
    ensures r == TooDeepCalls ==>
              && Decodable(bodies)
              && exists g :: IsCallGraph(imports, bodies, g) && InBounds(g) && !DepthWithin(g, MAX_CALL_DEPTH)
  {
    hide Parse, CallsOf, Acyclic, DepthWithin;
    if |bodies| != functions {
      return BodyCountMismatch;
    }
    var graph: Graph := seq(imports, _ => []);
    var total := imports + functions;
    var i := 0;
    while i < |bodies|
      invariant 0 <= i <= |bodies| && |graph| == imports + i
      invariant forall j :: 0 <= j < i ==> Parse(bodies[j]).Some?
      invariant forall f :: 0 <= f < imports ==> graph[f] == []
      invariant forall j {:trigger bodies[j]} :: 0 <= j < i ==> graph[imports + j] == CallsOf(Parse(bodies[j]).value)
      invariant forall f, k :: 0 <= f < |graph| && 0 <= k < |graph[f]| ==> graph[f][k] < total
    {
      var calls := ParseDirectCalls(bodies[i]);
      if calls.None? {
        return BadInstruction;
      }
      var k := 0;
      while k < |calls.value|
        invariant 0 <= k <= |calls.value|
        invariant forall m :: 0 <= m < k ==> calls.value[m] < total
      {
        if calls.value[k] >= total {
          OutOfBoundsIsRejected(imports, bodies, i, k);
          return TargetOutOfBounds;
        }
        k := k + 1;
      }
      graph := graph + [calls.value];
      i := i + 1;
    }
    assert IsCallGraph(imports, bodies, graph) && InBounds(graph);
    var verdict := ValidateDirectCallGraph(graph);
    forall g | IsCallGraph(imports, bodies, g)
      ensures g == graph
    {
      CallGraphIsUnique(imports, bodies, g, graph);
    }
    match verdict {
      case Accepted => r := Admitted;
      case Recursion => r := Recursive;
      case TooDeep => r := TooDeepCalls;
    }
  }

  lemma CallGraphIsUnique(imports: nat, bodies: seq<Bytes>, g: Graph, g': Graph)
    requires Decodable(bodies) && IsCallGraph(imports, bodies, g) && IsCallGraph(imports, bodies, g')
    ensures g == g'
  {
    forall f | 0 <= f < |g|
      ensures g[f] == g'[f]
    {
      if f >= imports {
        assert g[imports + (f - imports)] == CallsOf(Parse(bodies[f - imports]).value);
      }
    }
  }

  lemma OutOfBoundsIsRejected(imports: nat, bodies: seq<Bytes>, i: nat, k: nat)
    requires i < |bodies| && Parse(bodies[i]).Some?
    requires k < |CallsOf(Parse(bodies[i]).value)| && CallsOf(Parse(bodies[i]).value)[k] >= imports + |bodies|
    ensures Decodable(bodies) ==> forall g :: IsCallGraph(imports, bodies, g) ==> !InBounds(g)
  {
    if Decodable(bodies) {
      forall g | IsCallGraph(imports, bodies, g)
        ensures !InBounds(g)
      {
        assert g[imports + i] == CallsOf(Parse(bodies[i]).value);
        assert g[imports + i][k] >= |g|;
      }
    }
  }
}
