/** Kahn's algorithm over the in-degree table, as `TaskGraphExecution.TopologicalSort` runs it. */
module Kahn {
  import opened Graphs

  /** How many edges into `v` start outside `done`. */
  function InCount(edges: seq<Edge>, v: Id, done: set<Id>): nat {
    if edges == [] then 0
    else
      var last := edges[|edges| - 1];
      InCount(edges[..|edges| - 1], v, done) + if last.to == v && last.from !in done then 1 else 0
  }

  /** The same count while `current` is being removed: its first `k` edges are already discounted. */
  function OpenCount(edges: seq<Edge>, v: Id, done: set<Id>, current: Id, k: nat): nat {
    if edges == [] then 0
    else
      var n := |edges| - 1;
      OpenCount(edges[..n], v, done, current, k)
      + if edges[n].to == v && edges[n].from !in done && !(n < k && edges[n].from == current) then 1 else 0
  }

  lemma {:induction false} OpenCountEnds(edges: seq<Edge>, v: Id, done: set<Id>, current: Id, k: nat)
    ensures OpenCount(edges, v, done, current, 0) == InCount(edges, v, done)
    ensures |edges| <= k ==> OpenCount(edges, v, done, current, k) == InCount(edges, v, done + {current})
  {
    if edges != [] {
      OpenCountEnds(edges[..|edges| - 1], v, done, current, k);
    }
  }

  lemma {:induction false} OpenCountStep(edges: seq<Edge>, v: Id, done: set<Id>, current: Id, k: nat)
    requires current !in done
    ensures OpenCount(edges, v, done, current, k) == OpenCount(edges, v, done, current, k + 1)
            + if k < |edges| && edges[k] == Edge(current, v) then 1 else 0
  {
    if edges != [] {
      OpenCountStep(edges[..|edges| - 1], v, done, current, k);
    }
  }

  lemma {:induction false} InCountZero(edges: seq<Edge>, v: Id, done: set<Id>)
    ensures InCount(edges, v, done) == 0 <==> forall e | e in edges && e.to == v :: e.from in done
  {
    if edges != [] {
      var rest := edges[..|edges| - 1];
      InCountZero(rest, v, done);
      assert edges == rest + [edges[|edges| - 1]];
    }
  }

  /** The table after the nodes and the edges so far: absent entries have no incoming edge yet. */
  ghost predicate Tabulated(ids: seq<Id>, edges: seq<Edge>, inDegree: map<Id, int>) {
    && inDegree.Keys == Universe(Graph(ids, edges))
    && forall v {:trigger InCount(edges, v, {})} :: InCount(edges, v, {}) == if v in inDegree then inDegree[v] else 0
  }

  lemma TabulateEdge(ids: seq<Id>, edges: seq<Edge>, inDegree: map<Id, int>, e: Edge)
    requires Tabulated(ids, edges, inDegree)
    ensures Tabulated(ids, edges + [e], inDegree[e.to := (if e.to in inDegree then inDegree[e.to] else 0) + 1])
  {
    var longer := edges + [e];
    assert longer[..|edges|] == edges;
    forall v ensures InCount(longer, v, {}) == InCount(edges, v, {}) + if e.to == v then 1 else 0 {
    }
  }

  /** Every node starts at zero. */
  method ZeroTable(ids: seq<Id>) returns (inDegree: map<Id, int>)
    ensures Tabulated(ids, [], inDegree)
  {
    inDegree := map[];
    for i := 0 to |ids|
      invariant inDegree.Keys == ToSet(ids[..i])
      invariant forall v | v in inDegree :: inDegree[v] == 0
    {
      inDegree := inDegree[ids[i] := 0];
      assert ids[..i + 1] == ids[..i] + [ids[i]];
    }
    assert ids[..|ids|] == ids;
  }

  /** One entry per node and per edge target, counting incoming edges. */
  method InDegrees(g: Graph) returns (inDegree: map<Id, int>)
    ensures inDegree.Keys == Universe(g)
    ensures forall v | v in inDegree :: inDegree[v] == InCount(g.edges, v, {})
  {
    inDegree := ZeroTable(g.ids);
    for k := 0 to |g.edges|
      invariant Tabulated(g.ids, g.edges[..k], inDegree)
    {
      TabulateEdge(g.ids, g.edges[..k], inDegree, g.edges[k]);
      var to := g.edges[k].to;
      inDegree := inDegree[to := (if to in inDegree then inDegree[to] else 0) + 1];
      assert g.edges[..k + 1] == g.edges[..k] + [g.edges[k]];
    }
    assert g.edges[..|g.edges|] == g.edges;
  }

  /** The entries that start with in-degree zero; the order they come in is arbitrary. */
  method ZeroEntries(inDegree: map<Id, int>) returns (queue: seq<Id>)
    ensures Distinct(queue)
    ensures forall v :: v in queue <==> v in inDegree && inDegree[v] == 0
  {
    queue := [];
    var rest := inDegree.Keys;
    while rest != {}
      invariant rest <= inDegree.Keys && Distinct(queue)
      invariant forall v :: v in queue <==> v in inDegree.Keys - rest && inDegree[v] == 0
      decreases |rest|
    {
      var id :| id in rest;
      rest := rest - {id};
      if inDegree[id] == 0 {
        queue := queue + [id];
      }
    }
  }

  /** The table and the two lists agree: listed means no open incoming edge. */
  ghost predicate Consistent(g: Graph, result: seq<Id>, queue: seq<Id>, inDegree: map<Id, int>) {
    && inDegree.Keys == Universe(g)
    && Distinct(result + queue)
    && (forall v | v in result + queue :: v in inDegree)
    && forall v | v in inDegree :: v in result + queue <==> inDegree[v] == 0
  }

  /** Counting one edge less, and queueing the target when it was the last one, keeps the two in step. */
  lemma DecrementIsConsistent(g: Graph, result: seq<Id>, queue: seq<Id>, inDegree: map<Id, int>, to: Id)
    requires Consistent(g, result, queue, inDegree) && to in inDegree && inDegree[to] >= 1
    ensures Consistent(g, result, if inDegree[to] == 1 then queue + [to] else queue, inDegree[to := inDegree[to] - 1])
  {
    assert result + (queue + [to]) == (result + queue) + [to];
  }

  /** Each entry counts the open edges while the first `k` edges of `current` are discounted. */
  ghost predicate Counts(g: Graph, inDegree: map<Id, int>, done: set<Id>, current: Id, k: nat) {
    forall v | v in inDegree :: inDegree[v] == OpenCount(g.edges, v, done, current, k)
  }

  lemma CountsStart(g: Graph, inDegree: map<Id, int>, done: set<Id>, current: Id)
    requires forall v | v in inDegree :: inDegree[v] == InCount(g.edges, v, done)
    ensures Counts(g, inDegree, done, current, 0)
  {
    forall v | v in inDegree ensures inDegree[v] == OpenCount(g.edges, v, done, current, 0) {
      OpenCountEnds(g.edges, v, done, current, 0);
    }
  }

  lemma CountsEnd(g: Graph, inDegree: map<Id, int>, done: set<Id>, current: Id)
    requires Counts(g, inDegree, done, current, |g.edges|)
    ensures forall v | v in inDegree :: inDegree[v] == InCount(g.edges, v, done + {current})
  {
    forall v | v in inDegree ensures inDegree[v] == InCount(g.edges, v, done + {current}) {
      OpenCountEnds(g.edges, v, done, current, |g.edges|);
    }
  }

  lemma CountsStep(g: Graph, inDegree: map<Id, int>, done: set<Id>, current: Id, k: nat)
    requires current !in done && k < |g.edges| && inDegree.Keys == Universe(g)
    requires Counts(g, inDegree, done, current, k)
    ensures var e := g.edges[k];
      && e.to in inDegree
      && (e.from == current ==>
           inDegree[e.to] >= 1 && Counts(g, inDegree[e.to := inDegree[e.to] - 1], done, current, k + 1))
      && (e.from != current ==> Counts(g, inDegree, done, current, k + 1))
  {
    var e := g.edges[k];
    assert e.from == current ==> e == Edge(current, e.to);
    forall v | v in inDegree
      ensures OpenCount(g.edges, v, done, current, k) ==
              OpenCount(g.edges, v, done, current, k + 1) + if e == Edge(current, v) then 1 else 0
    {
      OpenCountStep(g.edges, v, done, current, k);
    }
  }

  /** Removes the edges of `current`, queueing each target whose last incoming edge goes. */
  method RemoveEdges(g: Graph, current: Id, result: seq<Id>, queue0: seq<Id>, inDegree0: map<Id, int>)
    returns (queue: seq<Id>, inDegree: map<Id, int>)
    requires result != [] && result[|result| - 1] == current
    requires Consistent(g, result, queue0, inDegree0)
    requires forall v | v in inDegree0 :: inDegree0[v] == InCount(g.edges, v, ToSet(result[..|result| - 1]))
    ensures Consistent(g, result, queue, inDegree)
    ensures forall v | v in inDegree :: inDegree[v] == InCount(g.edges, v, ToSet(result))
  {
    queue, inDegree := queue0, inDegree0;
    ghost var done := ToSet(result[..|result| - 1]);
    CurrentIsNew(result, queue);
    CountsStart(g, inDegree, done, current);
    for k := 0 to |g.edges|
      invariant Consistent(g, result, queue, inDegree)
      invariant Counts(g, inDegree, done, current, k)
    {
      CountsStep(g, inDegree, done, current, k);
      var edge := g.edges[k];
      if edge.from == current {
        DecrementIsConsistent(g, result, queue, inDegree, edge.to);
        inDegree := inDegree[edge.to := inDegree[edge.to] - 1];
        if inDegree[edge.to] == 0 {
          queue := queue + [edge.to];
        }
      }
    }
    CountsEnd(g, inDegree, done, current);
  }

  lemma CurrentIsNew(result: seq<Id>, queue: seq<Id>)
    requires result != [] && Distinct(result + queue)
    ensures var done, current := ToSet(result[..|result| - 1]), result[|result| - 1];
      current !in done && ToSet(result) == done + {current}
  {
    assert forall i | 0 <= i < |result| :: (result + queue)[i] == result[i];
    assert result == result[..|result| - 1] + [result[|result| - 1]];
  }

  /** Kahn's loop, for any graph: duplicate edges, self-loops and unknown identifiers included. */
  method Sort(g: Graph) returns (result: seq<Id>)
    ensures Peels(result, g)
  {
    var inDegree := InDegrees(g);
    var queue := ZeroEntries(inDegree);
    result := [];
    assert [] + queue == queue && ToSet<Id>([]) == {};
    while queue != []
      invariant Consistent(g, result, queue, inDegree)
      invariant forall v | v in inDegree :: inDegree[v] == InCount(g.edges, v, ToSet(result))
      invariant Respects(result, g.edges)
      decreases |Universe(g)| - |result|
    {
      var current := queue[0];
      PopIsSound(g, result, queue, inDegree);
      queue := queue[1..];
      result := result + [current];
      queue, inDegree := RemoveEdges(g, current, result, queue, inDegree);
    }
    NothingLeftToPeel(g, result, inDegree);
  }

  /** Moving the head of the queue to the result keeps the lists consistent and the order respected. */
  lemma PopIsSound(g: Graph, result: seq<Id>, queue: seq<Id>, inDegree: map<Id, int>)
    requires queue != [] && Consistent(g, result, queue, inDegree) && Respects(result, g.edges)
    requires forall v | v in inDegree :: inDegree[v] == InCount(g.edges, v, ToSet(result))
    ensures var longer := result + [queue[0]];
      && Consistent(g, longer, queue[1..], inDegree) && Respects(longer, g.edges)
      && longer[..|longer| - 1] == result && |longer| <= |Universe(g)|
  {
    var v, longer := queue[0], result + [queue[0]];
    assert longer + queue[1..] == result + queue;
    assert v in result + queue;
    InCountZero(g.edges, v, ToSet(result));
    forall j, e | 0 <= j < |longer| && e in g.edges && e.to == longer[j] ensures e.from in longer[..j] {
      if j < |result| {
        assert longer[..j] == result[..j];
      } else {
        assert longer[..j] == result;
      }
    }
    ListedNodesAreBounded(g, result, queue, inDegree);
  }

  lemma NothingLeftToPeel(g: Graph, result: seq<Id>, inDegree: map<Id, int>)
    requires Consistent(g, result, [], inDegree) && Respects(result, g.edges)
    requires forall v | v in inDegree :: inDegree[v] == InCount(g.edges, v, ToSet(result))
    ensures Peels(result, g)
  {
    assert result + [] == result;
    forall v | v in Universe(g) && v !in result ensures Blocked(result, g.edges, v) {
      InCountZero(g.edges, v, ToSet(result));
    }
  }

  lemma ListedNodesAreBounded(g: Graph, result: seq<Id>, queue: seq<Id>, inDegree: map<Id, int>)
    requires Consistent(g, result, queue, inDegree)
    ensures |result| + |queue| <= |Universe(g)|
  {
    Pigeonhole(result + queue, Universe(g));
  }
}
