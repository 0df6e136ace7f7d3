/** The task-graph execution aggregate: node records updated in place, an index from identifiers to
    positions, the completed set and the incrementally maintained ready queue. */
module TaskGraph {
  import opened Wrappers
  import opened Graphs
  import opened GraphRun
  import Kahn

  type Output = map<string, string>

  datatype GraphNode = GraphNode(
    id: Id, state: NodeState, output: Output, error: string, startedAt: int, finishedAt: int, dependsOn: seq<Id>)

  datatype GraphError = NodeNotFound | NodeNotReady

  function Ids(nodes: seq<GraphNode>): seq<Id> {
    seq(|nodes|, i requires 0 <= i < |nodes| => nodes[i].id)
  }

  ghost predicate IndexOk(nodes: seq<GraphNode>, index: map<Id, nat>) {
    && (forall v | v in index :: index[v] < |nodes| && nodes[index[v]].id == v)
    && forall i | 0 <= i < |nodes| :: nodes[i].id in index && index[nodes[i].id] == i
  }

  ghost function States(nodes: seq<GraphNode>, index: map<Id, nat>): map<Id, NodeState>
    requires IndexOk(nodes, index)
  {
    map v | v in index :: nodes[index[v]].state
  }

  /** Nothing but node states changed. */
  ghost predicate SameButState(a: seq<GraphNode>, b: seq<GraphNode>) {
    |a| == |b| && forall i | 0 <= i < |a| :: b[i] == a[i].(state := b[i].state)
  }

  lemma StateDoesNotMatter(nodes: seq<GraphNode>, i: nat, n: GraphNode, s: NodeState, b: seq<GraphNode>)
    requires i < |nodes| && SameButState(nodes[i := n.(state := s)], b)
    ensures SameButState(nodes[i := n], b)
  {
  }

  ghost predicate DependenciesOk(nodes: seq<GraphNode>, edges: seq<Edge>) {
    forall i | 0 <= i < |nodes| :: ToSet(nodes[i].dependsOn) == Deps(edges, nodes[i].id)
  }

  // ---------- facts about node records ----------

  /** Rewriting one record, keeping its identifier and dependencies, rewrites one state. */
  lemma RewriteNode(nodes: seq<GraphNode>, index: map<Id, nat>, edges: seq<Edge>, v: Id, n: GraphNode)
    requires IndexOk(nodes, index) && DependenciesOk(nodes, edges) && v in index
    requires n.id == v && n.dependsOn == nodes[index[v]].dependsOn
    ensures var nodes' := nodes[index[v] := n];
      && IndexOk(nodes', index) && DependenciesOk(nodes', edges) && Ids(nodes') == Ids(nodes)
      && States(nodes', index) == States(nodes, index)[v := n.state]
  {
  }

  lemma IndexVerdict(nodes: seq<GraphNode>, index: map<Id, nat>)
    requires index.Keys == ToSet(Ids(nodes))
    requires forall v | v in index :: index[v] < |nodes| && nodes[index[v]].id == v
    ensures IndexOk(nodes, index) <==> Distinct(Ids(nodes))
  {
    var ids := Ids(nodes);
    assert forall i | 0 <= i < |nodes| :: ids[i] == nodes[i].id && nodes[i].id in ids;
    if Distinct(ids) {
      forall i | 0 <= i < |nodes| ensures nodes[i].id in index && index[nodes[i].id] == i {
        assert nodes[i].id in ToSet(ids);
        assert ids[index[nodes[i].id]] == ids[i];
      }
    }
  }

  lemma DependencyVerdict(nodes: seq<GraphNode>, edges: seq<Edge>)
    requires forall i | 0 <= i < |nodes| ::
               Deps(edges, nodes[i].id) != {} ==> ToSet(nodes[i].dependsOn) == Deps(edges, nodes[i].id)
    ensures DependenciesOk(nodes, edges) <==>
            forall i | 0 <= i < |nodes| && Deps(edges, nodes[i].id) == {} :: nodes[i].dependsOn == []
  {
    assert forall s: seq<Id> :: s != [] ==> s[0] in ToSet(s);
  }

  lemma BuiltStateIsInitial(nodes: seq<GraphNode>, index: map<Id, nat>, edges: seq<Edge>)
    requires IndexOk(nodes, index) && DependenciesOk(nodes, edges)
    requires index.Keys == ToSet(Ids(nodes))
    requires forall i | 0 <= i < |nodes| :: nodes[i].state == if nodes[i].dependsOn == [] then Ready else Pending
    ensures Exec(States(nodes, index), {}, Independent(nodes)) == Init(Graph(Ids(nodes), edges))
  {
    QueueIsRoots(nodes, edges);
    StatesAreInitial(nodes, index, Graph(Ids(nodes), edges));
  }

  lemma StatesAreInitial(nodes: seq<GraphNode>, index: map<Id, nat>, g: Graph)
    requires IndexOk(nodes, index) && index.Keys == ToSet(g.ids)
    requires forall v | v in index :: ToSet(nodes[index[v]].dependsOn) == Deps(g.edges, v)
    requires forall i | 0 <= i < |nodes| :: nodes[i].state == if nodes[i].dependsOn == [] then Ready else Pending
    ensures States(nodes, index) == Init(g).state
  {
    var states := States(nodes, index);
    assert Init(g).state.Keys == ToSet(g.ids);
    forall v | v in index ensures states[v] == Init(g).state[v] {
      BuiltNodeIsInitial(nodes[index[v]], g);
    }
  }

  lemma BuiltNodeIsInitial(n: GraphNode, g: Graph)
    requires ToSet(n.dependsOn) == Deps(g.edges, n.id)
    requires n.state == if n.dependsOn == [] then Ready else Pending
    ensures n.id in g.ids ==> Init(g).state[n.id] == n.state
  {
    EmptyIffNoElements(n.dependsOn);
  }

  lemma EmptyIffNoElements(s: seq<Id>)
    ensures s == [] <==> ToSet(s) == {}
  {
    assert s != [] ==> s[0] in ToSet(s);
  }

  /** What building makes of the node records. */
  ghost predicate Built(before: seq<GraphNode>, nodes: seq<GraphNode>, edges: seq<Edge>) {
    && |nodes| == |before|
    && forall i | 0 <= i < |nodes| ::
         && nodes[i] == before[i].(state := nodes[i].state, dependsOn := nodes[i].dependsOn)
         && nodes[i].state == (if nodes[i].dependsOn == [] then Ready else Pending)
         && (if Deps(edges, nodes[i].id) == {} then nodes[i].dependsOn == before[i].dependsOn
             else Distinct(nodes[i].dependsOn) && ToSet(nodes[i].dependsOn) == Deps(edges, nodes[i].id))
  }

  ghost predicate DependenciesSet(before: seq<GraphNode>, nodes: seq<GraphNode>, dependencies: map<Id, set<Id>>) {
    && |nodes| == |before|
    && forall i | 0 <= i < |nodes| ::
         && nodes[i] == before[i].(dependsOn := nodes[i].dependsOn)
         && (if nodes[i].id in dependencies
             then Distinct(nodes[i].dependsOn) && ToSet(nodes[i].dependsOn) == dependencies[nodes[i].id]
             else nodes[i].dependsOn == before[i].dependsOn)
  }

  ghost predicate StatesSet(before: seq<GraphNode>, nodes: seq<GraphNode>) {
    && |nodes| == |before|
    && forall i | 0 <= i < |nodes| ::
         nodes[i] == before[i].(state := if before[i].dependsOn == [] then Ready else Pending)
  }

  lemma BuiltInTwoPasses(before: seq<GraphNode>, dependent: seq<GraphNode>, nodes: seq<GraphNode>, edges: seq<Edge>,
                         dependencies: map<Id, set<Id>>, index: map<Id, nat>)
    requires Indexed(before, index)
    requires forall v :: v in dependencies <==> Deps(edges, v) != {}
    requires forall v | v in dependencies :: dependencies[v] == Deps(edges, v)
    requires DependenciesSet(before, dependent, dependencies) && StatesSet(dependent, nodes)
    ensures Built(before, nodes, edges) && Indexed(nodes, index)
  {
    assert Ids(nodes) == Ids(before);
    forall v | v in index ensures index[v] < |nodes| && nodes[index[v]].id == v {
      assert before[index[v]].id == v;
    }
  }

  /** Some node has that identifier, and the index points at one. */
  ghost predicate Indexed(nodes: seq<GraphNode>, index: map<Id, nat>) {
    && index.Keys == ToSet(Ids(nodes))
    && forall v | v in index :: index[v] < |nodes| && nodes[index[v]].id == v
  }

  /** A node nothing points at records no dependency. */
  ghost predicate NoStaleDependencies(nodes: seq<GraphNode>, edges: seq<Edge>) {
    forall i | 0 <= i < |nodes| && Deps(edges, nodes[i].id) == {} :: nodes[i].dependsOn == []
  }

  lemma BuildVerdict(before: seq<GraphNode>, nodes: seq<GraphNode>, edges: seq<Edge>, index: map<Id, nat>)
    requires Built(before, nodes, edges) && Indexed(nodes, index)
    ensures Ids(nodes) == Ids(before)
    ensures IndexOk(nodes, index) && DependenciesOk(nodes, edges) <==>
            Distinct(Ids(before)) && NoStaleDependencies(before, edges)
    ensures IndexOk(nodes, index) && DependenciesOk(nodes, edges) ==>
            Exec(States(nodes, index), {}, Independent(nodes)) == Init(Graph(Ids(nodes), edges))
  {
    assert Ids(nodes) == Ids(before);
    IndexVerdict(nodes, index);
    DependencyVerdict(nodes, edges);
    assert NoStaleDependencies(nodes, edges) <==> NoStaleDependencies(before, edges);
    if IndexOk(nodes, index) && DependenciesOk(nodes, edges) {
      BuiltStateIsInitial(nodes, index, edges);
    }
  }

  // ---------- skip propagation ----------

  /** From `e0`, pending nodes reached from `f` were skipped, and skipping is closed except for the
      edges of `f` not among `visited`. */
  ghost predicate SkipProgress(g: Graph, e0: Exec, e: Exec, f: Id, visited: seq<Edge>) {
    && e == e0.(state := e.state) && e.state.Keys == e0.state.Keys
    && (forall v | v in e.state :: e.state[v] == e0.state[v] || NewlySkipped(g, e0, e, f, v))
    && (forall w {:trigger Edge(f, w)} :: Edge(f, w) in visited ==> !Is(e, w, Pending))
    && forall v, w {:trigger HasEdge(g, v, w)} ::
         v in e.state && e.state[v] != e0.state[v] && HasEdge(g, v, w) ==> !Is(e, w, Pending)
  }

  ghost predicate NewlySkipped(g: Graph, e0: Exec, e: Exec, f: Id, v: Id) {
    Is(e0, v, Pending) && Is(e, v, Skipped) && PendingReach(g, e0, f, v)
  }

  /** One edge of `f` visited: its pending target is skipped and propagation runs from there. */
  lemma SkipThroughTarget(g: Graph, e0: Exec, e: Exec, e': Exec, f: Id, to: Id, k: nat)
    requires k < |g.edges| && g.edges[k] == Edge(f, to) && Is(e, to, Pending)
    requires SkipProgress(g, e0, e, f, g.edges[..k])
    requires SkipProgress(g, e.(state := e.state[to := Skipped]), e', to, g.edges)
    ensures SkipProgress(g, e0, e', f, g.edges[..k + 1])
  {
    var mid := e.(state := e.state[to := Skipped]);
    assert HasEdge(g, f, to);
    ExtendPendingWalk(g, e0, f, f, to);
    forall v | v in e'.state ensures e'.state[v] == e0.state[v] || NewlySkipped(g, e0, e', f, v) {
      if v != to && e'.state[v] != mid.state[v] {
        assert NewlySkipped(g, mid, e', to, v);
        var p :| PendingWalk(g, mid, p) && p[0] == to && p[|p| - 1] == v;
        PrependPendingWalk(g, e0, mid, f, p);
      }
    }
    forall v, w | v in e'.state && e'.state[v] != e0.state[v] && HasEdge(g, v, w) ensures !Is(e', w, Pending) {
      if v == to {
        assert Edge(to, w) in g.edges;
      }
    }
  }

  lemma PrependPendingWalk(g: Graph, e0: Exec, e: Exec, f: Id, p: seq<Id>)
    requires PendingWalk(g, e, p) && HasEdge(g, f, p[0]) && Is(e0, p[0], Pending)
    requires forall v | Is(e, v, Pending) :: Is(e0, v, Pending)
    ensures PendingReach(g, e0, f, p[|p| - 1])
  {
    var q := [f] + p;
    assert forall i | 1 <= i < |q| :: q[i] == p[i - 1];
    assert PendingWalk(g, e0, q);
  }

  /** Soundness and closure pin the result down: exactly the nodes reached over pending nodes. */
  lemma SkipIsExact(g: Graph, e0: Exec, e: Exec, f: Id)
    requires SkipProgress(g, e0, e, f, g.edges)
    ensures e == SkipFrom(g, e0, f)
  {
    forall v | v in e.state ensures e.state[v] == SkipFrom(g, e0, f).state[v] {
      if PendingReach(g, e0, f, v) {
        var p :| PendingWalk(g, e0, p) && p[0] == f && p[|p| - 1] == v;
        SkipReaches(g, e0, e, f, p, |p| - 1);
      }
    }
  }

  lemma {:induction false} SkipReaches(g: Graph, e0: Exec, e: Exec, f: Id, p: seq<Id>, i: nat)
    requires SkipProgress(g, e0, e, f, g.edges)
    requires PendingWalk(g, e0, p) && p[0] == f && 1 <= i < |p|
    ensures Is(e, p[i], Skipped)
  {
    assert HasEdge(g, p[i - 1], p[i]);
    if i > 1 {
      SkipReaches(g, e0, e, f, p, i - 1);
    }
    assert Is(e0, p[i], Pending);
  }

  ghost function PendingNodes(e: Exec): set<Id> {
    set v | v in e.state && e.state[v] == Pending
  }

  // ---------- the aggregate ----------

  class TaskGraphExecution {
    var nodes: seq<GraphNode>
    var edges: seq<Edge>
    var completedNodes: set<Id>
    var readyQueue: seq<Id>
    var nodeIndex: map<Id, nat>

    ghost function Shape(): Graph
      reads this
    {
      Graph(Ids(nodes), edges)
    }

    /** The index is built and the dependency lists match the edges. */
    ghost predicate Valid()
      reads this
    {
      IndexOk(nodes, nodeIndex) && DependenciesOk(nodes, edges)
    }

    ghost function State(): Exec
      reads this
      requires Valid()
    {
      Exec(States(nodes, nodeIndex), completedNodes, readyQueue)
    }

    /** The graph as assembled node by node and edge by edge, before its index is built. */
    constructor (nodes: seq<GraphNode>, edges: seq<Edge>)
      ensures this.nodes == nodes && this.edges == edges
      ensures completedNodes == {} && readyQueue == [] && nodeIndex == map[]
    {
      this.nodes, this.edges := nodes, edges;
      completedNodes, readyQueue, nodeIndex := {}, [], map[];
    }

    // ---------- building ----------

    method BuildIndex()
      modifies this
      ensures edges == old(edges) && completedNodes == old(completedNodes)
      ensures Built(old(nodes), nodes, edges) && Indexed(nodes, nodeIndex)
      ensures readyQueue == Independent(nodes)
      ensures Valid() <==> Distinct(Ids(old(nodes))) && NoStaleDependencies(old(nodes), edges)
      ensures Valid() && completedNodes == {} ==> State() == Init(Shape())
    {
      IndexNodes();
      var dependencies := CollectDependencies();
      SetDependencies(dependencies);
      ghost var dependent := nodes;
      InitReadyQueue();
      BuiltInTwoPasses(old(nodes), dependent, nodes, edges, dependencies, nodeIndex);
      BuildVerdict(old(nodes), nodes, edges, nodeIndex);
    }

    /** Later nodes overwrite earlier ones with the same identifier. */
    method IndexNodes()
      modifies this`nodeIndex
      ensures Indexed(nodes, nodeIndex)
    {
      nodeIndex := map[];
      ghost var ids := Ids(nodes);
      for i := 0 to |nodes|
        invariant nodeIndex.Keys == ToSet(ids[..i])
        invariant forall v | v in nodeIndex :: nodeIndex[v] < i && nodes[nodeIndex[v]].id == v
      {
        nodeIndex := nodeIndex[nodes[i].id := i];
        assert ids[..i + 1] == ids[..i] + [nodes[i].id];
      }
      assert ids[..|nodes|] == ids;
    }

    method CollectDependencies() returns (dependencies: map<Id, set<Id>>)
      ensures forall v :: v in dependencies <==> Deps(edges, v) != {}
      ensures forall v | v in dependencies :: dependencies[v] == Deps(edges, v)
    {
      dependencies := map[];
      for k := 0 to |edges|
        invariant forall v :: v in dependencies <==> Deps(edges[..k], v) != {}
        invariant forall v | v in dependencies :: dependencies[v] == Deps(edges[..k], v)
      {
        var edge := edges[k];
        var known := if edge.to in dependencies then dependencies[edge.to] else {};
        dependencies := dependencies[edge.to := known + {edge.from}];
        assert edges[..k + 1] == edges[..k] + [edge];
        assert Deps(edges[..k + 1], edge.to) == Deps(edges[..k], edge.to) + {edge.from};
        assert forall v | v != edge.to :: Deps(edges[..k + 1], v) == Deps(edges[..k], v);
      }
      assert edges[..|edges|] == edges;
    }

    method SetDependencies(dependencies: map<Id, set<Id>>)
      requires forall v | v in dependencies :: dependencies[v] != {}
      modifies this`nodes
      ensures DependenciesSet(old(nodes), nodes, dependencies)
    {
      for i := 0 to |nodes|
        invariant |nodes| == |old(nodes)|
        invariant forall j | i <= j < |nodes| :: nodes[j] == old(nodes)[j]
        invariant forall j | 0 <= j < i ::
                && nodes[j] == old(nodes)[j].(dependsOn := nodes[j].dependsOn)
                && (if nodes[j].id in dependencies
                    then Distinct(nodes[j].dependsOn) && ToSet(nodes[j].dependsOn) == dependencies[nodes[j].id]
                    else nodes[j].dependsOn == old(nodes)[j].dependsOn)
      {
        if nodes[i].id in dependencies {
          var deps := ListSet(dependencies[nodes[i].id]);
          nodes := nodes[i := nodes[i].(dependsOn := deps)];
        }
      }
    }

    method InitReadyQueue()
      modifies this`nodes, this`readyQueue
      ensures StatesSet(old(nodes), nodes)
      ensures readyQueue == Independent(nodes)
    {
      readyQueue := [];
      for i := 0 to |nodes|
        invariant |nodes| == |old(nodes)|
        invariant forall j | i <= j < |nodes| :: nodes[j] == old(nodes)[j]
        invariant forall j | 0 <= j < i ::
                nodes[j] == old(nodes)[j].(state := if old(nodes)[j].dependsOn == [] then Ready else Pending)
        invariant readyQueue == Independent(nodes[..i])
      {
        ghost var before := nodes[..i];
        if nodes[i].dependsOn == [] {
          readyQueue := readyQueue + [nodes[i].id];
          nodes := nodes[i := nodes[i].(state := Ready)];
        } else {
          nodes := nodes[i := nodes[i].(state := Pending)];
        }
        assert nodes[..i] == before && nodes[..i + 1] == before + [nodes[i]];
      }
      assert nodes[..|nodes|] == nodes;
    }

    /** The verdict is right on every well-formed graph; on any graph the length of a complete
        peeling decides. */
    method TopologicalSort() returns (r: Option<seq<Id>>)
      modifies this
      ensures edges == old(edges) && Ids(nodes) == Ids(old(nodes))
      ensures r.Some? ==> Peels(r.value, Shape()) && |r.value| == |nodes|
      ensures r.None? ==> forall order :: Peels(order, Shape()) ==> |order| != |nodes|
      ensures WellFormed(Shape()) ==> (r.Some? <==> Acyclic(Shape()))
      ensures Distinct(Shape().ids) ==> (r.Some? <==> |Strangers(Shape())| == |LeftOut(Shape())|)
      ensures WellFormed(Shape()) && r.Some? ==> ToSet(r.value) == ToSet(Ids(nodes))
      ensures Valid() && completedNodes == {} ==> State() == Init(Shape())
    {
      BuildIndex();
      assert Ids(nodes) == Ids(old(nodes));
      var result := Kahn.Sort(Graph(Ids(nodes), edges));
      forall order | Peels(order, Shape()) ensures |order| == |result| {
        PeeledSetIsUnique(Shape(), order, result);
      }
      if Distinct(Shape().ids) {
        LengthTestIsExact(Shape(), result);
      }
      if WellFormed(Shape()) {
        PeelingDecidesAcyclicity(Shape(), result);
      }
      if |result| != |nodes| {
        return None;
      }
      return Some(result);
    }

    // ---------- queries ----------

    method GetReadyNodes() returns (result: seq<Id>)
      requires Valid()
      ensures result == ReadyNodes(State(), readyQueue)
    {
      result := [];
      for i := 0 to |readyQueue|
        invariant result == ReadyNodes(State(), readyQueue[..i])
      {
        var id := readyQueue[i];
        assert readyQueue[..i + 1][..i] == readyQueue[..i];
        if id in nodeIndex && nodes[nodeIndex[id]].state == Ready {
          result := result + [id];
        }
      }
      assert readyQueue[..|readyQueue|] == readyQueue;
    }

    method IsCompleted() returns (done: bool)
      requires Valid()
      ensures done <==> |State().completed| == |Shape().ids|
      ensures WellFormed(Shape()) && Inv(Shape(), State()) ==>
                (done <==> forall v | v in Shape().ids :: Is(State(), v, Completed))
    {
      if WellFormed(Shape()) && Inv(Shape(), State()) {
        CountTellsCompletion(Shape(), State());
      }
      done := |completedNodes| == |nodes|;
    }

    method GetProgress() returns (completed: nat, total: nat, failed: nat, skipped: nat)
      ensures completed == |InState(nodes, Completed)|
      ensures failed == |InState(nodes, Failed)|
      ensures skipped == |InState(nodes, Skipped)|
      ensures total == |nodes|
    {
      total, completed, failed, skipped := |nodes|, 0, 0, 0;
      for i := 0 to |nodes|
        invariant completed == |InState(nodes[..i], Completed)|
        invariant failed == |InState(nodes[..i], Failed)|
        invariant skipped == |InState(nodes[..i], Skipped)|
      {
        InStateStep(nodes, i);
        match nodes[i].state
        case Completed => completed := completed + 1;
        case Failed => failed := failed + 1;
        case Skipped => skipped := skipped + 1;
        case _ =>
      }
      assert nodes[..|nodes|] == nodes;
    }

    // ---------- marks ----------

    method MarkNodeRunning(id: Id, now: int) returns (r: Result<(), GraphError>)
      requires Valid()
      modifies this`nodes
      ensures Valid() && Shape() == old(Shape())
      ensures r == Err(NodeNotFound) <==> id !in old(State()).state
      ensures r.Ok? <==> Enabled(old(State()), Start(id))
      ensures r.Err? ==> nodes == old(nodes)
      ensures r.Ok? ==> State() == Step(Shape(), old(State()), Start(id))
      ensures r.Ok? ==>
              nodes == old(nodes)[nodeIndex[id] := old(nodes)[nodeIndex[id]].(state := Running, startedAt := now)]
    {
      if id !in nodeIndex {
        return Err(NodeNotFound);
      }
      var i := nodeIndex[id];
      if nodes[i].state != Ready {
        return Err(NodeNotReady);
      }
      nodes := nodes[i := nodes[i].(state := Running, startedAt := now)];
      assert Ids(nodes) == Ids(old(nodes));
      return Ok(());
    }

    method MarkNodeCompleted(id: Id, output: Output, now: int) returns (r: Result<(), GraphError>)
      requires Valid()
      modifies this`nodes, this`completedNodes, this`readyQueue
      ensures Valid() && Shape() == old(Shape())
      ensures r == if id in old(State()).state then Ok(()) else Err(NodeNotFound)
      ensures r.Err? ==> State() == old(State()) && nodes == old(nodes)
      ensures r.Ok? ==> State() == Step(Shape(), old(State()), Finish(id))
      ensures r.Ok? ==>
              var finished := old(nodes)[nodeIndex[id]].(finishedAt := now, output := output);
              SameButState(old(nodes)[nodeIndex[id] := finished], nodes)
    {
      if id !in nodeIndex {
        return Err(NodeNotFound);
      }
      PutNode(id, nodes[nodeIndex[id]].(state := Completed, finishedAt := now, output := output));
      completedNodes := completedNodes + {id};
      UpdateDependentNodes(id);
      ghost var finished := old(nodes)[nodeIndex[id]].(finishedAt := now, output := output);
      StateDoesNotMatter(old(nodes), nodeIndex[id], finished, Completed, nodes);
      return Ok(());
    }

    method MarkNodeFailed(id: Id, errMsg: string, now: int) returns (r: Result<(), GraphError>)
      requires Valid()
      modifies this`nodes
      ensures Valid() && Shape() == old(Shape())
      ensures r == if id in old(State()).state then Ok(()) else Err(NodeNotFound)
      ensures r.Err? ==> nodes == old(nodes)
      ensures r.Ok? ==> State() == Step(Shape(), old(State()), Fail(id))
      ensures r.Ok? ==>
              var finished := old(nodes)[nodeIndex[id]].(finishedAt := now, error := errMsg);
              SameButState(old(nodes)[nodeIndex[id] := finished], nodes)
    {
      if id !in nodeIndex {
        return Err(NodeNotFound);
      }
      PutNode(id, nodes[nodeIndex[id]].(state := Failed, finishedAt := now, error := errMsg));
      ghost var failed := State();
      SkipDependentNodes(id);
      SkipIsExact(Shape(), failed, State(), id);
      ghost var finished := old(nodes)[nodeIndex[id]].(finishedAt := now, error := errMsg);
      StateDoesNotMatter(old(nodes), nodeIndex[id], finished, Failed, nodes);
      return Ok(());
    }

    method PutNode(id: Id, node: GraphNode)
      requires Valid() && id in nodeIndex
      requires node.id == id && node.dependsOn == nodes[nodeIndex[id]].dependsOn
      modifies this`nodes
      ensures Valid() && Shape() == old(Shape()) && nodes == old(nodes)[nodeIndex[id] := node]
      ensures State() == old(State()).(state := old(State()).state[id := node.state])
    {
      RewriteNode(nodes, nodeIndex, edges, id, node);
      nodes := nodes[nodeIndex[id] := node];
    }

    // ---------- propagation ----------

    method AreAllDependenciesMet(id: Id) returns (met: bool)
      requires Valid()
      ensures met <==> id in nodeIndex && Deps(edges, id) <= completedNodes
    {
      if id !in nodeIndex {
        return false;
      }
      var deps := nodes[nodeIndex[id]].dependsOn;
      assert ToSet(deps) == Deps(edges, id);
      for i := 0 to |deps|
        invariant forall d | d in deps[..i] :: d in completedNodes
      {
        if deps[i] !in completedNodes {
          assert deps[i] in ToSet(deps);
          return false;
        }
      }
      assert deps[..|deps|] == deps;
      return true;
    }

    method UpdateDependentNodes(completedId: Id)
      requires Valid()
      modifies this`nodes, this`readyQueue
      ensures Valid() && Shape() == old(Shape()) && SameButState(old(nodes), nodes)
      ensures State() == Release(edges, old(State()), completedId, edges)
    {
      for k := 0 to |edges|
        invariant Valid() && Shape() == old(Shape()) && SameButState(old(nodes), nodes)
        invariant State() == Release(edges, old(State()), completedId, edges[..k])
      {
        var edge := edges[k];
        assert edges[..k + 1][..k] == edges[..k];
        if edge.from == completedId && edge.to in nodeIndex && nodes[nodeIndex[edge.to]].state == Pending {
          var met := AreAllDependenciesMet(edge.to);
          if met {
            SetState(edge.to, Ready);
            readyQueue := readyQueue + [edge.to];
          }
        }
      }
      assert edges[..|edges|] == edges;
    }

    method SetState(id: Id, s: NodeState)
      requires Valid() && id in nodeIndex
      modifies this`nodes
      ensures Valid() && Shape() == old(Shape()) && SameButState(old(nodes), nodes)
      ensures State() == old(State()).(state := old(State()).state[id := s])
    {
      PutNode(id, nodes[nodeIndex[id]].(state := s));
    }

    /** The linear search used while skipping finds the indexed node. */
    method FindNode(id: Id) returns (r: Option<nat>)
      requires Valid()
      ensures r == if id in nodeIndex then Some(nodeIndex[id]) else None
    {
      for i := 0 to |nodes|
        invariant forall j | 0 <= j < i :: nodes[j].id != id
      {
        if nodes[i].id == id {
          return Some(i);
        }
      }
      return None;
    }

    method SkipDependentNodes(failedId: Id)
      requires Valid()
      modifies this`nodes
      ensures Valid() && Shape() == old(Shape()) && SameButState(old(nodes), nodes)
      ensures SkipProgress(Shape(), old(State()), State(), failedId, edges)
      decreases |PendingNodes(State())|, 1
    {
      ghost var e0 := State();
      for k := 0 to |edges|
        invariant Valid() && Shape() == old(Shape()) && SameButState(old(nodes), nodes)
        invariant SkipProgress(Shape(), e0, State(), failedId, edges[..k])
      {
        PendingShrinks(Shape(), e0, State(), failedId, edges[..k]);
        VisitEdge(failedId, k, e0);
      }
      assert edges[..|edges|] == edges;
    }

    /** The loop body of the propagation: skips the edge's pending target and everything behind it. */
    method VisitEdge(failedId: Id, k: nat, ghost e0: Exec)
      requires Valid() && k < |edges|
      requires SkipProgress(Shape(), e0, State(), failedId, edges[..k])
      modifies this`nodes
      ensures Valid() && Shape() == old(Shape()) && SameButState(old(nodes), nodes)
      ensures SkipProgress(Shape(), e0, State(), failedId, edges[..k + 1])
      decreases |PendingNodes(State())|, 0
    {
      var edge := edges[k];
      ghost var e := State();
      if edge.from == failedId {
        var target := FindNode(edge.to);
        if target.Some? && nodes[target.value].state == Pending {
          FewerPending(e, edge.to);
          SetState(edge.to, Skipped);
          SkipDependentNodes(edge.to);
          SkipThroughTarget(Shape(), e0, e, State(), failedId, edge.to, k);
          return;
        }
      }
      NothingToSkip(Shape(), e0, e, failedId, k);
    }
  }

  // ---------- whole runs on the aggregate ----------

  /** A caller giving one mark. */
  method Give(exec: TaskGraphExecution, mark: Mark, output: Output, errMsg: string, now: int)
    requires exec.Valid() && Enabled(exec.State(), mark)
    modifies exec
    ensures exec.Valid() && exec.Shape() == old(exec.Shape())
    ensures exec.State() == Step(exec.Shape(), old(exec.State()), mark)
  {
    match mark
    case Start(id) =>
      var r := exec.MarkNodeRunning(id, now);
    case Finish(id) =>
      var r := exec.MarkNodeCompleted(id, output, now);
    case Fail(id) =>
      var r := exec.MarkNodeFailed(id, errMsg, now);
  }

  /** A disciplined caller takes the aggregate through exactly the run of its marks, so everything proved of
      runs holds of the aggregate. */
  method GiveAll(exec: TaskGraphExecution, marks: seq<Mark>, output: Output, errMsg: string, now: int)
    requires exec.Valid() && exec.State() == Init(exec.Shape())
    requires WellFormed(exec.Shape()) && Disciplined(exec.Shape(), marks)
    modifies exec
    ensures exec.Valid() && exec.Shape() == old(exec.Shape())
    ensures exec.State() == After(exec.Shape(), marks) && Inv(exec.Shape(), exec.State())
  {
    for i := 0 to |marks|
      invariant exec.Valid() && exec.Shape() == old(exec.Shape())
      invariant exec.State() == After(exec.Shape(), marks[..i])
    {
      RunPrefix(exec.Shape(), marks, i + 1);
      ExtendRun(exec.Shape(), marks[..i], marks[i]);
      assert marks[..i + 1] == marks[..i] + [marks[i]];
      Give(exec, marks[i], output, errMsg, now);
    }
    assert marks[..|marks|] == marks;
    RunInv(exec.Shape(), marks);
  }

  lemma PendingShrinks(g: Graph, e0: Exec, e: Exec, f: Id, visited: seq<Edge>)
    requires SkipProgress(g, e0, e, f, visited)
    ensures |PendingNodes(e)| <= |PendingNodes(e0)|
  {
    SubsetSize(PendingNodes(e), PendingNodes(e0));
  }

  lemma NothingToSkip(g: Graph, e0: Exec, e: Exec, f: Id, k: nat)
    requires k < |g.edges| && SkipProgress(g, e0, e, f, g.edges[..k])
    requires g.edges[k].from == f ==> !Is(e, g.edges[k].to, Pending)
    ensures SkipProgress(g, e0, e, f, g.edges[..k + 1])
  {
    assert g.edges[..k + 1] == g.edges[..k] + [g.edges[k]];
  }

  lemma FewerPending(e: Exec, v: Id)
    requires Is(e, v, Pending)
    ensures |PendingNodes(e.(state := e.state[v := Skipped]))| < |PendingNodes(e)|
  {
    assert PendingNodes(e.(state := e.state[v := Skipped])) == PendingNodes(e) - {v};
    assert v in PendingNodes(e);
  }

  // ---------- helpers ----------

  /** The identifiers of nodes without recorded dependencies, in node order. */
  function Independent(nodes: seq<GraphNode>): seq<Id> {
    if nodes == [] then []
    else
      var last := nodes[|nodes| - 1];
      Independent(nodes[..|nodes| - 1]) + if last.dependsOn == [] then [last.id] else []
  }

  lemma {:induction false} QueueIsRoots(nodes: seq<GraphNode>, edges: seq<Edge>)
    requires DependenciesOk(nodes, edges)
    ensures Independent(nodes) == Roots(Ids(nodes), edges)
  {
    if nodes != [] {
      var rest, last := nodes[..|nodes| - 1], nodes[|nodes| - 1];
      QueueIsRoots(rest, edges);
      assert Ids(nodes)[..|nodes| - 1] == Ids(rest);
      assert last.dependsOn != [] ==> last.dependsOn[0] in ToSet(last.dependsOn);
    }
  }

  /** Lists a set in some order. */
  method ListSet(s: set<Id>) returns (r: seq<Id>)
    ensures Distinct(r) && ToSet(r) == s
  {
    r := [];
    var rest := s;
    while rest != {}
      invariant rest <= s && Distinct(r) && ToSet(r) == s - rest
      decreases |rest|
    {
      var x :| x in rest;
      assert x !in ToSet(r);
      assert ToSet(r + [x]) == ToSet(r) + {x};
      rest := rest - {x};
      r := r + [x];
    }
  }

  function InState(nodes: seq<GraphNode>, s: NodeState): set<nat> {
    set i | 0 <= i < |nodes| && nodes[i].state == s
  }

  lemma InStateStep(nodes: seq<GraphNode>, i: nat)
    requires i < |nodes|
    ensures forall s :: |InState(nodes[..i + 1], s)| == |InState(nodes[..i], s)| + if nodes[i].state == s then 1 else 0
  {
    forall s ensures |InState(nodes[..i + 1], s)| == |InState(nodes[..i], s)| + if nodes[i].state == s then 1 else 0 {
      assert InState(nodes[..i + 1], s) == InState(nodes[..i], s) + if nodes[i].state == s then {i} else {};
    }
  }

  /** Progress accounts for every node exactly when nothing is pending, ready or running. */
  lemma {:induction false} ProgressIsTotalWhenSettled(nodes: seq<GraphNode>)
    ensures var settled := |InState(nodes, Completed)| + |InState(nodes, Failed)| + |InState(nodes, Skipped)|;
      && settled <= |nodes|
      && (settled == |nodes| <==> forall n | n in nodes :: n.state in {Completed, Failed, Skipped})
  {
    if nodes != [] {
      var k := |nodes| - 1;
      ProgressIsTotalWhenSettled(nodes[..k]);
      InStateStep(nodes, k);
      assert nodes[..k + 1] == nodes == nodes[..k] + [nodes[k]];
    }
  }
}
