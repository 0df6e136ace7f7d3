/** Directed graphs given by a list of node identifiers and a list of edges, with walks, cycles and
    the outcome of peeling off nodes whose predecessors are all peeled (Kahn's algorithm). */
module Graphs {

  type Id = string

  datatype Edge = Edge(from: Id, to: Id)

  datatype Graph = Graph(ids: seq<Id>, edges: seq<Edge>)

  function ToSet<T>(s: seq<T>): set<T> {
    set x | x in s
  }

  ghost predicate Distinct<T>(s: seq<T>) {
    forall i, j :: 0 <= i < j < |s| ==> s[i] != s[j]
  }

  /** The identifiers an edge list points at `v` from. */
  function Deps(edges: seq<Edge>, v: Id): set<Id> {
    set e | e in edges && e.to == v :: e.from
  }

  ghost predicate WellFormed(g: Graph) {
    && Distinct(g.ids)
    && forall e | e in g.edges :: e.from in g.ids && e.to in g.ids
  }

  ghost predicate HasEdge(g: Graph, u: Id, v: Id) {
    Edge(u, v) in g.edges
  }

  ghost predicate IsWalk(g: Graph, p: seq<Id>) {
    && |p| >= 1
    && forall i :: 0 <= i < |p| - 1 ==> HasEdge(g, p[i], p[i + 1])
  }

  ghost predicate IsCycle(g: Graph, p: seq<Id>) {
    |p| >= 2 && IsWalk(g, p) && p[0] == p[|p| - 1]
  }

  ghost predicate Acyclic(g: Graph) {
    forall p :: !IsCycle(g, p)
  }

  // ---------- sequences without repetition ----------

  lemma DistinctToSet<T>(s: seq<T>)
    requires Distinct(s)
    ensures |ToSet(s)| == |s|
  {
    if s != [] {
      var rest := s[..|s| - 1];
      DistinctToSet(rest);
      assert s == rest + [s[|s| - 1]];
      assert s[|s| - 1] !in ToSet(rest);
      assert ToSet(s) == ToSet(rest) + {s[|s| - 1]};
    }
  }

  lemma Pigeonhole<T>(s: seq<T>, c: set<T>)
    requires Distinct(s)
    requires forall x :: x in s ==> x in c
    ensures |s| <= |c|
  {
    DistinctToSet(s);
    SubsetSize(ToSet(s), c);
  }

  lemma SubsetSize<T>(a: set<T>, b: set<T>)
    requires a <= b
    ensures |a| <= |b|
    ensures |a| == |b| ==> a == b
  {
    assert b == a + (b - a);
    assert |b| == |a| + |b - a|;
  }

  // ---------- cycles ----------

  ghost predicate HasPredecessorIn(g: Graph, c: set<Id>, v: Id) {
    exists u :: u in c && HasEdge(g, u, v)
  }

  ghost predicate BackwardClosed(g: Graph, c: set<Id>) {
    forall v {:trigger HasPredecessorIn(g, c, v)} :: v in c ==> HasPredecessorIn(g, c, v)
  }

  /** Walking backwards inside a set in which every member has a predecessor never gets stuck. */
  lemma BackwardWalk(g: Graph, c: set<Id>, n: nat) returns (p: seq<Id>)
    requires c != {}
    requires BackwardClosed(g, c)
    ensures |p| == n + 1 && IsWalk(g, p)
    ensures forall v | v in p :: v in c
  {
    if n == 0 {
      var v :| v in c;
      p := [v];
    } else {
      var q := BackwardWalk(g, c, n - 1);
      assert HasPredecessorIn(g, c, q[0]);
      var u :| u in c && HasEdge(g, u, q[0]);
      p := [u] + q;
    }
  }

  /** A non-empty set in which every member has a predecessor contains a cycle. */
  lemma BackwardClosedSetHasCycle(g: Graph, c: set<Id>) returns (cycle: seq<Id>)
    requires c != {}
    requires BackwardClosed(g, c)
    ensures IsCycle(g, cycle) && cycle[0] in c
    ensures !Acyclic(g)
  {
    var p := BackwardWalk(g, c, |c|);
    if Distinct(p) {
      Pigeonhole(p, c);
    }
    var i, j :| 0 <= i < j < |p| && p[i] == p[j];
    cycle := p[i..j + 1];
    forall k | 0 <= k < |cycle| - 1 ensures HasEdge(g, cycle[k], cycle[k + 1]) {
      assert HasEdge(g, p[i + k], p[i + k + 1]);
    }
    assert IsCycle(g, cycle);
  }

  // ---------- peeling ----------

  /** Everything Kahn's in-degree table has an entry for: the nodes and all edge targets. */
  function Universe(g: Graph): set<Id> {
    ToSet(g.ids) + set e | e in g.edges :: e.to
  }

  /** Every edge into a listed identifier starts at an earlier one. */
  ghost predicate Respects(order: seq<Id>, edges: seq<Edge>) {
    forall j, e | 0 <= j < |order| && e in edges && e.to == order[j] :: e.from in order[..j]
  }

  /** Some edge into `v` starts outside the list. */
  ghost predicate Blocked(order: seq<Id>, edges: seq<Edge>, v: Id) {
    exists e :: e in edges && e.to == v && e.from !in order
  }

  /** `order` peels `g`: it is repetition-free, puts every edge's source first, and nothing left
      over could be peeled next. */
  ghost predicate Peels(order: seq<Id>, g: Graph) {
    && Distinct(order)
    && (forall v | v in order :: v in Universe(g))
    && Respects(order, g.edges)
    && forall v {:trigger Blocked(order, g.edges, v)} :: v in Universe(g) && v !in order ==> Blocked(order, g.edges, v)
  }

  /** Which identifiers get peeled does not depend on the order chosen among the candidates. */
  lemma {:induction false} PeeledSubset(g: Graph, a: seq<Id>, b: seq<Id>, n: nat)
    requires Peels(a, g) && Peels(b, g)
    requires n <= |a|
    ensures forall v | v in a[..n] :: v in b
  {
    if n > 0 {
      PeeledSubset(g, a, b, n - 1);
      var v := a[n - 1];
      assert v in b || Blocked(b, g.edges, v);
      assert a[..n] == a[..n - 1] + [v];
    }
  }

  lemma PeeledSetIsUnique(g: Graph, a: seq<Id>, b: seq<Id>)
    requires Peels(a, g) && Peels(b, g)
    ensures ToSet(a) == ToSet(b) && |a| == |b|
  {
    PeeledSubset(g, a, b, |a|);
    PeeledSubset(g, b, a, |b|);
    assert a[..|a|] == a && b[..|b|] == b;
    DistinctToSet(a);
    DistinctToSet(b);
  }

  /** Along a walk that ends in a listed identifier, positions strictly increase. */
  lemma {:induction false} WalkIsOrdered(g: Graph, order: seq<Id>, p: seq<Id>, j: nat)
    requires Respects(order, g.edges)
    requires IsWalk(g, p) && j < |order| && p[|p| - 1] == order[j]
    ensures exists i :: 0 <= i <= j - (|p| - 1) && order[i] == p[0]
    decreases |p|
  {
    if |p| == 1 {
      assert order[j] == p[0];
    } else {
      var n := |p| - 2;
      assert HasEdge(g, p[n], p[n + 1]);
      assert Edge(p[n], p[n + 1]).from in order[..j];
      var i :| 0 <= i < j && order[i] == p[n];
      WalkIsOrdered(g, order, p[..n + 1], i);
    }
  }

  /** No listed identifier lies on a cycle. */
  lemma {:induction false} CycleIsNeverPeeled(g: Graph, order: seq<Id>, p: seq<Id>)
    requires Peels(order, g) && IsCycle(g, p)
    ensures p[0] !in order
  {
    if p[0] in order {
      var j :| 0 <= j < |order| && order[j] == p[0];
      WalkIsOrdered(g, order, p, j);
    }
  }

  // ---------- exactly which identifiers get peeled ----------

  /** A walk that starts on a cycle, or at an identifier the in-degree table has no entry for. */
  ghost predicate HoldingWalk(g: Graph, p: seq<Id>) {
    IsWalk(g, p) && (p[0] !in Universe(g) || exists c :: IsCycle(g, c) && c[0] == p[0])
  }

  /** Held back forever: such a walk leads to `v`. */
  ghost predicate Held(g: Graph, v: Id) {
    exists p :: HoldingWalk(g, p) && p[|p| - 1] == v
  }

  lemma EdgesHold(g: Graph, u: Id, v: Id)
    requires HasEdge(g, u, v) && (u !in Universe(g) || Held(g, u))
    ensures Held(g, v)
  {
    if u !in Universe(g) {
      assert HoldingWalk(g, [u, v]);
    } else {
      var p :| HoldingWalk(g, p) && p[|p| - 1] == u;
      assert HoldingWalk(g, p + [v]);
    }
  }

  /** For any graph: an identifier is peeled exactly when it has a table entry and nothing holds it back. */
  lemma PeeledExactlyWhenFree(g: Graph, order: seq<Id>, v: Id)
    requires Peels(order, g)
    ensures v in order <==> v in Universe(g) && !Held(g, v)
  {
    if v in order && Held(g, v) {
      var p :| HoldingWalk(g, p) && p[|p| - 1] == v;
      HeldWalkIsNeverPeeled(g, order, p);
    }
    if v in Universe(g) && !Held(g, v) && v !in order {
      FreeIsPeeled(g, order, v);
    }
  }

  lemma HeldWalkIsNeverPeeled(g: Graph, order: seq<Id>, p: seq<Id>)
    requires Peels(order, g) && HoldingWalk(g, p)
    ensures p[|p| - 1] !in order
  {
    if p[|p| - 1] in order {
      var j :| 0 <= j < |order| && order[j] == p[|p| - 1];
      WalkIsOrdered(g, order, p, j);
      assert p[0] in order;
      if c :| IsCycle(g, c) && c[0] == p[0] {
        CycleIsNeverPeeled(g, order, c);
      }
    }
  }

  /** The free identifiers left over would each have a predecessor among themselves, hence a cycle. */
  lemma FreeIsPeeled(g: Graph, order: seq<Id>, v: Id)
    requires Peels(order, g) && v in Universe(g) && !Held(g, v)
    ensures v in order
  {
    var rest := set u | u in Universe(g) && u !in order && !Held(g, u);
    if v !in order {
      forall u | u in rest ensures HasPredecessorIn(g, rest, u) {
        assert Blocked(order, g.edges, u);
        var e :| e in g.edges && e.to == u && e.from !in order;
        assert e == Edge(e.from, u) && HasEdge(g, e.from, u);
        if e.from !in Universe(g) || Held(g, e.from) {
          EdgesHold(g, e.from, u);
        }
      }
      assert v in rest;
      var c := BackwardClosedSetHasCycle(g, rest);
      CyclesHold(g, c);
    }
  }

  lemma CyclesHold(g: Graph, c: seq<Id>)
    requires IsCycle(g, c)
    ensures Held(g, c[0])
  {
    assert HoldingWalk(g, [c[0]]);
  }

  /** The nodes the sort leaves out, and the identifiers it lists that are no nodes. */
  ghost function LeftOut(g: Graph): set<Id> {
    set v | v in g.ids && Held(g, v)
  }

  ghost function Strangers(g: Graph): set<Id> {
    set v | v in Universe(g) && v !in g.ids && !Held(g, v)
  }

  /** With distinct identifiers, whatever the edges: the length test succeeds exactly when as many unknown
      targets are listed as nodes are left out. */
  lemma LengthTestIsExact(g: Graph, order: seq<Id>)
    requires Distinct(g.ids) && Peels(order, g)
    ensures |order| == |g.ids| - |LeftOut(g)| + |Strangers(g)|
    ensures |order| == |g.ids| <==> |Strangers(g)| == |LeftOut(g)|
  {
    DistinctToSet(order);
    DistinctToSet(g.ids);
    var ids, out, strangers := ToSet(g.ids), LeftOut(g), Strangers(g);
    forall v ensures v in ToSet(order) <==> v in (ids - out) + strangers {
      PeeledExactlyWhenFree(g, order, v);
    }
    assert ToSet(order) == (ids - out) + strangers;
    assert (ids - out) !! strangers && out <= ids;
    SubsetSize(out, ids);
  }

  /** When edge sources are known, an acyclic graph is peeled completely. */
  lemma AcyclicIsPeeledCompletely(g: Graph, order: seq<Id>)
    requires Peels(order, g) && Acyclic(g)
    requires forall e | e in g.edges :: e.from in g.ids
    ensures ToSet(order) == Universe(g)
  {
    assert ToSet(order) <= Universe(g);
    var rest := Universe(g) - ToSet(order);
    if rest != {} {
      forall v | v in rest ensures HasPredecessorIn(g, rest, v) {
        assert Blocked(order, g.edges, v);
        var e :| e in g.edges && e.to == v && e.from !in order;
        assert e == Edge(e.from, v);
        assert e.from in rest && HasEdge(g, e.from, v);
      }
      var _ := BackwardClosedSetHasCycle(g, rest);
    }
    assert forall v | v in Universe(g) :: v in rest || v in ToSet(order);
  }

  /** The length test decides acyclicity: sound and complete cycle detection on well-formed graphs. */
  lemma PeelingDecidesAcyclicity(g: Graph, order: seq<Id>)
    requires WellFormed(g) && Peels(order, g)
    ensures |order| == |g.ids| <==> Acyclic(g)
    ensures Acyclic(g) ==> ToSet(order) == ToSet(g.ids)
  {
    assert Universe(g) == ToSet(g.ids);
    DistinctToSet(order);
    DistinctToSet(g.ids);
    SubsetSize(ToSet(order), ToSet(g.ids));
    if Acyclic(g) {
      AcyclicIsPeeledCompletely(g, order);
    } else {
      var p :| IsCycle(g, p);
      CycleIsNeverPeeled(g, order, p);
      CycleStartsAtANode(g, p);
      assert p[0] in ToSet(g.ids) && p[0] !in ToSet(order);
    }
  }

  lemma CycleStartsAtANode(g: Graph, p: seq<Id>)
    requires WellFormed(g) && IsCycle(g, p)
    ensures p[0] in g.ids
  {
    assert HasEdge(g, p[0], p[1]);
    assert Edge(p[0], p[1]).from in g.ids;
  }

  /** With distinct identifiers and known sources, an acyclic graph passes the length test exactly
      when every edge target is a node: one edge to an unknown target turns it into a false alarm. */
  lemma UnknownTargetFailsTheLengthTest(g: Graph, order: seq<Id>)
    requires Distinct(g.ids) && Peels(order, g) && Acyclic(g)
    requires forall e | e in g.edges :: e.from in g.ids
    ensures |order| == |g.ids| <==> forall e | e in g.edges :: e.to in g.ids
  {
    AcyclicIsPeeledCompletely(g, order);
    DistinctToSet(order);
    DistinctToSet(g.ids);
    SubsetSize(ToSet(g.ids), Universe(g));
    if |order| == |g.ids| {
      forall e | e in g.edges ensures e.to in g.ids {
        assert e.to in Universe(g);
      }
    }
    assert (forall e | e in g.edges :: e.to in g.ids) ==> Universe(g) == ToSet(g.ids);
  }

  /** ... and on a cyclic graph, where nodes are left out, an unknown target can make the length test pass. */
  lemma UnknownTargetCanHideACycle()
    ensures exists g: Graph, order: seq<Id> :: Distinct(g.ids) && Peels(order, g) && |order| == |g.ids| && !Acyclic(g)
  {
    var loop, exit := Edge("a", "a"), Edge("b", "x");
    var g := Graph(["a", "b"], [loop, exit]);
    var order := ["b", "x"];
    assert loop in g.edges && exit in g.edges;
    assert forall e | e in g.edges :: e == loop || e == exit;
    assert Universe(g) == {"a", "b", "x"};
    assert order[..1] == ["b"];
    assert Peels(order, g);
    assert IsCycle(g, ["a", "a"]);
  }
}
