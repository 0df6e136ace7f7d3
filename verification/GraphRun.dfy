/** The state machine of one task-graph execution as a value: node states, completed set and ready
    queue, the three marks that move it, and what every disciplined run of marks keeps. */
module GraphRun {
  import opened Graphs

  datatype NodeState = Pending | Ready | Running | Completed | Failed | Skipped

  datatype Exec = Exec(state: map<Id, NodeState>, completed: set<Id>, queue: seq<Id>)

  datatype Mark = Start(id: Id) | Finish(id: Id) | Fail(id: Id)

  predicate Is(e: Exec, v: Id, s: NodeState) {
    v in e.state && e.state[v] == s
  }

  /** The node was released at some point: it is or has been in the ready queue. */
  predicate Released(s: NodeState) {
    s in {Ready, Running, Completed, Failed}
  }

  predicate Marked(s: NodeState) {
    s in {Running, Completed, Failed}
  }

  // ---------- the steps ----------

  function Roots(ids: seq<Id>, edges: seq<Edge>): seq<Id> {
    if ids == [] then []
    else
      var v := ids[|ids| - 1];
      Roots(ids[..|ids| - 1], edges) + if Deps(edges, v) == {} then [v] else []
  }

  function Init(g: Graph): Exec {
    Exec(map v | v in g.ids :: if Deps(g.edges, v) == {} then Ready else Pending, {}, Roots(g.ids, g.edges))
  }

  predicate Releasable(edges: seq<Edge>, e: Exec, v: Id) {
    Is(e, v, Pending) && Deps(edges, v) <= e.completed
  }

  /** The effect of visiting the listed edges, in order, after `c` has completed. */
  function Release(edges: seq<Edge>, e: Exec, c: Id, visited: seq<Edge>): Exec {
    if visited == [] then e
    else
      var before := Release(edges, e, c, visited[..|visited| - 1]);
      var edge := visited[|visited| - 1];
      if edge.from == c && Releasable(edges, before, edge.to) then
        before.(state := before.state[edge.to := Ready], queue := before.queue + [edge.to])
      else before
  }

  ghost predicate PendingWalk(g: Graph, e: Exec, p: seq<Id>) {
    && |p| >= 2
    && IsWalk(g, p)
    && forall i :: 1 <= i < |p| ==> Is(e, p[i], Pending)
  }

  /** `v` is reached from `f` over pending nodes only. */
  ghost predicate PendingReach(g: Graph, e: Exec, f: Id, v: Id) {
    exists p :: PendingWalk(g, e, p) && p[0] == f && p[|p| - 1] == v
  }

  ghost function SkipFrom(g: Graph, e: Exec, f: Id): Exec {
    e.(state := map v | v in e.state :: if PendingReach(g, e, f, v) then Skipped else e.state[v])
  }

  ghost function Step(g: Graph, e: Exec, m: Mark): Exec {
    match m
    case Start(v) => e.(state := e.state[v := Running])
    case Finish(v) => Release(g.edges, e.(state := e.state[v := Completed], completed := e.completed + {v}), v, g.edges)
    case Fail(v) => SkipFrom(g, e.(state := e.state[v := Failed]), v)
  }

  /** A node is started when it is ready, and finished or failed while it is ready or running. */
  predicate Enabled(e: Exec, m: Mark) {
    Is(e, m.id, Ready) || (!m.Start? && Is(e, m.id, Running))
  }

  ghost function After(g: Graph, marks: seq<Mark>): Exec {
    if marks == [] then Init(g) else Step(g, After(g, marks[..|marks| - 1]), marks[|marks| - 1])
  }

  ghost predicate Disciplined(g: Graph, marks: seq<Mark>) {
    marks == [] ||
    (Disciplined(g, marks[..|marks| - 1]) && Enabled(After(g, marks[..|marks| - 1]), marks[|marks| - 1]))
  }

  /** One more mark extends a disciplined run exactly when it is enabled where the run ended. */
  lemma ExtendRun(g: Graph, marks: seq<Mark>, m: Mark)
    ensures After(g, marks + [m]) == Step(g, After(g, marks), m)
    ensures Disciplined(g, marks + [m]) <==> Disciplined(g, marks) && Enabled(After(g, marks), m)
  {
    assert (marks + [m])[..|marks|] == marks;
  }

  lemma {:induction false} RunPrefix(g: Graph, marks: seq<Mark>, n: nat)
    requires Disciplined(g, marks) && n <= |marks|
    ensures Disciplined(g, marks[..n])
  {
    if n < |marks| {
      var rest := marks[..|marks| - 1];
      RunPrefix(g, rest, n);
      assert rest[..n] == marks[..n];
    } else {
      assert marks[..n] == marks;
    }
  }

  // ---------- what each step does, independent of visiting order ----------

  lemma {:induction false} RootsAreTheNodesWithoutDependencies(ids: seq<Id>, edges: seq<Edge>)
    requires Distinct(ids)
    ensures var r := Roots(ids, edges);
      Distinct(r) && forall v :: v in r <==> v in ids && Deps(edges, v) == {}
  {
    if ids != [] {
      var rest := ids[..|ids| - 1];
      RootsAreTheNodesWithoutDependencies(rest, edges);
      assert ids == rest + [ids[|ids| - 1]];
      assert ids[|ids| - 1] !in rest;
    }
  }

  /** Visiting edges releases, once each, exactly the pending successors of `c` whose dependencies
      are all completed. */
  lemma {:induction false} ReleaseIsExact(edges: seq<Edge>, e: Exec, c: Id, visited: seq<Edge>)
    requires Distinct(e.queue) && forall v | v in e.queue :: !Is(e, v, Pending)
    ensures var r := Release(edges, e, c, visited);
      && r.completed == e.completed && r.state.Keys == e.state.Keys
      && (forall v | v in e.state :: r.state[v] ==
            if Releasable(edges, e, v) && Edge(c, v) in visited then Ready else e.state[v])
      && Distinct(r.queue)
      && forall v :: v in r.queue <==> v in e.queue || (Releasable(edges, e, v) && Edge(c, v) in visited)
  {
    if visited != [] {
      var rest, last := visited[..|visited| - 1], visited[|visited| - 1];
      ReleaseIsExact(edges, e, c, rest);
      assert visited == rest + [last];
      assert last.from == c ==> last == Edge(c, last.to);
    }
  }

  /** The nodes are in the order of their first edges from `c`. */
  ghost predicate InEdgeOrder(nodes: seq<Id>, c: Id, visited: seq<Edge>) {
    forall i, j | 0 <= i < j < |nodes| :: FirstSeen(c, nodes[i], nodes[j], visited)
  }

  ghost predicate FirstSeen(c: Id, v: Id, w: Id, visited: seq<Edge>) {
    exists k :: 0 <= k < |visited| && visited[k] == Edge(c, v) && Edge(c, w) !in visited[..k + 1]
  }

  lemma StillFirstSeen(c: Id, v: Id, w: Id, visited: seq<Edge>, edge: Edge)
    requires FirstSeen(c, v, w, visited)
    ensures FirstSeen(c, v, w, visited + [edge])
  {
    var k :| 0 <= k < |visited| && visited[k] == Edge(c, v) && Edge(c, w) !in visited[..k + 1];
    assert (visited + [edge])[..k + 1] == visited[..k + 1];
    assert (visited + [edge])[k] == Edge(c, v);
  }

  lemma NewlySeen(c: Id, v: Id, w: Id, visited: seq<Edge>, edge: Edge)
    requires Edge(c, v) in visited && Edge(c, w) !in visited
    ensures FirstSeen(c, v, w, visited + [edge])
  {
    var k :| 0 <= k < |visited| && visited[k] == Edge(c, v);
    assert (visited + [edge])[..k + 1] == visited[..k + 1];
    assert (visited + [edge])[k] == Edge(c, v);
  }

  /** What is released goes to the end of the queue, in the order of the edges. */
  lemma {:induction false} ReleaseAppends(edges: seq<Edge>, e: Exec, c: Id, visited: seq<Edge>)
    requires Distinct(e.queue) && forall v | v in e.queue :: !Is(e, v, Pending)
    ensures var r := Release(edges, e, c, visited);
      e.queue <= r.queue && InEdgeOrder(r.queue[|e.queue|..], c, visited)
  {
    if visited != [] {
      var rest, last := visited[..|visited| - 1], visited[|visited| - 1];
      ReleaseAppends(edges, e, c, rest);
      ReleaseIsExact(edges, e, c, rest);
      assert visited == rest + [last];
      OneMoreInOrder(edges, e, c, rest, last);
    }
  }

  lemma OneMoreInOrder(edges: seq<Edge>, e: Exec, c: Id, rest: seq<Edge>, last: Edge)
    requires Distinct(e.queue) && forall v | v in e.queue :: !Is(e, v, Pending)
    requires var r := Release(edges, e, c, rest); e.queue <= r.queue && InEdgeOrder(r.queue[|e.queue|..], c, rest)
    ensures var r := Release(edges, e, c, rest + [last]);
      e.queue <= r.queue && InEdgeOrder(r.queue[|e.queue|..], c, rest + [last])
  {
    var before, r := Release(edges, e, c, rest), Release(edges, e, c, rest + [last]);
    var n := |e.queue|;
    var ks, xs := before.queue[n..], r.queue[n..];
    assert (rest + [last])[..|rest|] == rest;
    ReleaseIsExact(edges, e, c, rest);
    forall i, j | 0 <= i < j < |xs| ensures FirstSeen(c, xs[i], xs[j], rest + [last]) {
      assert before.queue[n + i] == ks[i] == xs[i];
      if j < |ks| {
        assert xs[j] == ks[j];
        StillFirstSeen(c, xs[i], xs[j], rest, last);
      } else {
        assert xs[i] !in e.queue;
        NewlySeen(c, xs[i], xs[j], rest, last);
      }
    }
  }

  lemma Regroup(a: seq<Id>, b: seq<Id>, c: seq<Id>)
    ensures a + b + c == a + (b + c)
  {
  }

  /** The first nodes released stand in the queue in the order of the nodes. */
  lemma {:induction false} RootsInOrder(edges: seq<Edge>, a: seq<Id>, v: Id, b: seq<Id>)
    ensures Roots(a + [v] + b, edges) ==
            Roots(a, edges) + (if Deps(edges, v) == {} then [v] else []) + Roots(b, edges)
  {
    var s := a + [v] + b;
    if b == [] {
      assert s[..|a|] == a && s[|a|] == v;
      assert Roots(b, edges) == [];
    } else {
      var n := |b| - 1;
      RootsInOrder(edges, a, v, b[..n]);
      assert s[..|s| - 1] == a + [v] + b[..n] && s[|s| - 1] == b[n];
      Regroup(Roots(a, edges) + (if Deps(edges, v) == {} then [v] else []), Roots(b[..n], edges),
              if Deps(edges, b[n]) == {} then [b[n]] else []);
    }
  }

  lemma ExtendPendingWalk(g: Graph, e: Exec, f: Id, u: Id, v: Id)
    requires HasEdge(g, u, v) && Is(e, v, Pending)
    requires u == f || PendingReach(g, e, f, u)
    ensures PendingReach(g, e, f, v)
  {
    if u == f {
      assert PendingWalk(g, e, [f, v]);
    } else {
      var p :| PendingWalk(g, e, p) && p[0] == f && p[|p| - 1] == u;
      assert PendingWalk(g, e, p + [v]);
    }
  }

  // ---------- the invariant of disciplined runs ----------

  ghost predicate Reaches(g: Graph, u: Id, v: Id) {
    exists p :: |p| >= 2 && IsWalk(g, p) && p[0] == u && p[|p| - 1] == v
  }

  ghost predicate DownstreamOfFailure(g: Graph, e: Exec, v: Id) {
    exists f :: Is(e, f, Failed) && Reaches(g, f, v)
  }

  ghost predicate NodeInv(g: Graph, e: Exec, v: Id)
    requires v in e.state
  {
    && (v in e.completed <==> e.state[v] == Completed)
    && (v in e.queue <==> Released(e.state[v]))
    && (Released(e.state[v]) ==> Deps(g.edges, v) <= e.completed)
    && (e.state[v] == Pending ==>
          && !(Deps(g.edges, v) <= e.completed)
          && forall d | d in Deps(g.edges, v) :: !Is(e, d, Failed) && !Is(e, d, Skipped))
    && (e.state[v] == Skipped ==> DownstreamOfFailure(g, e, v))
  }

  ghost predicate Inv(g: Graph, e: Exec) {
    && e.state.Keys == ToSet(g.ids)
    && e.completed <= e.state.Keys
    && Distinct(e.queue) && ToSet(e.queue) <= e.state.Keys
    && forall v {:trigger NodeInv(g, e, v)} :: v in e.state ==> NodeInv(g, e, v)
  }

  lemma InitInv(g: Graph)
    requires WellFormed(g)
    ensures Inv(g, Init(g))
  {
    RootsAreTheNodesWithoutDependencies(g.ids, g.edges);
    var e := Init(g);
    forall v | v in e.state ensures NodeInv(g, e, v) {
      if Deps(g.edges, v) != {} {
        assert !(Deps(g.edges, v) <= {});
      }
    }
    assert forall v | v in e.queue :: v in g.ids;
  }

  lemma StartInv(g: Graph, e: Exec, v: Id)
    requires Inv(g, e) && Is(e, v, Ready)
    ensures Inv(g, Step(g, e, Start(v)))
  {
    var e' := Step(g, e, Start(v));
    forall w | w in e'.state ensures NodeInv(g, e', w) {
      assert NodeInv(g, e, w);
      FailuresPersist(g, e, e', w);
    }
  }

  lemma FailuresPersist(g: Graph, e: Exec, e': Exec, v: Id)
    requires forall w | Is(e, w, Failed) :: Is(e', w, Failed)
    ensures DownstreamOfFailure(g, e, v) ==> DownstreamOfFailure(g, e', v)
  {
  }

  /** Finishing `c` completes it and readies, once each, the pending successors whose last open
      dependency it was, behind the queue as it was and in the order of the edges; nothing else changes state. */
  lemma FinishIsExact(g: Graph, e: Exec, c: Id)
    requires Inv(g, e) && Enabled(e, Finish(c))
    ensures var e' := Step(g, e, Finish(c));
      && e'.completed == e.completed + {c} && e'.state.Keys == e.state.Keys
      && e'.state[c] == Completed
      && (forall v | v in e.state && v != c :: e'.state[v] == if v in Freed(g, e, c) then Ready else e.state[v])
      && Distinct(e'.queue) && (forall v :: v in e'.queue <==> v in e.queue || v in Freed(g, e, c))
      && e.queue <= e'.queue && InEdgeOrder(e'.queue[|e.queue|..], c, g.edges)
  {
    var mid := e.(state := e.state[c := Completed], completed := e.completed + {c});
    forall v | v in mid.queue ensures !Is(mid, v, Pending) {
      assert NodeInv(g, e, v);
    }
    ReleaseIsExact(g.edges, mid, c, g.edges);
    ReleaseAppends(g.edges, mid, c, g.edges);
  }

  /** The pending successors of `c` whose dependencies are all completed once `c` is. */
  ghost function Freed(g: Graph, e: Exec, c: Id): set<Id> {
    set v | v in e.state && v != c && e.state[v] == Pending && HasEdge(g, c, v) && Deps(g.edges, v) <= e.completed + {c}
  }

  /** Failing `f` changes, besides `f`, only pending nodes, which become skipped. */
  lemma FailTouchesPendingOnly(g: Graph, e: Exec, f: Id)
    requires f in e.state
    ensures var e' := Step(g, e, Fail(f));
      && e'.state.Keys == e.state.Keys && e'.completed == e.completed && e'.queue == e.queue
      && forall v | v in e.state && v != f ::
           e'.state[v] == e.state[v] || (e.state[v] == Pending && e'.state[v] == Skipped)
  {
    var mid := e.(state := e.state[f := Failed]);
    forall v | PendingReach(g, mid, f, v) ensures Is(mid, v, Pending) {
    }
  }

  lemma FailedStaysFailed(g: Graph, e: Exec, f: Id)
    requires f in e.state
    ensures Step(g, e, Fail(f)).state[f] == Failed
  {
    var mid := e.(state := e.state[f := Failed]);
    assert !PendingReach(g, mid, f, f);
  }

  lemma FinishInv(g: Graph, e: Exec, c: Id)
    requires Inv(g, e) && Enabled(e, Finish(c))
    ensures Inv(g, Step(g, e, Finish(c)))
  {
    var e' := Step(g, e, Finish(c));
    assert NodeInv(g, e, c);
    FinishIsExact(g, e, c);
    forall w | w in e'.state ensures NodeInv(g, e', w) {
      assert NodeInv(g, e, w);
      FailuresPersist(g, e, e', w);
      if c in Deps(g.edges, w) {
        var edge :| edge in g.edges && edge.to == w && edge.from == c;
        assert edge == Edge(c, w);
      }
    }
  }

  lemma FailInv(g: Graph, e: Exec, f: Id)
    requires Inv(g, e) && Enabled(e, Fail(f))
    ensures Inv(g, Step(g, e, Fail(f)))
  {
    var mid := e.(state := e.state[f := Failed]);
    var e' := Step(g, e, Fail(f));
    assert NodeInv(g, e, f);
    assert !Is(mid, f, Pending) && !PendingReach(g, mid, f, f);
    forall w | w in e'.state ensures NodeInv(g, e', w) {
      assert NodeInv(g, e, w);
      FailuresPersist(g, e, e', w);
      if e'.state[w] == Pending {
        forall d | d in Deps(g.edges, w) ensures !Is(e', d, Failed) && !Is(e', d, Skipped) {
          var edge :| edge in g.edges && edge.to == w && edge.from == d;
          assert edge == Edge(d, w) && HasEdge(g, d, w);
          if d == f || PendingReach(g, mid, f, d) {
            ExtendPendingWalk(g, mid, f, d, w);
          }
        }
      } else if PendingReach(g, mid, f, w) {
        assert Reaches(g, f, w) && Is(e', f, Failed);
      }
    }
  }

  /** What every disciplined run keeps. */
  lemma {:induction false} RunInv(g: Graph, marks: seq<Mark>)
    requires WellFormed(g) && Disciplined(g, marks)
    ensures Inv(g, After(g, marks))
  {
    if marks == [] {
      InitInv(g);
    } else {
      var rest := marks[..|marks| - 1];
      RunInv(g, rest);
      match marks[|marks| - 1]
      case Start(v) => StartInv(g, After(g, rest), v);
      case Finish(v) => FinishInv(g, After(g, rest), v);
      case Fail(v) => FailInv(g, After(g, rest), v);
    }
  }

  // ---------- the skipped set ----------

  /** Everything on a walk after a failed or skipped node is skipped. */
  lemma {:induction false} FailureSpreads(g: Graph, e: Exec, p: seq<Id>)
    requires WellFormed(g) && Inv(g, e) && |p| >= 2 && IsWalk(g, p)
    requires Is(e, p[0], Failed) || Is(e, p[0], Skipped)
    ensures Is(e, p[|p| - 1], Skipped)
    decreases |p|
  {
    assert HasEdge(g, p[0], p[1]);
    assert Edge(p[0], p[1]).to in g.ids && p[0] in Deps(g.edges, p[1]);
    assert NodeInv(g, e, p[0]) && NodeInv(g, e, p[1]);
    assert Is(e, p[1], Skipped);
    if |p| > 2 {
      FailureSpreads(g, e, p[1..]);
    }
  }

  /** In every reachable state a node is skipped exactly when some failed node reaches it. */
  lemma SkippedExactlyDownstreamOfFailure(g: Graph, marks: seq<Mark>, v: Id)
    requires WellFormed(g) && Disciplined(g, marks)
    ensures Is(After(g, marks), v, Skipped) <==> DownstreamOfFailure(g, After(g, marks), v)
  {
    var e := After(g, marks);
    RunInv(g, marks);
    if Is(e, v, Skipped) {
      assert NodeInv(g, e, v);
    }
    if DownstreamOfFailure(g, e, v) {
      var f :| Is(e, f, Failed) && Reaches(g, f, v);
      var p :| |p| >= 2 && IsWalk(g, p) && p[0] == f && p[|p| - 1] == v;
      FailureSpreads(g, e, p);
    }
  }

  // ---------- the ready queue ----------

  function ReadyNodes(e: Exec, queue: seq<Id>): seq<Id> {
    if queue == [] then []
    else
      var v := queue[|queue| - 1];
      ReadyNodes(e, queue[..|queue| - 1]) + if Is(e, v, Ready) then [v] else []
  }

  lemma {:induction false} ReadyNodesFilter(e: Exec, queue: seq<Id>)
    requires Distinct(queue)
    ensures var r := ReadyNodes(e, queue);
      Distinct(r) && forall v :: v in r <==> v in queue && Is(e, v, Ready)
  {
    if queue != [] {
      var rest, last := queue[..|queue| - 1], queue[|queue| - 1];
      ReadyNodesFilter(e, rest);
      assert queue == rest + [last] && last !in rest;
    }
  }

  /** The ready nodes come in the order of the queue. */
  lemma {:induction false} ReadyNodesInOrder(e: Exec, a: seq<Id>, v: Id, b: seq<Id>)
    ensures ReadyNodes(e, a + [v] + b) ==
            ReadyNodes(e, a) + (if Is(e, v, Ready) then [v] else []) + ReadyNodes(e, b)
  {
    var s := a + [v] + b;
    if b == [] {
      assert s[..|a|] == a && s[|a|] == v;
      assert ReadyNodes(e, b) == [];
    } else {
      var n := |b| - 1;
      ReadyNodesInOrder(e, a, v, b[..n]);
      assert s[..|s| - 1] == a + [v] + b[..n] && s[|s| - 1] == b[n];
      Regroup(ReadyNodes(e, a) + (if Is(e, v, Ready) then [v] else []), ReadyNodes(e, b[..n]),
              if Is(e, b[n], Ready) then [b[n]] else []);
    }
  }

  function MarkedIds(marks: seq<Mark>): set<Id> {
    set m | m in marks :: m.id
  }

  /** One step marks exactly its own node. */
  lemma StepMarksItsNode(g: Graph, e: Exec, m: Mark, v: Id)
    requires Inv(g, e) && Enabled(e, m)
    ensures var e' := Step(g, e, m);
      v in e'.state && Marked(e'.state[v]) <==> v == m.id || (v in e.state && Marked(e.state[v]))
  {
    if m.Finish? {
      FinishIsExact(g, e, m.id);
    } else if m.Fail? {
      FailTouchesPendingOnly(g, e, m.id);
      FailedStaysFailed(g, e, m.id);
    }
  }

  lemma {:induction false} MarkedIdsMatchStates(g: Graph, marks: seq<Mark>, v: Id)
    requires WellFormed(g) && Disciplined(g, marks)
    ensures v in MarkedIds(marks) <==> v in After(g, marks).state && Marked(After(g, marks).state[v])
  {
    if marks != [] {
      var rest, m := marks[..|marks| - 1], marks[|marks| - 1];
      MarkedIdsMatchStates(g, rest, v);
      RunInv(g, rest);
      StepMarksItsNode(g, After(g, rest), m, v);
      assert marks == rest + [m];
      assert MarkedIds(marks) == MarkedIds(rest) + {m.id};
    }
  }

  /** The incrementally maintained queue agrees with recomputing readiness from the completed set
      and the marks given so far. */
  lemma ReadyQueueAgreesWithRecomputation(g: Graph, marks: seq<Mark>)
    requires WellFormed(g) && Disciplined(g, marks)
    ensures var e := After(g, marks); var r := ReadyNodes(e, e.queue);
      && Distinct(r)
      && forall v :: v in r <==> v in g.ids && Deps(g.edges, v) <= e.completed && v !in MarkedIds(marks)
  {
    var e := After(g, marks);
    RunInv(g, marks);
    ReadyNodesFilter(e, e.queue);
    forall v | v in g.ids
      ensures Is(e, v, Ready) <==> Deps(g.edges, v) <= e.completed && v !in MarkedIds(marks)
    {
      assert NodeInv(g, e, v);
      MarkedIdsMatchStates(g, marks, v);
      if Is(e, v, Skipped) && Deps(g.edges, v) <= e.completed {
        SkippedHasUnfinishedDependency(g, e, v);
      }
    }
    forall v | v in e.queue ensures v in g.ids {
      assert v in ToSet(e.queue);
    }
    forall v | v in g.ids && Is(e, v, Ready) ensures v in e.queue {
      assert NodeInv(g, e, v);
    }
  }

  lemma SkippedHasUnfinishedDependency(g: Graph, e: Exec, v: Id)
    requires WellFormed(g) && Inv(g, e) && Is(e, v, Skipped)
    ensures !(Deps(g.edges, v) <= e.completed)
  {
    assert NodeInv(g, e, v);
    var f :| Is(e, f, Failed) && Reaches(g, f, v);
    var p :| |p| >= 2 && IsWalk(g, p) && p[0] == f && p[|p| - 1] == v;
    var d := p[|p| - 2];
    assert HasEdge(g, d, v) && d in Deps(g.edges, v);
    if |p| > 2 {
      FailureSpreads(g, e, p[..|p| - 1]);
    }
    assert NodeInv(g, e, d);
  }

  /** Wherever the invariant holds, counting the completed set tells whether every node is completed. */
  lemma CountTellsCompletion(g: Graph, e: Exec)
    requires WellFormed(g) && Inv(g, e)
    ensures |e.completed| == |g.ids| <==> forall v | v in g.ids :: Is(e, v, Completed)
  {
    DistinctToSet(g.ids);
    SubsetSize(e.completed, ToSet(g.ids));
    forall v | v in g.ids ensures v in e.completed <==> Is(e, v, Completed) {
      assert NodeInv(g, e, v);
    }
    if forall v | v in g.ids :: Is(e, v, Completed) {
      assert e.completed == ToSet(g.ids);
    } else {
      var v :| v in g.ids && !Is(e, v, Completed);
      assert v in ToSet(g.ids) && v !in e.completed;
    }
  }

  /** The completion test counts the completed set; it holds exactly when every node is completed. */
  lemma CompletionTestIsExact(g: Graph, marks: seq<Mark>)
    requires WellFormed(g) && Disciplined(g, marks)
    ensures var e := After(g, marks);
      |e.completed| == |g.ids| <==> forall v | v in g.ids :: Is(e, v, Completed)
  {
    RunInv(g, marks);
    CountTellsCompletion(g, After(g, marks));
  }

  // ---------- progress and termination ----------

  ghost predicate Stuck(e: Exec) {
    forall v :: !Is(e, v, Ready) && !Is(e, v, Running)
  }

  /** In a stuck state a pending node waits for a pending one. */
  lemma WaitsForPending(g: Graph, e: Exec, v: Id) returns (d: Id)
    requires WellFormed(g) && Inv(g, e) && Stuck(e) && Is(e, v, Pending)
    ensures HasEdge(g, d, v) && Is(e, d, Pending)
  {
    assert NodeInv(g, e, v);
    d :| d in Deps(g.edges, v) && d !in e.completed;
    var edge :| edge in g.edges && edge.to == v && edge.from == d;
    assert edge == Edge(d, v);
    assert d in ToSet(g.ids) && NodeInv(g, e, d);
    assert !Is(e, d, Ready) && !Is(e, d, Running);
  }

  /** On an acyclic graph, a state in which nothing is ready or running has nothing pending either. */
  lemma NoDeadlock(g: Graph, marks: seq<Mark>)
    requires WellFormed(g) && Acyclic(g) && Disciplined(g, marks)
    ensures (exists v :: Is(After(g, marks), v, Pending)) ==> !Stuck(After(g, marks))
    ensures After(g, marks).state.Keys == ToSet(g.ids)
    ensures Stuck(After(g, marks)) <==>
            forall v | v in g.ids :: After(g, marks).state[v] in {Completed, Failed, Skipped}
  {
    var e := After(g, marks);
    RunInv(g, marks);
    if Stuck(e) {
      NothingPendingIsStuck(g, e);
      forall v | v in g.ids ensures e.state[v] in {Completed, Failed, Skipped} {
        assert !Is(e, v, Pending) && !Is(e, v, Ready) && !Is(e, v, Running);
      }
    } else {
      var v :| Is(e, v, Ready) || Is(e, v, Running);
      assert v in ToSet(g.ids);
    }
  }

  /** Otherwise the pending nodes, each waiting for another, would contain a cycle. */
  lemma NothingPendingIsStuck(g: Graph, e: Exec)
    requires WellFormed(g) && Acyclic(g) && Inv(g, e) && Stuck(e)
    ensures forall v :: !Is(e, v, Pending)
  {
    var pending := set v | v in e.state && e.state[v] == Pending;
    if pending != {} {
      forall v | v in pending ensures HasPredecessorIn(g, pending, v) {
        var d := WaitsForPending(g, e, v);
      }
      var _ := BackwardClosedSetHasCycle(g, pending);
    }
    assert forall v | Is(e, v, Pending) :: v in pending;
  }

  function Weight(s: NodeState): nat {
    match s
    case Pending => 2
    case Ready => 2
    case Running => 1
    case _ => 0
  }

  /** The marks still possible for the listed nodes. */
  ghost function Remaining(e: Exec, ids: seq<Id>): nat {
    if ids == [] then 0
    else Remaining(e, ids[1..]) + if ids[0] in e.state then Weight(e.state[ids[0]]) else 0
  }

  lemma {:induction false} RemainingDrops(e: Exec, e': Exec, ids: seq<Id>, m: Id)
    requires e.state.Keys == e'.state.Keys
    requires forall v | v in e.state :: Weight(e'.state[v]) <= Weight(e.state[v])
    requires m in e.state && Weight(e'.state[m]) < Weight(e.state[m])
    ensures Remaining(e', ids) <= Remaining(e, ids) <= 2 * |ids|
    ensures m in ids ==> Remaining(e', ids) < Remaining(e, ids)
  {
    if ids != [] {
      RemainingDrops(e, e', ids[1..], m);
      assert ids == [ids[0]] + ids[1..];
    }
  }

  lemma StepUsesUpAMark(g: Graph, e: Exec, m: Mark)
    requires WellFormed(g) && Inv(g, e) && Enabled(e, m)
    ensures Remaining(Step(g, e, m), g.ids) < Remaining(e, g.ids) <= 2 * |g.ids|
  {
    var e' := Step(g, e, m);
    if m.Finish? {
      FinishIsExact(g, e, m.id);
    } else if m.Fail? {
      FailTouchesPendingOnly(g, e, m.id);
      FailedStaysFailed(g, e, m.id);
    }
    RemainingDrops(e, e', g.ids, m.id);
  }

  /** Every disciplined run, on a cyclic graph too, ends within two marks per node. */
  lemma {:induction false} RunsAreShort(g: Graph, marks: seq<Mark>)
    requires WellFormed(g) && Disciplined(g, marks)
    ensures |marks| + Remaining(After(g, marks), g.ids) <= 2 * |g.ids|
  {
    if marks == [] {
      RemainingAtMostTwoEach(Init(g), g.ids);
    } else {
      var rest := marks[..|marks| - 1];
      RunsAreShort(g, rest);
      RunInv(g, rest);
      StepUsesUpAMark(g, After(g, rest), marks[|marks| - 1]);
    }
  }

  lemma RemainingAtMostTwoEach(e: Exec, ids: seq<Id>)
    ensures Remaining(e, ids) <= 2 * |ids|
  {
  }

  // ---------- the run and the sort agree ----------

  /** Only nodes the sort lists are ever released; a node on a cycle never runs. */
  lemma {:induction false} OnlyPeeledNodesRun(g: Graph, order: seq<Id>, marks: seq<Mark>, v: Id)
    requires WellFormed(g) && Peels(order, g) && Disciplined(g, marks)
    requires v in After(g, marks).state && Released(After(g, marks).state[v])
    ensures v in order
    decreases |marks|, 1
  {
    var e := After(g, marks);
    RunInv(g, marks);
    assert NodeInv(g, e, v);
    if v !in order {
      assert v in ToSet(g.ids);
      assert Blocked(order, g.edges, v);
      var edge :| edge in g.edges && edge.to == v && edge.from !in order;
      assert edge.from in Deps(g.edges, v);
      assert NodeInv(g, e, edge.from) && Is(e, edge.from, Completed);
      CompletedNodesAreListed(g, order, marks, edge.from);
    }
  }

  lemma {:induction false} CompletedNodesAreListed(g: Graph, order: seq<Id>, marks: seq<Mark>, d: Id)
    requires WellFormed(g) && Peels(order, g) && Disciplined(g, marks)
    requires Is(After(g, marks), d, Completed)
    ensures d in order
    decreases |marks|, 0
  {
    if marks != [] {
      var rest, m := marks[..|marks| - 1], marks[|marks| - 1];
      var e := After(g, rest);
      RunInv(g, rest);
      if m.Finish? {
        FinishIsExact(g, e, m.id);
      } else if m.Fail? {
        FailTouchesPendingOnly(g, e, m.id);
        FailedStaysFailed(g, e, m.id);
      }
      assert Released(e.state[d]);
      OnlyPeeledNodesRun(g, order, rest, d);
    }
  }

  /** A failure-free run that cannot be extended has completed exactly the nodes the sort lists. */
  lemma StuckRunCompletedThePeeledNodes(g: Graph, order: seq<Id>, marks: seq<Mark>)
    requires WellFormed(g) && Peels(order, g) && Disciplined(g, marks)
    requires Stuck(After(g, marks)) && forall v :: !Is(After(g, marks), v, Failed)
    ensures After(g, marks).completed == ToSet(order)
  {
    var e := After(g, marks);
    RunInv(g, marks);
    forall v | v in e.completed ensures v in order {
      assert NodeInv(g, e, v);
      OnlyPeeledNodesRun(g, order, marks, v);
    }
    PeeledPrefixCompletes(g, order, e, |order|);
    assert order[..|order|] == order;
  }

  lemma {:induction false} PeeledPrefixCompletes(g: Graph, order: seq<Id>, e: Exec, n: nat)
    requires WellFormed(g) && Peels(order, g) && Inv(g, e)
    requires Stuck(e) && forall v :: !Is(e, v, Failed)
    requires n <= |order|
    ensures forall v | v in order[..n] :: v in e.completed
  {
    if n > 0 {
      PeeledPrefixCompletes(g, order, e, n - 1);
      var v := order[n - 1];
      assert v in Universe(g) && v in ToSet(g.ids);
      assert NodeInv(g, e, v);
      assert Deps(g.edges, v) <= e.completed;
      assert !Is(e, v, Ready) && !Is(e, v, Running) && !Is(e, v, Failed);
      assert order[..n] == order[..n - 1] + [v];
    }
  }

  /** Starting and finishing the nodes one after another. */
  function Serial(order: seq<Id>): seq<Mark> {
    if order == [] then []
    else Serial(order[..|order| - 1]) + [Start(order[|order| - 1]), Finish(order[|order| - 1])]
  }

  lemma RunOneNode(g: Graph, marks: seq<Mark>, v: Id)
    requires WellFormed(g) && Disciplined(g, marks) && Is(After(g, marks), v, Ready)
    ensures var longer := marks + [Start(v), Finish(v)];
      Disciplined(g, longer) && After(g, longer).completed == After(g, marks).completed + {v}
  {
    var started, finished := marks + [Start(v)], marks + [Start(v), Finish(v)];
    assert started[..|marks|] == marks && finished[..|marks| + 1] == started;
    RunInv(g, started);
    FinishIsExact(g, After(g, started), v);
  }

  lemma SerialAppend(done: seq<Id>, v: Id)
    ensures Serial(done + [v]) == Serial(done) + [Start(v), Finish(v)]
    ensures MarkedIds(Serial(done + [v])) == MarkedIds(Serial(done)) + {v}
  {
    assert (done + [v])[..|done|] == done;
    var longer := Serial(done) + [Start(v), Finish(v)];
    assert longer[|longer| - 1] == Finish(v);
    assert MarkedIds(longer) == MarkedIds(Serial(done)) + {v};
  }

  lemma PeeledNodeIsReady(g: Graph, order: seq<Id>, marks: seq<Mark>, v: Id)
    requires WellFormed(g) && Peels(order, g) && Disciplined(g, marks)
    requires v in order && v !in MarkedIds(marks) && Deps(g.edges, v) <= After(g, marks).completed
    ensures Is(After(g, marks), v, Ready)
  {
    var e := After(g, marks);
    assert v in Universe(g) && v in g.ids;
    ReadyQueueAgreesWithRecomputation(g, marks);
    RunInv(g, marks);
    ReadyNodesFilter(e, e.queue);
    assert v in ReadyNodes(e, e.queue);
  }

  /** Running the listed nodes one by one is a disciplined run that completes exactly them. */
  ghost predicate Executable(g: Graph, order: seq<Id>) {
    && Disciplined(g, Serial(order))
    && After(g, Serial(order)).completed == ToSet(order) == MarkedIds(Serial(order))
  }

  lemma OneMoreNodeIsExecutable(g: Graph, order: seq<Id>, done: seq<Id>, v: Id)
    requires WellFormed(g) && Peels(order, g) && Executable(g, done)
    requires v in order && v !in done && Deps(g.edges, v) <= ToSet(done)
    ensures Executable(g, done + [v])
  {
    PeeledNodeIsReady(g, order, Serial(done), v);
    RunOneNode(g, Serial(done), v);
    SerialAppend(done, v);
  }

  /** The returned order, and every prefix of it, is executable. */
  lemma {:induction false} SortedOrderIsExecutable(g: Graph, order: seq<Id>, n: nat)
    requires WellFormed(g) && Peels(order, g) && n <= |order|
    ensures Executable(g, order[..n])
  {
    if n == 0 {
      assert order[..0] == [];
    } else {
      var done, v := order[..n - 1], order[n - 1];
      SortedOrderIsExecutable(g, order, n - 1);
      assert order[..n] == done + [v];
      forall d | d in Deps(g.edges, v) ensures d in done {
      }
      OneMoreNodeIsExecutable(g, order, done, v);
    }
  }
}
