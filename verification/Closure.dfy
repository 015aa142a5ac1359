/** The worklist closure `reachable` of scripts/audit_dead_code.py and what it computes. */
module Closure {
  type Edges<!N(==)> = map<N, set<N>>

  /** `edges.get(x, ())` */
  function Targets<N(==)>(edges: Edges<N>, x: N): set<N> {
    if x in edges then edges[x] else {}
  }

  /** One more edge. */
  function Plus<N(==, !new)>(edges: Edges<N>, source: N, target: N): (r: Edges<N>)
    ensures forall x :: Targets(r, x) == if x == source then Targets(edges, x) + {target} else Targets(edges, x)
  {
    edges[source := Targets(edges, source) + {target}]
  }

  /** The targets in `after` are those in `before`, and `target` for `source`. */
  ghost predicate Added<N(!new)>(before: Edges<N>, after: Edges<N>, source: N, target: N) {
    forall x :: Targets(after, x) == if x == source then Targets(before, x) + {target} else Targets(before, x)
  }

  // ----- the reference definition: paths -----

  /** `path` follows the edges. */
  ghost predicate Walk<N>(edges: Edges<N>, path: seq<N>) {
    |path| > 0 && forall i :: 0 < i < |path| ==> path[i] in Targets(edges, path[i-1])
  }

  ghost predicate Reaches<N(!new)>(edges: Edges<N>, roots: set<N>, n: N) {
    exists path: seq<N> :: Walk(edges, path) && path[0] in roots && path[|path|-1] == n
  }

  ghost predicate Closed<N(!new)>(edges: Edges<N>, states: set<N>) {
    forall x :: x in states ==> Targets(edges, x) <= states
  }

  lemma ReachesRoot<N(!new)>(edges: Edges<N>, roots: set<N>, n: N)
    requires n in roots
    ensures Reaches(edges, roots, n)
  {
    assert Walk(edges, [n]) && [n][0] in roots;
  }

  lemma ReachesStep<N(!new)>(edges: Edges<N>, roots: set<N>, n: N, m: N)
    requires Reaches(edges, roots, n) && m in Targets(edges, n)
    ensures Reaches(edges, roots, m)
  {
    var path: seq<N> :| Walk(edges, path) && path[0] in roots && path[|path|-1] == n;
    var longer := path + [m];
    assert Walk(edges, longer) && longer[0] in roots && longer[|longer|-1] == m;
  }

  /** What is reached stays inside every closed set that holds the roots. */
  lemma {:induction false} WalkInside<N(!new)>(edges: Edges<N>, path: seq<N>, states: set<N>)
    requires Walk(edges, path) && path[0] in states && Closed(edges, states)
    ensures path[|path|-1] in states
  {
    if |path| > 1 {
      var front := path[..|path|-1];
      assert Walk(edges, front);
      WalkInside(edges, front, states);
    }
  }

  lemma ReachesInside<N(!new)>(edges: Edges<N>, roots: set<N>, n: N, states: set<N>)
    requires Reaches(edges, roots, n) && roots <= states && Closed(edges, states)
    ensures n in states
  {
    var path: seq<N> :| Walk(edges, path) && path[0] in roots && path[|path|-1] == n;
    WalkInside(edges, path, states);
  }

  // ----- the worklist -----

  ghost function AllTargets<N(!new)>(edges: Edges<N>): set<N> {
    set x, y | x in edges && y in edges[x] :: y
  }

  /** The least set that holds the roots and is closed under the edges. */
  ghost predicate IsClosure<N(!new)>(edges: Edges<N>, roots: set<N>, r: set<N>) {
    && roots <= r && Closed(edges, r)
    && (forall n :: n in r <==> Reaches(edges, roots, n))
  }

  lemma ClosureIsLeast<N(!new)>(edges: Edges<N>, roots: set<N>, r: set<N>, other: set<N>)
    requires IsClosure(edges, roots, r) && roots <= other && Closed(edges, other)
    ensures r <= other
  {
    forall n | n in r ensures n in other {
      ReachesInside(edges, roots, n, other);
    }
  }

  /** `deque(seen)`: the roots in some order. */
  method InitialQueue<N(==)>(roots: set<N>) returns (queue: seq<N>)
    ensures forall x :: x in queue <==> x in roots
  {
    queue := [];
    var start := roots;
    while start != {}
      invariant start <= roots
      invariant forall x :: x in queue <==> x in roots - start
    {
      var x :| x in start;
      start := start - {x};
      queue := queue + [x];
    }
  }

  /** Queue the targets of `x` that are not seen yet. */
  method Visit<N(==, !new)>(edges: Edges<N>, x: N, seen0: set<N>, queue0: seq<N>) returns (seen: set<N>, queue: seq<N>)
    ensures Visited(seen0, queue0, Targets(edges, x), seen, queue)
  {
    seen, queue := seen0, queue0;
    var targets := Targets(edges, x);
    var todo := targets;
    while todo != {}
      invariant todo <= targets
      invariant Visited(seen0, queue0, targets - todo, seen, queue)
      decreases todo
    {
      var target :| target in todo;
      VisitOne(seen0, queue0, targets - todo, seen, queue, target);
      assert targets - todo + {target} == targets - (todo - {target});
      todo := todo - {target};
      if target !in seen {
        seen := seen + {target};
        queue := queue + [target];
      }
    }
    assert targets - todo == targets;
  }

  // What has been seen and queued once `targets` have been looked at.
  ghost predicate Visited<N(!new)>(seen0: set<N>, queue0: seq<N>, targets: set<N>, seen: set<N>, queue: seq<N>) {
    && seen == seen0 + targets
    && (|seen0| < |seen| || (seen == seen0 && queue == queue0))
    && (forall y :: y in queue <==> y in queue0 || y in seen - seen0)
  }

  lemma VisitOne<N(!new)>(seen0: set<N>, queue0: seq<N>, targets: set<N>, seen: set<N>, queue: seq<N>, target: N)
    requires Visited(seen0, queue0, targets, seen, queue)
    ensures if target in seen then Visited(seen0, queue0, targets + {target}, seen, queue)
            else Visited(seen0, queue0, targets + {target}, seen + {target}, queue + [target])
  {
    if target in seen && target !in targets {
      assert seen0 + targets == seen0 + (targets + {target});
    } else if target !in seen {
      assert |seen + {target}| == |seen| + 1;
      assert seen0 + (targets + {target}) == seen + {target};
    }
  }

  // The worklist between two nodes: `done` are expanded, the queue holds the other nodes seen.
  ghost predicate Exploring<N(!new)>(edges: Edges<N>, roots: set<N>, seen: set<N>, done: set<N>, queue: seq<N>) {
    && roots <= seen <= roots + AllTargets(edges) && done <= seen
    && (forall x :: x in seen <==> x in done || x in queue)
    && (forall x :: x in done ==> Targets(edges, x) <= seen)
    && (forall n :: n in seen ==> Reaches(edges, roots, n))
  }

  lemma Explored<N(!new)>(edges: Edges<N>, roots: set<N>, seen: set<N>, done: set<N>)
    requires Exploring(edges, roots, seen, done, [])
    ensures IsClosure(edges, roots, seen)
  {
    assert Closed(edges, seen);
    forall n | Reaches(edges, roots, n) ensures n in seen {
      ReachesInside(edges, roots, n, seen);
    }
  }

  lemma AfterVisit<N(!new)>(
      edges: Edges<N>, roots: set<N>, seen0: set<N>, queue0: seq<N>, done: set<N>, seen: set<N>, queue: seq<N>)
    requires queue0 != [] && Exploring(edges, roots, seen0, done, queue0)
    requires seen == seen0 + Targets(edges, queue0[0])
    requires forall y :: y in queue <==> y in queue0[1..] || y in seen - seen0
    ensures Exploring(edges, roots, seen, done + {queue0[0]}, queue)
  {
    assert queue0 == [queue0[0]] + queue0[1..];
    forall n | n in Targets(edges, queue0[0]) ensures Reaches(edges, roots, n) {
      ReachesStep(edges, roots, queue0[0], n);
    }
  }

  /** The worklist closure: from the roots, follow edges until nothing new is found. */
  method Reachable<N(==, !new)>(roots: set<N>, edges: Edges<N>) returns (seen: set<N>)
    ensures IsClosure(edges, roots, seen)
  {
    ghost var all := roots + AllTargets(edges);
    ghost var done: set<N> := {};
    seen := roots;
    var queue := InitialQueue(roots);
    forall n | n in roots ensures Reaches(edges, roots, n) {
      ReachesRoot(edges, roots, n);
    }
    while queue != []
      invariant Exploring(edges, roots, seen, done, queue)
      decreases |all - seen|, |queue|
    {
      ghost var seen0, queue0 := seen, queue;
      var x := queue[0];
      seen, queue := Visit(edges, x, seen, queue[1..]);
      AfterVisit(edges, roots, seen0, queue0, done, seen, queue);
      done := done + {x};
      LeftOver(all, seen0, seen);
    }
    Explored(edges, roots, seen, done);
  }

  lemma LeftOver<N>(all: set<N>, before: set<N>, after: set<N>)
    requires before <= after <= all
    ensures |all - after| <= |all - before|
    ensures |before| < |after| ==> |all - after| < |all - before|
  {
    assert all - before == (all - after) + (after - before);
    assert after == before + (after - before);
  }
}
