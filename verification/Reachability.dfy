/** Reachability in a directed graph given by child lists, and the breadth-first
    walk of hiddenSets (demo/mock/routes.ts). Any graph is allowed: cycles,
    several parents, repeated children, children without an entry. */
module Reachability {
  type Id = nat
  type Graph = map<Id, seq<Id>>

  function Children(g: Graph, x: Id): seq<Id> {
    if x in g then g[x] else []
  }

  predicate IsPath(g: Graph, p: seq<Id>) {
    p != [] && forall i :: 0 <= i < |p| - 1 ==> p[i + 1] in Children(g, p[i])
  }

  /** A chain of child refs leads from `a` to `b`. */
  ghost predicate Reaches(g: Graph, a: Id, b: Id) {
    exists p :: IsPath(g, p) && p[0] == a && p[|p| - 1] == b
  }

  lemma ReachesItself(g: Graph, a: Id)
    ensures Reaches(g, a, a)
  {
    assert IsPath(g, [a]);
  }

  lemma ReachesChild(g: Graph, a: Id, b: Id, c: Id)
    requires Reaches(g, a, b) && c in Children(g, b)
    ensures Reaches(g, a, c)
  {
    var p :| IsPath(g, p) && p[0] == a && p[|p| - 1] == b;
    assert IsPath(g, p + [c]);
  }

  lemma ReachesOn(g: Graph, a: Id, b: Id, c: Id)
    requires Reaches(g, a, b) && Reaches(g, b, c)
    ensures Reaches(g, a, c)
  {
    var p :| IsPath(g, p) && p[0] == a && p[|p| - 1] == b;
    var q :| IsPath(g, q) && q[0] == b && q[|q| - 1] == c;
    var r := p + q[1..];
    forall i | 0 <= i < |r| - 1
      ensures r[i + 1] in Children(g, r[i])
    {
      if i >= |p| - 1 {
        assert r[i] == q[i - |p| + 1] && r[i + 1] == q[i - |p| + 1 + 1];
      }
    }
    assert IsPath(g, r) && r[|r| - 1] == c;
  }

  /** Adding child refs only adds reachability. */
  lemma ReachesMore(g: Graph, h: Graph, a: Id, b: Id)
    requires Reaches(g, a, b)
    requires forall x, y :: y in Children(g, x) ==> y in Children(h, x)
    ensures Reaches(h, a, b)
  {
    var p :| IsPath(g, p) && p[0] == a && p[|p| - 1] == b;
    assert IsPath(h, p);
  }

  /** A set that every child ref stays inside. */
  ghost predicate Closed(g: Graph, s: set<Id>) {
    forall x, y :: x in s && y in Children(g, x) ==> y in s
  }

  lemma {:induction false} PathStaysInside(g: Graph, s: set<Id>, p: seq<Id>, i: nat)
    requires Closed(g, s) && IsPath(g, p) && p[0] in s && i < |p|
    ensures p[i] in s
  {
    if i > 0 {
      PathStaysInside(g, s, p, i - 1);
      assert p[i - 1 + 1] in Children(g, p[i - 1]);
    }
  }

  lemma ClosedHoldsReach(g: Graph, s: set<Id>, a: Id, b: Id)
    requires Closed(g, s) && a in s && Reaches(g, a, b)
    ensures b in s
  {
    var p :| IsPath(g, p) && p[0] == a && p[|p| - 1] == b;
    PathStaysInside(g, s, p, |p| - 1);
  }

  /** Every id with an entry or in one. */
  function Universe(g: Graph): set<Id> {
    g.Keys + set x, c | x in g.Keys && c in g[x] :: c
  }

  lemma ReachIsKnown(g: Graph, a: Id, b: Id)
    requires Reaches(g, a, b)
    ensures b in Universe(g) + {a}
  {
    ClosedHoldsReach(g, Universe(g) + {a}, a, b);
  }

  ghost function Below(g: Graph, a: Id): (r: set<Id>)
    ensures forall x :: x in r <==> Reaches(g, a, x)
  {
    forall x | Reaches(g, a, x)
      ensures x in Universe(g) + {a}
    {
      ReachIsKnown(g, a, x);
    }
    set x | x in Universe(g) + {a} && Reaches(g, a, x)
  }

  // ── The breadth-first walk ────────────────────────────────────────────────

  /** `seen` is done, `queue` is to do; together they hold what is known of Below. */
  ghost predicate Frontier(g: Graph, root: Id, seen: set<Id>, queue: seq<Id>) {
    (root in seen || root in queue) &&
    (forall x :: x in seen ==> x in Below(g, root)) &&
    (forall x :: x in queue ==> x in Below(g, root)) &&
    forall x, y :: x in seen && y in Children(g, x) ==> y in seen || y in queue
  }

  lemma SkipKeeps(g: Graph, root: Id, seen: set<Id>, queue: seq<Id>)
    requires queue != [] && queue[0] in seen && Frontier(g, root, seen, queue)
    ensures Frontier(g, root, seen, queue[1..])
  {
    assert queue == [queue[0]] + queue[1..];
  }

  lemma VisitKeeps(g: Graph, root: Id, seen: set<Id>, queue: seq<Id>)
    requires queue != [] && Frontier(g, root, seen, queue)
    ensures Frontier(g, root, seen + {queue[0]}, queue[1..] + Children(g, queue[0]))
  {
    var id, rest := queue[0], queue[1..] + Children(g, queue[0]);
    assert queue == [id] + queue[1..];
    forall x | x in rest
      ensures x in Below(g, root)
    {
      if x in Children(g, id) {
        ReachesChild(g, root, id, x);
      }
    }
  }

  lemma EmptyFrontier(g: Graph, root: Id, seen: set<Id>)
    requires Frontier(g, root, seen, [])
    ensures seen == Below(g, root)
  {
    forall x | x in Below(g, root)
      ensures x in seen
    {
      ClosedHoldsReach(g, seen, root, x);
    }
  }

  lemma LessToSee(all: set<Id>, seen: set<Id>, id: Id)
    requires id in all && id !in seen
    ensures |all - (seen + {id})| < |all - seen|
  {
    assert all - seen == (all - (seen + {id})) + {id};
  }

  /** The walk `spread` makes from one root. */
  method Spread(g: Graph, root: Id) returns (seen: set<Id>)
    ensures seen == Below(g, root)
  {
    var queue := [root];
    seen := {};
    ReachesItself(g, root);
    while queue != []
      invariant Frontier(g, root, seen, queue)
      decreases |Below(g, root) - seen|, |queue|
    {
      var id := queue[0];
      if id in seen {
        SkipKeeps(g, root, seen, queue);
        queue := queue[1..];
      } else {
        VisitKeeps(g, root, seen, queue);
        assert id in queue;
        LessToSee(Below(g, root), seen, id);
        seen := seen + {id};
        queue := queue[1..] + Children(g, id);
      }
    }
    EmptyFrontier(g, root, seen);
  }
}
