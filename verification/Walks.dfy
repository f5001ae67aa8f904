/**
 Walks and cycles of an edge relation, and the one fact everything else needs:
 a relation with a topological order has no cycle, and a finite set in which
 every node has a successor inside the set does have one.
 */
module Walks {

  // A walk is a nonempty list of nodes, each joined to the next by an edge.
  ghost predicate IsWalk<T(!new)>(edges: iset<(T, T)>, p: seq<T>) {
    && |p| >= 1
    && forall i :: 0 <= i < |p| - 1 ==> (p[i], p[i + 1]) in edges
  }

  // A cycle is a walk of at least one edge that ends where it starts.
  ghost predicate IsCycle<T(!new)>(edges: iset<(T, T)>, p: seq<T>) {
    IsWalk(edges, p) && |p| >= 2 && p[0] == p[|p| - 1]
  }

  lemma CycleHasEdge<T(!new)>(edges: iset<(T, T)>, p: seq<T>)
    requires IsCycle(edges, p)
    ensures (p[0], p[1]) in edges
  {
  }

  ghost predicate HasCycle<T(!new)>(edges: iset<(T, T)>) {
    exists p :: IsCycle(edges, p)
  }

  // Every edge out of a listed node leads to a node listed earlier.
  ghost predicate IsTopological<T(!new)>(edges: iset<(T, T)>, order: seq<T>) {
    forall a, b :: (a, b) in edges && a in order ==>
      exists i, j :: 0 <= i < j < |order| && order[i] == b && order[j] == a
  }

  // Along a walk that starts in a duplicate-free topological order, positions only go down.
  lemma {:induction false} WalkDescends<T(!new)>(edges: iset<(T, T)>, order: seq<T>, p: seq<T>, at: nat)
    requires IsTopological(edges, order)
    requires forall i, j :: 0 <= i < j < |order| ==> order[i] != order[j]
    requires IsWalk(edges, p) && at < |order| && order[at] == p[0]
    ensures exists e: nat :: e + |p| - 1 <= at && order[e] == p[|p| - 1]
  {
    if |p| == 1 {
      assert at + |p| - 1 <= at && order[at] == p[|p| - 1];
    } else {
      assert (p[0], p[1]) in edges;
      var i, j :| 0 <= i < j < |order| && order[i] == p[1] && order[j] == p[0];
      assert j == at;
      var q := p[1..];
      assert IsWalk(edges, q) by {
        forall k | 0 <= k < |q| - 1 ensures (q[k], q[k + 1]) in edges {
          assert (p[k + 1], p[k + 2]) in edges;
        }
      }
      WalkDescends(edges, order, q, i);
    }
  }

  // So no cycle passes through a node of such an order.
  lemma TopologicalNoCycle<T(!new)>(edges: iset<(T, T)>, order: seq<T>, p: seq<T>)
    requires IsTopological(edges, order)
    requires forall i, j :: 0 <= i < j < |order| ==> order[i] != order[j]
    requires |p| >= 1 && p[0] in order
    ensures !IsCycle(edges, p)
  {
    if IsCycle(edges, p) {
      var at :| 0 <= at < |order| && order[at] == p[0];
      WalkDescends(edges, order, p, at);
    }
  }

  // Every node of the map's domain has an edge to its image, which is in the domain again.
  ghost predicate Continues<T(!new)>(edges: iset<(T, T)>, next: map<T, T>) {
    forall a {:trigger next[a]} :: a in next ==> next[a] in next && (a, next[a]) in edges
  }

  // A walk can be extended for ever inside a set where every node has a next one.
  lemma {:induction false} ExtendWalk<T(!new)>(edges: iset<(T, T)>, next: map<T, T>, p: seq<T>, n: nat)
    returns (q: seq<T>)
    requires IsWalk(edges, p) && |p| <= n
    requires forall x <- p :: x in next
    requires Continues(edges, next)
    ensures IsWalk(edges, q) && |q| == n && forall x <- q :: x in next
    decreases n - |p|
  {
    if |p| == n {
      q := p;
    } else {
      var last := p[|p| - 1];
      assert last in next;
      q := ExtendWalk(edges, next, p + [next[last]], n);
    }
  }

  // Pigeonhole: a list longer than the set its elements come from repeats one.
  lemma {:induction false} Pigeonhole<T>(s: set<T>, p: seq<T>) returns (i: nat, j: nat)
    requires |p| > |s| && forall x <- p :: x in s
    ensures i < j < |p| && p[i] == p[j]
  {
    var x := p[|p| - 1];
    var front := p[..|p| - 1];
    if k :| 0 <= k < |front| && front[k] == x {
      i, j := k, |p| - 1;
    } else {
      forall y | y in front ensures y in s - {x} {
        assert y in p;
      }
      i, j := Pigeonhole(s - {x}, front);
    }
  }

  function UpTo(n: nat): (s: set<nat>)
    ensures forall i: nat :: i in s <==> i < n
    ensures |s| == n
  {
    if n == 0 then {} else UpTo(n - 1) + {n - 1}
  }

  // A duplicate-free list of numbers below n has at most n of them, and with n it has them all.
  lemma DistinctBelow(p: seq<nat>, n: nat)
    requires forall k :: 0 <= k < |p| ==> p[k] < n
    requires forall j, k :: 0 <= j < k < |p| ==> p[j] != p[k]
    ensures |p| <= n
    ensures |p| == n ==> forall i: nat :: i < n ==> i in p
  {
    if |p| > n {
      var i, j := Pigeonhole(UpTo(n), p);
    }
    if |p| == n {
      forall i: nat | i < n ensures i in p {
        if i !in p {
          var j, k := Pigeonhole(UpTo(n) - {i}, p);
        }
      }
    }
  }

  function Elements(p: seq<nat>): (s: set<nat>)
    ensures |s| <= |p|
    ensures forall i :: i in s <==> i in p
  {
    if p == [] then {} else {p[0]} + Elements(p[1..])
  }

  // A short list misses some number below n.
  lemma Unlisted(p: seq<nat>, n: nat) returns (i: nat)
    requires |p| < n
    ensures i < n && i !in p
  {
    var free := UpTo(n) - Elements(p);
    assert |free| == |UpTo(n)| - |UpTo(n) * Elements(p)|;
    i :| i in free;
  }

  // A stretch of a walk is a walk.
  lemma SubWalk<T(!new)>(edges: iset<(T, T)>, q: seq<T>, i: nat, j: nat)
    requires IsWalk(edges, q) && i < j <= |q|
    ensures IsWalk(edges, q[i..j])
  {
    var c := q[i..j];
    forall k | 0 <= k < |c| - 1 ensures (c[k], c[k + 1]) in edges {
      assert (q[i + k], q[i + k + 1]) in edges;
    }
  }

  // A nonempty finite set in which every node has a successor contains a cycle.
  lemma StuckSetHasCycle<T(!new)>(edges: iset<(T, T)>, next: map<T, T>) returns (c: seq<T>)
    requires next.Keys != {}
    requires Continues(edges, next)
    ensures IsCycle(edges, c)
    ensures forall x <- c :: x in next
  {
    var x :| x in next;
    var q := ExtendWalk(edges, next, [x], |next.Keys| + 1);
    var i, j := Pigeonhole(next.Keys, q);
    c := q[i..j + 1];
    SubWalk(edges, q, i, j + 1);
    assert c[0] == q[i] && c[|c| - 1] == q[j];
  }

  // Going round a cycle n times gives a walk of more than n nodes.
  lemma {:induction false} GoRound<T(!new)>(edges: iset<(T, T)>, c: seq<T>, n: nat) returns (p: seq<T>)
    requires IsCycle(edges, c)
    ensures IsWalk(edges, p) && |p| > n && p[0] == c[0]
    decreases n
  {
    if n == 0 {
      p := c;
    } else {
      var rest := GoRound(edges, c, n - 1);
      p := JoinWalks(edges, c, rest);
    }
  }

  lemma JoinWalks<T(!new)>(edges: iset<(T, T)>, a: seq<T>, b: seq<T>) returns (p: seq<T>)
    requires IsWalk(edges, a) && IsWalk(edges, b) && a[|a| - 1] == b[0]
    ensures IsWalk(edges, p) && |p| == |a| + |b| - 1 && p[0] == a[0] && p == a + b[1..]
  {
    p := a + b[1..];
    forall i | 0 <= i < |p| - 1 ensures (p[i], p[i + 1]) in edges {
      if i >= |a| {
        assert (b[i - |a| + 1], b[i - |a| + 2]) in edges;
      } else if i == |a| - 1 {
        assert (b[0], b[1]) in edges;
      }
    }
  }

  // Some walk from here ends on a cycle.
  ghost predicate ReachesCycle<T(!new)>(edges: iset<(T, T)>, a: T) {
    exists p, c :: Lasso(edges, a, p, c)
  }

  ghost predicate Lasso<T(!new)>(edges: iset<(T, T)>, a: T, p: seq<T>, c: seq<T>) {
    IsWalk(edges, p) && p[0] == a && IsCycle(edges, c) && c[0] == p[|p| - 1]
  }

  // A cycle passes through here.
  ghost predicate OnCycle<T(!new)>(edges: iset<(T, T)>, a: T) {
    exists c :: IsCycle(edges, c) && c[0] == a
  }

  // One step further from a cycle.
  lemma StepReaches<T(!new)>(edges: iset<(T, T)>, a: T, b: T)
    requires (a, b) in edges && ReachesCycle(edges, b)
    ensures ReachesCycle(edges, a)
  {
    var p, c :| Lasso(edges, b, p, c);
    var long := JoinWalks(edges, [a, b], p);
    LassoEnd(edges, a, b, p, long);
    assert Lasso(edges, a, long, c);
  }

  lemma LassoEnd<T(!new)>(edges: iset<(T, T)>, a: T, b: T, p: seq<T>, long: seq<T>)
    requires IsWalk(edges, p) && p[0] == b && long == [a, b] + p[1..]
    ensures long[|long| - 1] == p[|p| - 1]
  {
  }

  // A node off every cycle that reaches one has an edge to a node that does.
  lemma NextReaches<T(!new)>(edges: iset<(T, T)>, a: T) returns (b: T)
    requires ReachesCycle(edges, a) && !OnCycle(edges, a)
    ensures (a, b) in edges && ReachesCycle(edges, b)
  {
    var p, c :| Lasso(edges, a, p, c);
    assert |p| >= 2;
    b := p[1];
    SubWalk(edges, p, 1, |p|);
    assert Lasso(edges, b, p[1..|p|], c);
  }

  // From a node of a set where every node has a successor, a cycle is reached.
  lemma StuckReaches<T(!new)>(edges: iset<(T, T)>, next: map<T, T>, a: T)
    requires a in next && Continues(edges, next)
    ensures ReachesCycle(edges, a)
  {
    var q := ExtendFrom(edges, next, a, |next.Keys| + 1);
    var i, j := Pigeonhole(next.Keys, q);
    var p, c := q[0..i + 1], q[i..j + 1];
    SubWalk(edges, q, 0, i + 1);
    SubWalk(edges, q, i, j + 1);
    assert c[0] == q[i] && c[|c| - 1] == q[j] && p[|p| - 1] == q[i];
    assert Lasso(edges, a, p, c);
  }

  // The walk that follows the successors.
  lemma {:induction false} ExtendFrom<T(!new)>(edges: iset<(T, T)>, next: map<T, T>, a: T, n: nat) returns (q: seq<T>)
    requires a in next && Continues(edges, next) && n >= 1
    ensures IsWalk(edges, q) && |q| == n && q[0] == a && forall x <- q :: x in next
    decreases n
  {
    if n == 1 {
      q := [a];
    } else {
      var rest := ExtendFrom(edges, next, next[a], n - 1);
      q := [a] + rest;
      assert q[1..] == rest;
      forall i | 0 <= i < |q| - 1 ensures (q[i], q[i + 1]) in edges {
        assert i > 0 ==> (rest[i - 1], rest[i]) in edges;
      }
    }
  }

  // From a node that a topological order lists, none is.
  lemma ListedReachesNone<T(!new)>(edges: iset<(T, T)>, order: seq<T>, a: T)
    requires IsTopological(edges, order) && a in order
    requires forall i, j :: 0 <= i < j < |order| ==> order[i] != order[j]
    ensures !ReachesCycle(edges, a)
  {
    var at :| 0 <= at < |order| && order[at] == a;
    forall p, c ensures !Lasso(edges, a, p, c) {
      if Lasso(edges, a, p, c) {
        var round := GoRound(edges, c, |order|);
        var long := JoinWalks(edges, p, round);
        WalkDescends(edges, order, long, at);
      }
    }
  }
}
