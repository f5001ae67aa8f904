/**
 Dispatch order of the resources of one manifest: Kahn's algorithm with ties
 broken by (order, declaration index).
 */
module Graph {
  import opened Wrappers
  import opened Manifest
  import opened Walks

  // ----- edges -----

  function IndexOf(rs: seq<Resource>, id: string): (r: Option<nat>)
    ensures r.Some? ==> r.value < |rs| && rs[r.value].id == id && forall k :: 0 <= k < r.value ==> rs[k].id != id
    ensures r.None? ==> forall k :: 0 <= k < |rs| ==> rs[k].id != id
  {
    IndexFrom(rs, id, 0)
  }

  function IndexFrom(rs: seq<Resource>, id: string, i: nat): (r: Option<nat>)
    requires i <= |rs|
    ensures r.Some? ==> i <= r.value < |rs| && rs[r.value].id == id && forall k :: i <= k < r.value ==> rs[k].id != id
    ensures r.None? ==> forall k :: i <= k < |rs| ==> rs[k].id != id
    decreases |rs| - i
  {
    if i == |rs| then None
    else if rs[i].id == id then Some(i)
    else IndexFrom(rs, id, i + 1)
  }

  // Indices the named dependencies stand for; unknown names and self edges are dropped.
  function Targets(rs: seq<Resource>, i: nat, names: seq<string>): (ts: seq<nat>)
    ensures forall k :: 0 <= k < |ts| ==> ts[k] < |rs| && ts[k] != i
    ensures forall j :: j in ts <==> j != i && exists k :: 0 <= k < |names| && IndexOf(rs, names[k]) == Some(j)
  {
    if names == [] then []
    else
      var front := Targets(rs, i, names[..|names| - 1]);
      var last := IndexOf(rs, names[|names| - 1]);
      if last.Some? && last.value != i then front + [last.value] else front
  }

  function Deps(rs: seq<Resource>, i: nat): (ts: seq<nat>)
    requires i < |rs|
    ensures forall k :: 0 <= k < |ts| ==> ts[k] < |rs| && ts[k] != i
  {
    Targets(rs, i, rs[i].dependsOn)
  }

  ghost function Edges(rs: seq<Resource>): iset<(nat, nat)> {
    iset i: nat, j: nat | i < |rs| && j in Deps(rs, i) :: (i, j)
  }

  // ----- the order -----

  predicate Before(rs: seq<Resource>, i: nat, j: nat)
    requires i < |rs| && j < |rs|
  {
    rs[i].order < rs[j].order || (rs[i].order == rs[j].order && i < j)
  }

  predicate Ready(rs: seq<Resource>, out: seq<nat>, i: nat)
    requires i < |rs|
  {
    i !in out && forall k :: 0 <= k < |Deps(rs, i)| ==> Deps(rs, i)[k] in out
  }

  predicate IsBest(rs: seq<Resource>, out: seq<nat>, pick: Option<nat>, n: nat)
    requires n <= |rs|
  {
    match pick
    case None => forall j :: 0 <= j < n ==> !Ready(rs, out, j)
    case Some(p) =>
      && p < n && Ready(rs, out, p)
      && forall j :: 0 <= j < n && j != p && Ready(rs, out, j) ==> Before(rs, p, j)
  }

  // The scan for the least ready index, over the first n.
  function Pick(rs: seq<Resource>, out: seq<nat>, n: nat): (pick: Option<nat>)
    requires n <= |rs|
    ensures IsBest(rs, out, pick, n)
  {
    if n == 0 then None
    else
      var pick := Pick(rs, out, n - 1);
      if !Ready(rs, out, n - 1) then pick
      else if pick.None? || Before(rs, n - 1, pick.value) then Some(n - 1)
      else pick
  }

  // Valid indices, no repeats, and everything after its dependencies.
  predicate Ordered(rs: seq<Resource>, out: seq<nat>) {
    && (forall k :: 0 <= k < |out| ==> out[k] < |rs|)
    && (forall j, k :: 0 <= j < k < |out| ==> out[j] != out[k])
    && (forall k :: 0 <= k < |out| ==> Ready(rs, out[..k], out[k]))
  }

  // The order from what is placed so far, or what was placed when nothing more was ready.
  function Extend(rs: seq<Resource>, out: seq<nat>): Result<seq<nat>, seq<nat>>
    decreases |rs| - |out|
  {
    if |out| >= |rs| then Ok(out)
    else
      match Pick(rs, out, |rs|)
      case None => Err(out)
      case Some(i) => Extend(rs, out + [i])
  }

  // The dispatch order, or the indices placed when no further one was ready.
  function ExecutionOrder(rs: seq<Resource>): Result<seq<nat>, seq<nat>> {
    Extend(rs, [])
  }

  predicate Indices(rs: seq<Resource>, order: seq<nat>) {
    |order| == |rs| && forall k :: 0 <= k < |order| ==> order[k] < |rs|
  }

  lemma {:induction false} ExtendOrdered(rs: seq<Resource>, out: seq<nat>)
    requires Ordered(rs, out)
    ensures match Extend(rs, out)
            case Ok(order) => |order| == |rs| && Ordered(rs, order)
            case Err(placed) => Ordered(rs, placed) && |placed| < |rs| && Pick(rs, placed, |rs|) == None
    decreases |rs| - |out|
  {
    DistinctBelow(out, |rs|);
    if |out| < |rs| {
      var pick := Pick(rs, out, |rs|);
      if pick.Some? {
        OrderedMore(rs, out, pick.value);
        ExtendOrdered(rs, out + [pick.value]);
      }
    }
  }

  lemma OrderIndices(rs: seq<Resource>)
    requires ExecutionOrder(rs).Ok?
    ensures Indices(rs, ExecutionOrder(rs).value)
  {
    ExtendOrdered(rs, []);
  }

  lemma OrderedMore(rs: seq<Resource>, out: seq<nat>, i: nat)
    requires Ordered(rs, out) && i < |rs| && Ready(rs, out, i)
    ensures Ordered(rs, out + [i])
  {
    var more := out + [i];
    forall k | 0 <= k < |more| ensures Ready(rs, more[..k], more[k]) {
      if k < |out| {
        assert more[..k] == out[..k];
      } else {
        assert more[..k] == out;
      }
    }
  }

  // ----- what the order promises -----

  // Every index is dispatched, and after everything it depends on.
  lemma OrderTopological(rs: seq<Resource>, out: seq<nat>)
    requires Ordered(rs, out)
    ensures IsTopological(Edges(rs), out)
    ensures |out| == |rs| ==> forall i: nat :: i < |rs| ==> i in out
  {
    DistinctBelow(out, |rs|);
    forall a, b | (a, b) in Edges(rs) && a in out
      ensures exists i, j :: 0 <= i < j < |out| && out[i] == b && out[j] == a
    {
      var j :| 0 <= j < |out| && out[j] == a;
      assert Ready(rs, out[..j], a);
      assert b in out[..j];
      var i :| 0 <= i < j && out[..j][i] == b;
      assert out[i] == b;
    }
  }

  // Each index was the least ready one when it was placed.
  predicate Greedy(rs: seq<Resource>, out: seq<nat>) {
    forall k :: 0 <= k < |out| ==> Pick(rs, out[..k], |rs|) == Some(out[k])
  }

  lemma {:induction false} ExtendGreedy(rs: seq<Resource>, out: seq<nat>)
    requires Ordered(rs, out) && Greedy(rs, out)
    ensures Extend(rs, out).Ok? ==> Greedy(rs, Extend(rs, out).value)
    decreases |rs| - |out|
  {
    DistinctBelow(out, |rs|);
    if |out| < |rs| {
      var pick := Pick(rs, out, |rs|);
      if pick.Some? {
        var more := out + [pick.value];
        OrderedMore(rs, out, pick.value);
        forall k | 0 <= k < |more| ensures Pick(rs, more[..k], |rs|) == Some(more[k]) {
          if k < |out| {
            assert more[..k] == out[..k];
          } else {
            assert more[..k] == out;
          }
        }
        ExtendGreedy(rs, more);
      }
    }
  }

  // Among all topological orders it is the least, comparing (order, index) keys from the left.
  lemma OrderLexLeast(rs: seq<Resource>, other: seq<nat>)
    requires ExecutionOrder(rs).Ok?
    requires Ordered(rs, other) && |other| == |rs|
    ensures Indices(rs, ExecutionOrder(rs).value)
    ensures var out := ExecutionOrder(rs).value;
      || other == out
      || exists k :: 0 <= k < |rs| && other[..k] == out[..k] && Before(rs, out[k], other[k])
  {
    var out := ExecutionOrder(rs).value;
    ExtendOrdered(rs, []);
    ExtendGreedy(rs, []);
    if other != out {
      var k := FirstDifference(other, out);
      assert Ready(rs, other[..k], other[k]);
      assert Pick(rs, out[..k], |rs|) == Some(out[k]);
      assert Before(rs, out[k], other[k]);
    }
  }

  lemma {:induction false} FirstDifference(p: seq<nat>, q: seq<nat>) returns (k: nat)
    requires |p| == |q| && p != q
    ensures k < |p| && p[..k] == q[..k] && p[k] != q[k]
  {
    var n := |p| - 1;
    if p[..n] == q[..n] {
      k := n;
    } else {
      k := FirstDifference(p[..n], q[..n]);
      assert p[..k] == p[..n][..k] && q[..k] == q[..n][..k];
    }
  }

  // Whoever was already ready when an index was placed comes after it; with no
  // edges at all the result is therefore the stable sort by `order`.
  lemma OrderSorted(rs: seq<Resource>, j: nat, k: nat)
    requires ExecutionOrder(rs).Ok? && Indices(rs, ExecutionOrder(rs).value) && j < k < |rs|
    requires Ready(rs, ExecutionOrder(rs).value[..j], ExecutionOrder(rs).value[k])
    ensures Before(rs, ExecutionOrder(rs).value[j], ExecutionOrder(rs).value[k])
  {
    ExtendGreedy(rs, []);
    assert Pick(rs, ExecutionOrder(rs).value[..j], |rs|) == Some(ExecutionOrder(rs).value[j]);
  }

  lemma NoEdgesStableSort(rs: seq<Resource>)
    requires forall i :: 0 <= i < |rs| ==> rs[i].dependsOn == []
    ensures ExecutionOrder(rs).Ok? && Indices(rs, ExecutionOrder(rs).value)
    ensures forall j, k :: 0 <= j < k < |rs| ==>
      Before(rs, ExecutionOrder(rs).value[j], ExecutionOrder(rs).value[k])
  {
    ExtendOrdered(rs, []);
    if ExecutionOrder(rs).Err? {
      var c := StuckCycle(rs);
      CycleHasEdge(Edges(rs), c);
    } else {
      var out := ExecutionOrder(rs).value;
      forall j, k | 0 <= j < k < |rs| ensures Before(rs, out[j], out[k]) {
        assert out[k] !in out[..j];
        OrderSorted(rs, j, k);
      }
    }
  }

  lemma StuckCycle(rs: seq<Resource>) returns (c: seq<nat>)
    requires ExecutionOrder(rs).Err?
    ensures IsCycle(Edges(rs), c)
  {
    var out := ExecutionOrder(rs).error;
    ExtendOrdered(rs, []);
    var next := Blockers(rs, out);
    var left := Unlisted(out, |rs|);
    assert left in next;
    c := StuckSetHasCycle(Edges(rs), next);
  }

  // Every index left over when nothing more is ready waits for another such index.
  ghost function Blockers(rs: seq<Resource>, out: seq<nat>): (next: map<nat, nat>)
    requires Pick(rs, out, |rs|) == None
    ensures Continues(Edges(rs), next)
    ensures forall i: nat :: i < |rs| && i !in out ==> i in next
  {
    map i | i in UpTo(|rs|) - Elements(out) :: Blocker(rs, out, i)
  }

  // Some dependency of a stuck index that is stuck too.
  ghost function Blocker(rs: seq<Resource>, out: seq<nat>, i: nat): (j: nat)
    requires i < |rs| && i !in out && Pick(rs, out, |rs|) == None
    ensures j < |rs| && j !in out && (i, j) in Edges(rs)
  {
    assert !Ready(rs, out, i);
    var k :| 0 <= k < |Deps(rs, i)| && Deps(rs, i)[k] !in out;
    Deps(rs, i)[k]
  }

  // The order fails exactly on a dependency cycle.
  lemma FailsExactlyOnCycle(rs: seq<Resource>)
    ensures ExecutionOrder(rs).Err? <==> HasCycle(Edges(rs))
  {
    if ExecutionOrder(rs).Err? {
      var c := StuckCycle(rs);
    } else {
      var out := ExecutionOrder(rs).value;
      ExtendOrdered(rs, []);
      OrderTopological(rs, out);
      forall p ensures !IsCycle(Edges(rs), p) {
        if IsCycle(Edges(rs), p) {
          CycleHasEdge(Edges(rs), p);
          TopologicalNoCycle(Edges(rs), out, p);
        }
      }
    }
  }

  // ----- the loops of graph.rs -----

  // Ids of the resources that could not be placed, in declaration order.
  function StuckIds(rs: seq<Resource>, out: seq<nat>, n: nat): seq<string>
    requires n <= |rs|
  {
    if n == 0 then []
    else StuckIds(rs, out, n - 1) + if n - 1 in out then [] else [rs[n - 1].id]
  }

  // A resource with this id was not placed.
  predicate LeftOut(rs: seq<Resource>, out: seq<nat>, n: nat, id: string)
    requires n <= |rs|
  {
    exists i :: 0 <= i < n && i !in out && rs[i].id == id
  }

  lemma {:induction false} StuckIdsAre(rs: seq<Resource>, out: seq<nat>, n: nat, id: string)
    requires n <= |rs|
    ensures id in StuckIds(rs, out, n) <==> LeftOut(rs, out, n, id)
  {
    if n > 0 {
      StuckIdsAre(rs, out, n - 1, id);
    }
  }

  // What is left unplaced, and reported as the cycle, are the resources from which a
  // dependency cycle can be reached.
  lemma StuckExactly(rs: seq<Resource>, i: nat)
    requires ExecutionOrder(rs).Err? && i < |rs|
    ensures i !in ExecutionOrder(rs).error <==> ReachesCycle(Edges(rs), i)
  {
    var out := ExecutionOrder(rs).error;
    ExtendOrdered(rs, []);
    if i in out {
      OrderTopological(rs, out);
      ListedReachesNone(Edges(rs), out, i);
    } else {
      StuckReaches(Edges(rs), Blockers(rs, out), i);
    }
  }

  // From a resource with this id a cycle can be reached.
  ghost predicate BehindCycle(rs: seq<Resource>, id: string) {
    exists i: nat :: Behind(rs, i) && rs[i].id == id
  }

  ghost predicate Behind(rs: seq<Resource>, i: nat) {
    i < |rs| && ReachesCycle(Edges(rs), i)
  }

  // The ids a failed order reports.
  lemma StuckIdsExactly(rs: seq<Resource>, id: string)
    requires ExecutionOrder(rs).Err?
    ensures id in StuckIds(rs, ExecutionOrder(rs).error, |rs|) <==> BehindCycle(rs, id)
  {
    var out := ExecutionOrder(rs).error;
    StuckIdsAre(rs, out, |rs|, id);
    if LeftOut(rs, out, |rs|, id) {
      var i: nat :| i < |rs| && i !in out && rs[i].id == id;
      StuckExactly(rs, i);
    }
    if BehindCycle(rs, id) {
      var i: nat :| Behind(rs, i) && rs[i].id == id;
      StuckExactly(rs, i);
      assert LeftOut(rs, out, |rs|, id);
    }
  }

  // Every resource left unplaced is on a cycle of its own.
  ghost predicate OnlyCycles(rs: seq<Resource>, placed: seq<nat>) {
    forall i: nat :: i < |rs| && i !in placed ==> OnCycle(Edges(rs), i)
  }

  // Nothing off every cycle waits for what is left unplaced.
  ghost predicate NothingWaits(rs: seq<Resource>, placed: seq<nat>) {
    forall j: nat, i: nat :: j < |rs| && i < |rs| && (j, i) in Edges(rs) && !OnCycle(Edges(rs), j) ==> i in placed
  }

  // The report is of resources on cycles alone exactly when nothing else waits for one of them.
  lemma ReportOfCycles(rs: seq<Resource>)
    requires ExecutionOrder(rs).Err?
    ensures OnlyCycles(rs, ExecutionOrder(rs).error) <==> NothingWaits(rs, ExecutionOrder(rs).error)
  {
    var placed := ExecutionOrder(rs).error;
    if OnlyCycles(rs, placed) {
      forall j: nat, i: nat | j < |rs| && i < |rs| && (j, i) in Edges(rs) && !OnCycle(Edges(rs), j)
        ensures i in placed
      {
        NoWaiter(rs, j, i);
      }
    }
    if NothingWaits(rs, placed) {
      forall i: nat | i < |rs| && i !in placed ensures OnCycle(Edges(rs), i) {
        StuckOnCycle(rs, i);
      }
    }
  }

  lemma NoWaiter(rs: seq<Resource>, j: nat, i: nat)
    requires ExecutionOrder(rs).Err? && OnlyCycles(rs, ExecutionOrder(rs).error)
    requires j < |rs| && i < |rs| && (j, i) in Edges(rs) && !OnCycle(Edges(rs), j)
    ensures i in ExecutionOrder(rs).error
  {
    StuckExactly(rs, i);
    StuckExactly(rs, j);
    if ReachesCycle(Edges(rs), i) {
      StepReaches(Edges(rs), j, i);
    }
  }

  lemma StuckOnCycle(rs: seq<Resource>, i: nat)
    requires ExecutionOrder(rs).Err? && NothingWaits(rs, ExecutionOrder(rs).error)
    requires i < |rs| && i !in ExecutionOrder(rs).error
    ensures OnCycle(Edges(rs), i)
  {
    StuckExactly(rs, i);
    if !OnCycle(Edges(rs), i) {
      var b := NextReaches(Edges(rs), i);
      StuckExactly(rs, b);
    }
  }

  function Waiting(id: string, on: string): Resource {
    Resource(id, Https, "https://example.org/", None, true, 0, [on], [], None)
  }

  // Two resources that wait for each other, and one that waits for the first.
  const TANGLE := [Waiting("a", "b"), Waiting("b", "a"), Waiting("c", "a")]

  lemma TangleDeps()
    ensures Deps(TANGLE, 0) == [1] && Deps(TANGLE, 1) == [0] && Deps(TANGLE, 2) == [0]
  {
    assert ["a"][..0] == [] && ["b"][..0] == [];
    assert IndexOf(TANGLE, "a") == Some(0);
    assert IndexOf(TANGLE, "b") == Some(1);
  }

  lemma TangleStuck()
    ensures ExecutionOrder(TANGLE) == Err([])
  {
    TangleDeps();
    assert !Ready(TANGLE, [], 0) && !Ready(TANGLE, [], 1) && !Ready(TANGLE, [], 2);
    assert Pick(TANGLE, [], 3) == None;
  }

  // The ids reported need not be a cycle: the third resource is on none.
  lemma StuckNoCycle()
    ensures ExecutionOrder(TANGLE).Err? && "c" in StuckIds(TANGLE, ExecutionOrder(TANGLE).error, |TANGLE|)
    ensures forall c :: IsCycle(Edges(TANGLE), c) ==> c[0] != 2
  {
    TangleStuck();
    assert LeftOut(TANGLE, [], 3, "c") by {
      assert TANGLE[2].id == "c";
    }
    StuckIdsAre(TANGLE, [], 3, "c");
    forall c | IsCycle(Edges(TANGLE), c) ensures c[0] != 2 {
      NoneOnThird(c);
    }
  }

  lemma NoneOnThird(c: seq<nat>)
    requires IsCycle(Edges(TANGLE), c)
    ensures c[0] != 2
  {
    TangleDeps();
    var n := |c| - 2;
    assert (c[n], c[n + 1]) in Edges(TANGLE);
    assert c[n + 1] in Deps(TANGLE, c[n]);
  }

  method DependencyLists(rs: seq<Resource>) returns (deps: array<seq<nat>>)
    ensures fresh(deps) && deps.Length == |rs|
    ensures forall i :: 0 <= i < |rs| ==> deps[i] == Deps(rs, i)
  {
    deps := new seq<nat>[|rs|](_ => []);
    for i := 0 to |rs|
      invariant forall k :: 0 <= k < i ==> deps[k] == Deps(rs, k)
      invariant forall k :: i <= k < |rs| ==> deps[k] == []
    {
      var names := rs[i].dependsOn;
      for d := 0 to |names|
        invariant deps[i] == Targets(rs, i, names[..d])
        invariant forall k :: 0 <= k < i ==> deps[k] == Deps(rs, k)
        invariant forall k :: i < k < |rs| ==> deps[k] == []
      {
        assert names[..d + 1][..d] == names[..d];
        var j := IndexOf(rs, names[d]);
        if j.Some? && i != j.value {
          deps[i] := deps[i] + [j.value];
        }
      }
      assert names[..|names|] == names;
    }
  }

  // Smallest (order, index) among the indices whose dependencies are done.
  method Scan(rs: seq<Resource>, deps: array<seq<nat>>, done: array<bool>, ghost out: seq<nat>)
    returns (pick: Option<nat>)
    requires deps.Length == done.Length == |rs|
    requires forall i :: 0 <= i < |rs| ==> deps[i] == Deps(rs, i)
    requires forall i :: 0 <= i < |rs| ==> (done[i] <==> i in out)
    ensures pick == Pick(rs, out, |rs|)
  {
    pick := None;
    for i := 0 to |rs|
      invariant pick == Pick(rs, out, i)
    {
      var ds := deps[i];
      var ready := !done[i] && forall k :: 0 <= k < |ds| ==> done[ds[k]];
      assert ready == Ready(rs, out, i);
      if ready {
        if pick.None? || Before(rs, i, pick.value) {
          pick := Some(i);
        }
      }
    }
  }

  method CollectStuck(rs: seq<Resource>, done: array<bool>, ghost out: seq<nat>) returns (stuck: seq<string>)
    requires done.Length == |rs|
    requires forall i :: 0 <= i < |rs| ==> (done[i] <==> i in out)
    ensures stuck == StuckIds(rs, out, |rs|)
  {
    stuck := [];
    for i := 0 to |rs|
      invariant stuck == StuckIds(rs, out, i)
    {
      if !done[i] {
        stuck := stuck + [rs[i].id];
      }
    }
  }

  // `execution_order`: the indices in dispatch order, or the ids stuck in a cycle.
  method ComputeOrder(rs: seq<Resource>) returns (r: Result<seq<nat>, seq<string>>)
    ensures ExecutionOrder(rs).Ok? ==> r == Ok(ExecutionOrder(rs).value)
    ensures ExecutionOrder(rs).Err? ==> r == Err(StuckIds(rs, ExecutionOrder(rs).error, |rs|))
  {
    var deps := DependencyLists(rs);
    var done := new bool[|rs|](_ => false);
    var out: seq<nat> := [];
    while |out| < |rs|
      invariant Extend(rs, out) == ExecutionOrder(rs)
      invariant forall i :: 0 <= i < |rs| ==> deps[i] == Deps(rs, i)
      invariant forall i :: 0 <= i < |rs| ==> (done[i] <==> i in out)
      decreases |rs| - |out|
    {
      var pick := Scan(rs, deps, done, out);
      match pick {
        case Some(i) =>
          done[i] := true;
          out := out + [i];
        case None =>
          var stuck := CollectStuck(rs, done, out);
          return Err(stuck);
      }
    }
    return Ok(out);
  }
}
