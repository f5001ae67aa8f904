/**
 The bound on planned resources. It is checked before duplicates are dropped, so a
 resource that would not be planned can exceed it; what exactly exceeds it is told
 from the walk over the documents.
 */
module ResolverTotals {
  import opened Wrappers
  import opened MurlScheme
  import opened Manifest
  import opened Graph
  import opened Store
  import opened Resolver
  import opened ResolverInvariants
  import opened ResolverPlan
  import opened ResolverTrail
  import opened ResolverSelection

  function Here(x: Step): seq<Item> {
    if x.Leaf? then [x.item] else []
  }

  // The dispatchable resources of a walk, duplicates and all.
  function Leaves(steps: seq<Step>): seq<Item> {
    if steps == [] then [] else Here(steps[0]) + Leaves(steps[1..])
  }

  lemma {:induction false} LeavesConcat(a: seq<Step>, b: seq<Step>)
    ensures Leaves(a + b) == Leaves(a) + Leaves(b)
  {
    if a == [] {
      assert a + b == b;
    } else {
      var first, tail := Here(a[0]), a[1..];
      assert (a + b)[1..] == tail + b && (a + b)[0] == a[0];
      LeavesConcat(tail, b);
      Regroup(first, Leaves(tail), Leaves(b));
    }
  }

  lemma Regroup(a: seq<Item>, b: seq<Item>, c: seq<Item>)
    ensures a + (b + c) == (a + b) + c
  {
  }

  lemma LeavesStep(x: Step, rest: seq<Step>)
    ensures Leaves([x] + rest) == Here(x) + Leaves(rest)
  {
    assert ([x] + rest)[1..] == rest;
  }

  // Every one of the leaves is met with fewer planned than the total, `items` being planned before.
  predicate Room(items: seq<Item>, leaves: seq<Item>, total: nat)
    decreases |leaves|
  {
    leaves != [] ==> |items| < total && Room(Absorb(items, leaves[0]), leaves[1..], total)
  }

  lemma {:induction false} RoomConcat(items: seq<Item>, a: seq<Item>, b: seq<Item>, total: nat)
    ensures Room(items, a + b, total) <==> Room(items, a, total) && Room(Merge(items, a), b, total)
    decreases |a|
  {
    if a == [] {
      assert a + b == b;
    } else {
      assert (a + b)[1..] == a[1..] + b;
      RoomConcat(Absorb(items, a[0]), a[1..], b, total);
    }
  }

  // ----- the walk plans its leaves -----

  lemma NextPlan(w: World, lim: Limits, st: State, fr: Frame, k: nat, st1: State)
    requires fr.At(lim, k) && k < |fr.order| && PlanKept(lim, st) && Rooted(st, fr)
    requires OneRound(w, lim, st, fr, fr.doc.resources[fr.order[k]]) == Next(st1)
    ensures View(st1.plan) == Merge(View(st.plan), Here(StepAt(fr, k)))
    ensures PlanKept(lim, st1) && Rooted(st1, fr)
  {
    var r := fr.doc.resources[fr.order[k]];
    RoundPlan(w, lim, st, fr, r);
    if r.kind.Nested? {
      NestedRound(w, lim, st, fr, r);
    } else {
      LeafRound(w, lim, st, fr, r);
      assert Merge(View(st.plan), [Item(r, fr.Anchor(r))]) == Absorb(View(st.plan), Item(r, fr.Anchor(r)));
    }
  }

  lemma IntoPlan(w: World, lim: Limits, st: State, fr: Frame, r: Resource, st2: State, inner: Frame, id: string)
    requires fr.Valid(lim) && r in fr.doc.resources && PlanKept(lim, st) && Rooted(st, fr)
    requires OneRound(w, lim, st, fr, r) == Into(st2, inner, id)
    ensures PlanKept(lim, st2) && Rooted(st2, inner) && st2.plan == st.plan && st.nodes <= st2.nodes && r.kind.Nested?
  {
    RoundPlan(w, lim, st, fr, r);
    NestedRound(w, lim, st, fr, r);
  }

  lemma LeavePlan(w: World, lim: Limits, st: State, fr: Frame, st2: State, inner: Frame, id: string)
    requires inner.At(lim, 0) && PlanKept(lim, st2) && Rooted(st2, inner) && Splice(w, lim, st2, inner, 0).Done?
    requires Rooted(st, fr) && st.nodes <= st2.nodes
    ensures var st4 := Leave(Splice(w, lim, st2, inner, 0).st, id); PlanKept(lim, st4) && Rooted(st4, fr)
  {
    SplicePlanKept(w, lim, st2, inner, 0);
    var st3 := Splice(w, lim, st2, inner, 0).st;
    PlanKeptMoreNodes(lim, st3, Leave(st3, id));
  }

  lemma MergeParts(items: seq<Item>, x: Step, below: seq<Step>, rest: seq<Step>)
    requires !x.Leaf?
    ensures Merge(items, Leaves([x] + below + rest)) == Merge(Merge(items, Leaves(below)), Leaves(rest))
  {
    LeavesConcat([x] + below, rest);
    LeavesStep(x, below);
    assert [] + Leaves(below) == Leaves(below);
    MergeConcat(items, Leaves(below), Leaves(rest));
  }

  lemma MergeNext(items: seq<Item>, x: Step, rest: seq<Step>)
    ensures Merge(items, Leaves([x] + rest)) == Merge(Merge(items, Here(x)), Leaves(rest))
  {
    LeavesStep(x, rest);
    MergeConcat(items, Here(x), Leaves(rest));
  }

  // The plan is merged from the leaves of the walk.
  lemma {:induction false} SpliceLeaves(w: World, lim: Limits, st: State, fr: Frame, k: nat, seen: set<string>)
    requires fr.At(lim, k) && InOrder(fr.doc, fr.order) && Seen(st, seen) && PlanKept(lim, st) && Rooted(st, fr)
    requires Splice(w, lim, st, fr, k).Done?
    ensures FrameTrail(w, lim, fr, k, seen).Some?
    ensures View(Splice(w, lim, st, fr, k).st.plan) ==
            Merge(View(st.plan), Leaves(FrameTrail(w, lim, fr, k, seen).value.steps))
    decreases lim.maxDepth - fr.depth, |fr.order| - k
  {
    if k < |fr.order| {
      var r, next := fr.doc.resources[fr.order[k]], k + 1;
      SpliceTrail(w, lim, st, fr, k, seen);
      match OneRound(w, lim, st, fr, r) {
        case Next(st1) =>
          NextTrail(w, lim, st, fr, k, seen, st1);
          NextPlan(w, lim, st, fr, k, st1);
          SpliceLeaves(w, lim, st1, fr, next, seen);
          MergeNext(View(st.plan), StepAt(fr, k), FrameTrail(w, lim, fr, next, seen).value.steps);
        case Into(st2, inner, id) =>
          var met := seen + {id};
          var below, rest, st4 := NestedTrail(w, lim, st, fr, k, seen, met, st2, inner, id);
          IntoPlan(w, lim, st, fr, r, st2, inner, id);
          LeavePlan(w, lim, st, fr, st2, inner, id);
          SpliceLeaves(w, lim, st2, inner, 0, met);
          SpliceLeaves(w, lim, st4, fr, next, below.seen);
          MergeParts(View(st.plan), StepAt(fr, k), below.steps, rest.steps);
      }
    }
  }

  // ----- the same run under another total -----

  predicate SameButTotal(big: Limits, lim: Limits) {
    lim == big.(maxTotalResources := lim.maxTotalResources)
  }

  lemma ArriveSame(w: World, big: Limits, lim: Limits, st: State, m: Murl, depth: nat, anchor: Option<string>,
                   pin: Option<string>)
    requires SameButTotal(big, lim) && depth <= big.maxDepth
    ensures Arrive(w, lim, st, m, depth, anchor, pin) == Arrive(w, big, st, m, depth, anchor, pin)
  {
    assert Locate(w, lim, m) == Locate(w, big, m);
  }

  // Only planning looks at the total.
  lemma NestedSame(w: World, big: Limits, lim: Limits, st: State, fr: Frame, r: Resource)
    requires SameButTotal(big, lim) && fr.Valid(big) && r.kind.Nested?
    ensures fr.Valid(lim) && OneRound(w, lim, st, fr, r) == OneRound(w, big, st, fr, r)
  {
    var admitted, depth := Admit(big, st, fr, r, r.kind.child), fr.depth + 1;
    if admitted.Descend? {
      DescendRound(w, big, st, fr, r, admitted.st, depth);
      DescendRound(w, lim, st, fr, r, admitted.st, depth);
      ArriveSame(w, big, lim, admitted.st, r.kind.child, depth, Some(fr.Anchor(r)), r.integrity);
    }
  }

  lemma LeafSame(w: World, big: Limits, lim: Limits, st: State, fr: Frame, r: Resource)
    requires SameButTotal(big, lim) && fr.Valid(big) && !r.kind.Nested? && OneRound(w, big, st, fr, r).Next?
    ensures fr.Valid(lim)
    ensures |st.plan| < lim.maxTotalResources ==> OneRound(w, lim, st, fr, r) == OneRound(w, big, st, fr, r)
    ensures |st.plan| >= lim.maxTotalResources ==> OneRound(w, lim, st, fr, r) == Halt(TooManyResources, st.log)
  {
  }

  predicate TooMany(o: Outcome) {
    o.Stop? && o.error == TooManyResources
  }

  // `mine` is the outcome where `theirs` is it under the other total.
  predicate AsRoomSays(mine: Outcome, theirs: Outcome, room: bool) {
    if room then mine == theirs else TooMany(mine)
  }

  lemma RoomParts(items: seq<Item>, x: Step, below: seq<Step>, rest: seq<Step>, total: nat)
    requires !x.Leaf?
    ensures Room(items, Leaves([x] + below + rest), total) <==>
            Room(items, Leaves(below), total) && Room(Merge(items, Leaves(below)), Leaves(rest), total)
  {
    LeavesConcat([x] + below, rest);
    LeavesStep(x, below);
    assert [] + Leaves(below) == Leaves(below);
    RoomConcat(items, Leaves(below), Leaves(rest), total);
  }

  lemma RoomNext(items: seq<Item>, x: Step, rest: seq<Step>, total: nat)
    ensures Room(items, Leaves([x] + rest), total) <==>
            (x.Leaf? ==> |items| < total) && Room(Merge(items, Here(x)), Leaves(rest), total)
  {
    LeavesStep(x, rest);
    RoomConcat(items, Here(x), Leaves(rest), total);
  }

  ghost predicate Ready(w: World, big: Limits, lim: Limits, st: State, fr: Frame, k: nat, seen: set<string>) {
    && SameButTotal(big, lim)
    && fr.At(big, k) && InOrder(fr.doc, fr.order) && Seen(st, seen) && PlanKept(big, st) && Rooted(st, fr)
    && Splice(w, big, st, fr, k).Done?
  }

  function StepsLeft(w: World, big: Limits, fr: Frame, k: nat, seen: set<string>): seq<Item>
    requires fr.At(big, k) && InOrder(fr.doc, fr.order)
  {
    var t := FrameTrail(w, big, fr, k, seen);
    if t.Some? then Leaves(t.value.steps) else []
  }

  // Under another total the loop ends as before when every leaf finds room, and with an
  // error about the total otherwise.
  lemma {:induction false} SpliceTotal(w: World, big: Limits, lim: Limits, st: State, fr: Frame, k: nat,
                                       seen: set<string>)
    requires Ready(w, big, lim, st, fr, k, seen)
    ensures fr.At(lim, k)
    ensures AsRoomSays(Splice(w, lim, st, fr, k), Splice(w, big, st, fr, k),
                       Room(View(st.plan), StepsLeft(w, big, fr, k, seen), lim.maxTotalResources))
    decreases big.maxDepth - fr.depth, |fr.order| - k
  {
    if k < |fr.order| {
      SpliceTrail(w, big, st, fr, k, seen);
      if OneRound(w, big, st, fr, fr.doc.resources[fr.order[k]]).Next? {
        NextTotal(w, big, lim, st, fr, k, seen);
      } else {
        IntoTotal(w, big, lim, st, fr, k, seen);
      }
    }
  }

  lemma {:induction false} NextTotal(w: World, big: Limits, lim: Limits, st: State, fr: Frame, k: nat,
                                     seen: set<string>)
    requires Ready(w, big, lim, st, fr, k, seen) && k < |fr.order|
    requires OneRound(w, big, st, fr, fr.doc.resources[fr.order[k]]).Next?
    ensures fr.At(lim, k)
    ensures AsRoomSays(Splice(w, lim, st, fr, k), Splice(w, big, st, fr, k),
                       Room(View(st.plan), StepsLeft(w, big, fr, k, seen), lim.maxTotalResources))
    decreases big.maxDepth - fr.depth, |fr.order| - k, 0
  {
    var r, next := fr.doc.resources[fr.order[k]], k + 1;
    var st1 := OneRound(w, big, st, fr, r).st;
    NextTrail(w, big, st, fr, k, seen, st1);
    NextPlan(w, big, st, fr, k, st1);
    SpliceTrail(w, big, st1, fr, next, seen);
    RoomNext(View(st.plan), StepAt(fr, k), FrameTrail(w, big, fr, next, seen).value.steps, lim.maxTotalResources);
    if r.kind.Nested? {
      NestedSame(w, big, lim, st, fr, r);
    } else {
      LeafSame(w, big, lim, st, fr, r);
    }
    SpliceTotal(w, big, lim, st1, fr, next, seen);
  }

  // A round into a nested manifest splits the leaves that are left, and the room for them.
  lemma IntoReady(w: World, big: Limits, lim: Limits, st: State, fr: Frame, k: nat, seen: set<string>,
                  st2: State, inner: Frame, id: string, met: set<string>) returns (st4: State, seen4: set<string>)
    requires Ready(w, big, lim, st, fr, k, seen) && k < |fr.order| && met == seen + {id}
    requires OneRound(w, big, st, fr, fr.doc.resources[fr.order[k]]) == Into(st2, inner, id)
    ensures Ready(w, big, lim, st2, inner, 0, met) && inner.depth == fr.depth + 1 && st2.plan == st.plan
    ensures Ready(w, big, lim, st4, fr, k + 1, seen4) && st4 == Leave(Splice(w, big, st2, inner, 0).st, id)
    ensures Splice(w, big, st, fr, k) == Splice(w, big, st4, fr, k + 1)
    ensures Room(View(st.plan), StepsLeft(w, big, fr, k, seen), lim.maxTotalResources) <==>
            && Room(View(st2.plan), StepsLeft(w, big, inner, 0, met), lim.maxTotalResources)
            && Room(View(st4.plan), StepsLeft(w, big, fr, k + 1, seen4), lim.maxTotalResources)
  {
    var below, rest, st5 := NestedTrail(w, big, st, fr, k, seen, met, st2, inner, id);
    st4, seen4 := st5, below.seen;
    IntoPlan(w, big, st, fr, fr.doc.resources[fr.order[k]], st2, inner, id);
    LeavePlan(w, big, st, fr, st2, inner, id);
    SpliceLeaves(w, big, st2, inner, 0, met);
    RoomParts(View(st.plan), StepAt(fr, k), below.steps, rest.steps, lim.maxTotalResources);
  }

  // What the outcomes inside and after a nested manifest amount to.
  lemma IntoOutcome(w: World, big: Limits, lim: Limits, st: State, fr: Frame, k: nat,
                    st2: State, inner: Frame, id: string, st4: State, inside: bool, after: bool)
    requires SameButTotal(big, lim) && fr.At(big, k) && k < |fr.order| && inner.At(big, 0)
    requires OneRound(w, big, st, fr, fr.doc.resources[fr.order[k]]) == Into(st2, inner, id)
    requires Splice(w, big, st2, inner, 0).Done? && st4 == Leave(Splice(w, big, st2, inner, 0).st, id)
    requires AsRoomSays(Splice(w, lim, st2, inner, 0), Splice(w, big, st2, inner, 0), inside)
    requires AsRoomSays(Splice(w, lim, st4, fr, k + 1), Splice(w, big, st4, fr, k + 1), after)
    ensures fr.At(lim, k)
    ensures AsRoomSays(Splice(w, lim, st, fr, k), Splice(w, big, st4, fr, k + 1), inside && after)
  {
    NestedSame(w, big, lim, st, fr, fr.doc.resources[fr.order[k]]);
  }

  lemma {:induction false} IntoTotal(w: World, big: Limits, lim: Limits, st: State, fr: Frame, k: nat,
                                     seen: set<string>)
    requires Ready(w, big, lim, st, fr, k, seen) && k < |fr.order|
    requires OneRound(w, big, st, fr, fr.doc.resources[fr.order[k]]).Into?
    ensures fr.At(lim, k)
    ensures AsRoomSays(Splice(w, lim, st, fr, k), Splice(w, big, st, fr, k),
                       Room(View(st.plan), StepsLeft(w, big, fr, k, seen), lim.maxTotalResources))
    decreases big.maxDepth - fr.depth, |fr.order| - k, 0
  {
    var next, total := k + 1, lim.maxTotalResources;
    var Into(st2, inner, id) := OneRound(w, big, st, fr, fr.doc.resources[fr.order[k]]);
    var met := seen + {id};
    var st4, seen4 := IntoReady(w, big, lim, st, fr, k, seen, st2, inner, id, met);
    SpliceTotal(w, big, lim, st2, inner, 0, met);
    SpliceTotal(w, big, lim, st4, fr, next, seen4);
    IntoOutcome(w, big, lim, st, fr, k, st2, inner, id, st4,
                Room(View(st2.plan), StepsLeft(w, big, inner, 0, met), total),
                Room(View(st4.plan), StepsLeft(w, big, fr, next, seen4), total));
  }

  // ----- what there is room for -----

  // The last leaf met is a new one.
  predicate EndsNew(leaves: seq<Item>) {
    leaves != [] ==> !Present(leaves[..|leaves| - 1], KeyOf(leaves[|leaves| - 1].resource))
  }

  lemma {:induction false} FewAreRoom(leaves: seq<Item>, total: nat)
    requires |Firsts(leaves)| < total
    ensures Room([], leaves, total)
  {
    if leaves != [] {
      RoomBeforeLast(leaves, total);
      FewAreRoom(leaves[..|leaves| - 1], total);
    }
  }

  lemma RoomBeforeLast(leaves: seq<Item>, total: nat)
    requires leaves != []
    ensures var front := leaves[..|leaves| - 1];
      Room([], leaves, total) <==> Room([], front, total) && |Firsts(front)| < total
  {
    var n := |leaves| - 1;
    assert leaves == leaves[..n] + [leaves[n]];
    RoomConcat([], leaves[..n], [leaves[n]], total);
    MergeIsFirsts(leaves[..n]);
  }

  // There is room for fewer first occurrences than the total, or as many with the last leaf among them.
  lemma RoomExactly(leaves: seq<Item>, total: nat)
    ensures Room([], leaves, total) <==>
            |Firsts(leaves)| < total || (|Firsts(leaves)| == total && EndsNew(leaves))
  {
    if leaves != [] {
      RoomBeforeLast(leaves, total);
      var front := leaves[..|leaves| - 1];
      if |Firsts(front)| < total {
        FewAreRoom(front, total);
      }
    }
  }

  // ----- whole resolutions -----

  // The plan of a resolution fits another total exactly when it is smaller, or as large with
  // nothing dispatchable after its last entry, not even a duplicate.
  predicate Fits(plan: seq<Planned>, leaves: seq<Item>, total: nat) {
    |plan| < total || (|plan| == total && EndsNew(leaves))
  }

  lemma RootTotal(w: World, big: Limits, lim: Limits, st: State, fr: Frame, seen: set<string>)
    requires SameButTotal(big, lim) && fr.At(big, 0) && InOrder(fr.doc, fr.order) && Seen(st, seen)
    requires st.plan == [] && st.dedup == {} && Rooted(st, fr) && Splice(w, big, st, fr, 0).Done?
    ensures FrameTrail(w, big, fr, 0, seen).Some? && fr.At(lim, 0)
    ensures var leaves := Leaves(FrameTrail(w, big, fr, 0, seen).value.steps);
      var plan := Splice(w, big, st, fr, 0).st.plan;
      && View(plan) == Firsts(leaves)
      && AsRoomSays(Splice(w, lim, st, fr, 0), Splice(w, big, st, fr, 0), Fits(plan, leaves, lim.maxTotalResources))
  {
    assert PlanKept(big, st);
    SpliceLeaves(w, big, st, fr, 0, seen);
    SpliceTotal(w, big, lim, st, fr, 0, seen);
    var leaves := Leaves(FrameTrail(w, big, fr, 0, seen).value.steps);
    assert View(st.plan) == [];
    MergeIsFirsts(leaves);
    RoomExactly(leaves, lim.maxTotalResources);
  }

  // A name that resolves under one total resolves under another exactly when its plan fits
  // it, and to the same; otherwise the error is about the total.
  lemma TotalExactly(w: World, big: Limits, lim: Limits, m: Murl)
    requires SameButTotal(big, lim) && ResolveName(w, big, m).Done?
    ensures NameTrail(w, big, m).Some?
    ensures var leaves := Leaves(NameTrail(w, big, m).value.steps);
      var before, now := ResolveName(w, big, m), ResolveName(w, lim, m);
      && View(before.st.plan) == Firsts(leaves)
      && (now.Done? <==> Fits(before.st.plan, leaves, lim.maxTotalResources))
      && (now.Done? ==> now == before)
      && (now.Stop? ==> now.error == TooManyResources)
  {
    var st, fr := NameRoot(w, big, m);
    ArriveSame(w, big, lim, EMPTY_STATE.(stack := [Identity(m)]), m, 0, None, None);
    RootTotal(w, big, lim, st, fr, {Identity(m)});
  }

  lemma FileTotalExactly(w: World, big: Limits, lim: Limits, path: string, bytes: string)
    requires SameButTotal(big, lim) && ResolveFile(w, big, path, bytes).Done?
    ensures FileTrail(w, big, bytes).Some?
    ensures var leaves := Leaves(FileTrail(w, big, bytes).value.steps);
      var before, now := ResolveFile(w, big, path, bytes), ResolveFile(w, lim, path, bytes);
      && View(before.st.plan) == Firsts(leaves)
      && (now.Done? <==> Fits(before.st.plan, leaves, lim.maxTotalResources))
      && (now.Done? ==> now == before)
      && (now.Stop? ==> now.error == TooManyResources)
  {
    var st, fr := FileRoot(w, big, path, bytes);
    assert Open(w, lim, EMPTY_STATE, None, bytes, FromFile(path), 0, None) ==
           Open(w, big, EMPTY_STATE, None, bytes, FromFile(path), 0, None);
    RootTotal(w, big, lim, st, fr, {});
  }

  // One page listed twice is one entry of the plan, and yet refused where one entry is allowed.
  lemma DuplicateRefused(m: Murl)
    requires m.authority.Local?
    ensures var o := ResolveName(TwinWorld(m), SMALL_LIMITS, m); o.Done? && |o.st.plan| == 1
    ensures var o := ResolveName(TwinWorld(m), SMALL_LIMITS.(maxTotalResources := 1), m);
      o.Stop? && o.error == TooManyResources
  {
    var w, one := TwinWorld(m), SMALL_LIMITS.(maxTotalResources := 1);
    var st, fr := TwinArrives(m);
    TwinPlan(m, st, fr);
    ArriveSame(w, SMALL_LIMITS, one, EMPTY_STATE.(stack := [Identity(m)]), m, 0, None, None);
    var first := OneRound(w, one, st, fr, Page("a"));
    assert first.Next? && |first.st.plan| == 1;
    assert OneRound(w, one, first.st, fr, Page("b")) == Halt(TooManyResources, first.st.log);
    assert Splice(w, one, first.st, fr, 1) == Stop(TooManyResources, first.st.log);
  }

  // ----- how many manifests -----

  function Identities(log: seq<Murl>): seq<string> {
    seq(|log|, i requires 0 <= i < |log| => Identity(log[i]))
  }

  lemma {:induction false} DistinctCount(ids: seq<string>)
    requires forall i, j :: 0 <= i < j < |ids| ==> ids[i] != ids[j]
    ensures |set s | s in ids| == |ids|
  {
    if ids != [] {
      var n := |ids| - 1;
      DistinctCount(ids[..n]);
      assert ids == ids[..n] + [ids[n]];
      assert (set s | s in ids) == (set s | s in ids[..n]) + {ids[n]};
    }
  }

  lemma LoggedIdentities(log: seq<Murl>, id: string)
    ensures id in Identities(log) <==> Logged(log, id)
  {
    if i :| 0 <= i < |log| && Identity(log[i]) == id {
      assert Identities(log)[i] == id;
    }
  }

  lemma NamesCount(lim: Limits, files: nat, st: State, seen: set<string>)
    requires Names(lim, files, st) && Seen(st, seen)
    ensures |seen| == st.manifests
  {
    var ids := Identities(st.log);
    forall id ensures id in seen <==> id in ids {
      LoggedIdentities(st.log, id);
    }
    assert seen == set s | s in ids;
    DistinctCount(ids);
  }

  // A named resolution has one manifest for each identity its walk met.
  lemma NameManifests(w: World, lim: Limits, m: Murl)
    requires ResolveName(w, lim, m).Done?
    ensures NameTrail(w, lim, m).Some?
    ensures |ResolveName(w, lim, m).st.nodes| == |NameTrail(w, lim, m).value.seen| <= lim.maxNestedManifests
  {
    var st, fr := NameRoot(w, lim, m);
    ResolveNameKeeps(w, lim, m);
    SpliceTrail(w, lim, st, fr, 0, {Identity(m)});
    NamesCount(lim, 0, ResolveName(w, lim, m).st, NameTrail(w, lim, m).value.seen);
  }

  // A file has one more, and so exceeds the bound exactly when it leads to as many names as
  // the bound allows.
  lemma FileManifests(w: World, lim: Limits, path: string, bytes: string)
    requires ResolveFile(w, lim, path, bytes).Done?
    ensures FileTrail(w, lim, bytes).Some?
    ensures var met := |FileTrail(w, lim, bytes).value.seen|;
      && |ResolveFile(w, lim, path, bytes).st.nodes| == met + 1
      && (|ResolveFile(w, lim, path, bytes).st.nodes| > lim.maxNestedManifests <==> met == lim.maxNestedManifests)
  {
    var st, fr := FileRoot(w, lim, path, bytes);
    ResolveFileKeeps(w, lim, path, bytes);
    SpliceTrail(w, lim, st, fr, 0, {});
    NamesCount(lim, 1, ResolveFile(w, lim, path, bytes).st, FileTrail(w, lim, bytes).value.seen);
  }
}
