/**
 The resolver's cycle check is sound and complete: a `Cycle` error shows a real
 closed path of nested manifests, and after a success no cycle can be reached.
 */
module ResolverCycles {
  import opened Wrappers
  import opened MurlScheme
  import opened MurlRoundTrip
  import opened Manifest
  import opened Walks
  import opened Graph
  import opened Store
  import opened Resolver
  import opened ResolverInvariants
  import opened ResolverPlan

  // ----- the nesting relation on identities -----

  // The manifest that `m` leads to nests `child`.
  predicate NestsChild(w: World, lim: Limits, m: Murl, child: Murl) {
    && ManifestOf(w, lim, m).Some?
    && exists i :: 0 <= i < |ManifestOf(w, lim, m).value.0.resources|
         && ManifestOf(w, lim, m).value.0.resources[i].kind == Nested(child)
  }

  ghost predicate Nests(w: World, lim: Limits, a: string, b: string) {
    exists m, child :: Valid(m) && Identity(m) == a && Identity(child) == b && NestsChild(w, lim, m, child)
  }

  ghost function Nesting(w: World, lim: Limits): iset<(string, string)> {
    iset a, b | Nests(w, lim, a, b) :: (a, b)
  }

  // An edge set that has every nesting step.
  ghost predicate Contains(w: World, lim: Limits, edges: iset<(string, string)>) {
    forall m, child :: Valid(m) && NestsChild(w, lim, m, child) ==> (Identity(m), Identity(child)) in edges
  }

  lemma NestingContains(w: World, lim: Limits)
    ensures Contains(w, lim, Nesting(w, lim))
  {
    forall m, child | Valid(m) && NestsChild(w, lim, m, child)
      ensures (Identity(m), Identity(child)) in Nesting(w, lim)
    {
      assert Nests(w, lim, Identity(m), Identity(child));
    }
  }

  // ----- soundness -----

  ghost predicate Climbs(edges: iset<(string, string)>, stack: seq<string>) {
    forall i :: 0 <= i < |stack| - 1 ==> (stack[i], stack[i + 1]) in edges
  }

  // The end of the stack, if there is one, leads to `id`.
  ghost predicate Reaches(edges: iset<(string, string)>, stack: seq<string>, id: string) {
    stack != [] ==> (stack[|stack| - 1], id) in edges
  }

  // The stack is a path of nested manifests ending at the frame's own.
  ghost predicate Path(w: World, lim: Limits, edges: iset<(string, string)>, st: State, fr: Frame) {
    && Climbs(edges, st.stack)
    && (fr.name.Some? ==>
          && st.stack != [] && st.stack[|st.stack| - 1] == Identity(fr.name.value)
          && Valid(fr.name.value) && ManifestOf(w, lim, fr.name.value) == Some((fr.doc, fr.order)))
    && (fr.name.None? ==> st.stack == [])
  }

  // The frame's manifest nests its nested resources.
  lemma FrameStep(w: World, lim: Limits, edges: iset<(string, string)>, st: State, fr: Frame, k: nat, id: string)
    requires fr.At(lim, k) && FrameKept(fr) && k < |fr.order| && Path(w, lim, edges, st, fr)
    requires Contains(w, lim, edges) && fr.doc.resources[fr.order[k]].kind.Nested?
    requires id == Identity(fr.doc.resources[fr.order[k]].kind.child)
    ensures Valid(fr.doc.resources[fr.order[k]].kind.child)
    ensures Reaches(edges, st.stack, id)
  {
    var child := fr.doc.resources[fr.order[k]].kind.child;
    if fr.name.Some? {
      assert NestsChild(w, lim, fr.name.value, child);
    }
  }

  lemma ClimbMore(edges: iset<(string, string)>, stack: seq<string>, id: string)
    requires Climbs(edges, stack) && Reaches(edges, stack, id)
    ensures Climbs(edges, stack + [id])
  {
  }

  lemma PathInto(w: World, lim: Limits, edges: iset<(string, string)>, st: State, fr: Frame, st2: State,
                 inner: Frame, child: Murl, id: string)
    requires Path(w, lim, edges, st, fr) && Reaches(edges, st.stack, id)
    requires Valid(child) && id == Identity(child) && st2.stack == st.stack + [id]
    requires inner.name == Some(child) && ManifestOf(w, lim, child) == Some((inner.doc, inner.order))
    ensures Path(w, lim, edges, st2, inner)
  {
    ClimbMore(edges, st.stack, id);
  }

  // A closed path: the stack from an occurrence of the identity on, and back to it.
  ghost predicate ClosedPath(edges: iset<(string, string)>, stack: seq<string>, id: string) {
    exists j :: 0 <= j < |stack| && stack[j] == id && IsCycle(edges, stack[j..] + [id])
  }

  lemma CloseStack(edges: iset<(string, string)>, stack: seq<string>, id: string)
    requires Climbs(edges, stack) && id in stack && Reaches(edges, stack, id)
    ensures ClosedPath(edges, stack, id)
  {
    var j :| 0 <= j < |stack| && stack[j] == id;
    ClimbMore(edges, stack, id);
    var more := stack + [id];
    assert IsWalk(edges, more);
    SubWalk(edges, more, j, |more|);
    assert more[j..|more|] == stack[j..] + [id];
    assert IsCycle(edges, stack[j..] + [id]);
  }

  // Only the cycle check refuses with a cycle, and it does so for an identity on the stack.
  lemma CycleRound(w: World, lim: Limits, st: State, fr: Frame, r: Resource, stack: seq<string>, id: string)
    requires fr.Valid(lim)
    requires OneRound(w, lim, st, fr, r).Halt? && OneRound(w, lim, st, fr, r).error == Cycle(stack, id)
    ensures r.kind.Nested? && stack == st.stack && id == Identity(r.kind.child) && id in stack
  {
  }

  // The invariants of a frame being spliced, together.
  ghost predicate Spliceable(w: World, lim: Limits, edges: iset<(string, string)>, files: nat, st: State, fr: Frame) {
    FrameKept(fr) && Names(lim, files, st) && Height(files, st, fr) && Path(w, lim, edges, st, fr)
  }

  lemma PathSameStack(w: World, lim: Limits, edges: iset<(string, string)>, st: State, st1: State, fr: Frame)
    requires Path(w, lim, edges, st, fr) && st1.stack == st.stack
    ensures Path(w, lim, edges, st1, fr)
  {
  }

  lemma RoundSpliceable(w: World, lim: Limits, edges: iset<(string, string)>, files: nat, st: State, fr: Frame, k: nat)
    requires Sound(w) && fr.At(lim, k) && k < |fr.order| && Contains(w, lim, edges)
    requires Spliceable(w, lim, edges, files, st, fr)
    ensures match OneRound(w, lim, st, fr, fr.doc.resources[fr.order[k]])
            case Halt(_, _) => true
            case Next(st1) => Spliceable(w, lim, edges, files, st1, fr)
            case Into(st2, inner, id) =>
              Spliceable(w, lim, edges, files, st2, inner) && st2.stack == st.stack + [id]
  {
    var r := fr.doc.resources[fr.order[k]];
    RoundNames(w, lim, files, st, fr, r);
    match OneRound(w, lim, st, fr, r) {
      case Halt(_, _) =>
      case Next(st1) => PathSameStack(w, lim, edges, st, st1, fr);
      case Into(st2, inner, id) =>
        InnerKept(w, lim, st, fr, r);
        NestedRound(w, lim, st, fr, r);
        FrameStep(w, lim, edges, st, fr, k, id);
        PathInto(w, lim, edges, st, fr, st2, inner, r.kind.child, id);
    }
  }

  lemma NestedSpliceable(w: World, lim: Limits, edges: iset<(string, string)>, files: nat, st: State, fr: Frame,
                         st2: State, inner: Frame, id: string)
    requires Spliceable(w, lim, edges, files, st, fr) && Spliceable(w, lim, edges, files, st2, inner)
    requires inner.At(lim, 0) && st2.stack == st.stack + [id] && Splice(w, lim, st2, inner, 0).Done?
    ensures Spliceable(w, lim, edges, files, Leave(Splice(w, lim, st2, inner, 0).st, id), fr)
  {
    var st3 := Splice(w, lim, st2, inner, 0).st;
    SpliceNames(w, lim, files, st2, inner, 0);
    NamesLeave(lim, files, st3, st.stack, id);
    PathSameStack(w, lim, edges, st, Leave(st3, id), fr);
  }

  // A round that ends in a cycle error closes the path on the stack.
  lemma HaltCycle(w: World, lim: Limits, edges: iset<(string, string)>, st: State, fr: Frame, k: nat,
                  stack: seq<string>, id: string)
    requires fr.At(lim, k) && k < |fr.order| && Contains(w, lim, edges)
    requires FrameKept(fr) && Path(w, lim, edges, st, fr)
    requires var round := OneRound(w, lim, st, fr, fr.doc.resources[fr.order[k]]);
      round.Halt? && round.error == Cycle(stack, id)
    ensures ClosedPath(edges, stack, id)
  {
    CycleRound(w, lim, st, fr, fr.doc.resources[fr.order[k]], stack, id);
    FrameStep(w, lim, edges, st, fr, k, id);
    CloseStack(edges, stack, id);
  }

  // Everything the induction over a frame's resources needs.
  ghost predicate Ready(w: World, lim: Limits, edges: iset<(string, string)>, files: nat,
                        st: State, fr: Frame, k: nat) {
    Sound(w) && fr.At(lim, k) && Contains(w, lim, edges) && Spliceable(w, lim, edges, files, st, fr)
  }

  lemma {:induction false} SpliceCycle(w: World, lim: Limits, edges: iset<(string, string)>, files: nat,
                                       st: State, fr: Frame, k: nat, stack: seq<string>, id: string)
    requires Ready(w, lim, edges, files, st, fr, k)
    requires StopsWith(Splice(w, lim, st, fr, k), stack, id)
    ensures ClosedPath(edges, stack, id)
    decreases lim.maxDepth - fr.depth, |fr.order| - k, 1
  {
    if k < |fr.order| {
      var round, next := OneRound(w, lim, st, fr, fr.doc.resources[fr.order[k]]), k + 1;
      RoundSpliceable(w, lim, edges, files, st, fr, k);
      if round.Halt? {
        HaltCycle(w, lim, edges, st, fr, k, stack, id);
      } else if round.Next? {
        SpliceNext(w, lim, st, fr, k, round.st);
        SpliceCycle(w, lim, edges, files, round.st, fr, next, stack, id);
      } else {
        SpliceInto(w, lim, st, fr, k, round.st, round.inner, round.id);
        IntoCycle(w, lim, edges, files, st, fr, next, stack, id, round.st, round.inner, round.id);
      }
    }
  }

  predicate StopsWith(o: Outcome, stack: seq<string>, id: string) {
    o.Stop? && o.error == Cycle(stack, id)
  }

  lemma {:induction false} IntoCycle(w: World, lim: Limits, edges: iset<(string, string)>, files: nat,
                                     st: State, fr: Frame, next: nat, stack: seq<string>, id: string,
                                     st2: State, inner: Frame, child: string)
    requires Ready(w, lim, edges, files, st, fr, next) && Ready(w, lim, edges, files, st2, inner, 0) && next > 0
    requires inner.depth == fr.depth + 1 && st2.stack == st.stack + [child]
    requires match Splice(w, lim, st2, inner, 0)
             case Stop(e, _) => e == Cycle(stack, id)
             case Done(st3) => StopsWith(Splice(w, lim, Leave(st3, child), fr, next), stack, id)
    ensures ClosedPath(edges, stack, id)
    decreases lim.maxDepth - fr.depth, |fr.order| - next + 1, 0
  {
    var nested := Splice(w, lim, st2, inner, 0);
    if nested.Stop? {
      SpliceCycle(w, lim, edges, files, st2, inner, 0, stack, id);
    } else {
      var st4 := Leave(nested.st, child);
      NestedSpliceable(w, lim, edges, files, st, fr, st2, inner, child);
      SpliceCycle(w, lim, edges, files, st4, fr, next, stack, id);
    }
  }

  // The root frame of a named resolution.
  lemma RootSpliceable(w: World, lim: Limits, edges: iset<(string, string)>, m: Murl, st: State, fr: Frame)
    requires Sound(w) && Valid(m)
    requires Arrive(w, lim, EMPTY_STATE.(stack := [Identity(m)]), m, 0, None, None) == Ok((st, fr))
    ensures Spliceable(w, lim, edges, 0, st, fr)
  {
    ArriveNames(w, lim, 0, EMPTY_STATE.(stack := [Identity(m)]), m, 0, None, None);
    RootDoc(w, lim, m);
    RootNames(w, lim, m, st, fr);
    assert Climbs(edges, st.stack);
  }

  lemma RootNames(w: World, lim: Limits, m: Murl, st: State, fr: Frame)
    requires Arrive(w, lim, EMPTY_STATE.(stack := [Identity(m)]), m, 0, None, None) == Ok((st, fr))
    ensures Names(lim, 0, st) && Height(0, st, fr)
  {
    ArriveNames(w, lim, 0, EMPTY_STATE.(stack := [Identity(m)]), m, 0, None, None);
    NamesEntered(lim, 0, EMPTY_STATE, st, m);
  }

  lemma RootDoc(w: World, lim: Limits, m: Murl)
    requires Sound(w) && Arrive(w, lim, EMPTY_STATE.(stack := [Identity(m)]), m, 0, None, None).Ok?
    ensures var fr := Arrive(w, lim, EMPTY_STATE.(stack := [Identity(m)]), m, 0, None, None).value.1;
      ManifestOf(w, lim, m) == Some((fr.doc, fr.order)) && FrameKept(fr)
  {
    assert w.decode(Locate(w, lim, m).value.bytes).value.WellFormed();
  }

  // Arriving at the root never reports a cycle itself.
  lemma CycleAfterArrival(w: World, lim: Limits, m: Murl, stack: seq<string>, id: string)
    requires ResolveName(w, lim, m).Stop? && ResolveName(w, lim, m).error == Cycle(stack, id)
    ensures Arrive(w, lim, EMPTY_STATE.(stack := [Identity(m)]), m, 0, None, None).Ok?
  {
  }

  // A cycle error names a real cycle of nested manifests.
  lemma CycleErrorSound(w: World, lim: Limits, m: Murl, stack: seq<string>, id: string)
    requires Sound(w) && Valid(m)
    requires ResolveName(w, lim, m).Stop? && ResolveName(w, lim, m).error == Cycle(stack, id)
    ensures ClosedPath(Nesting(w, lim), stack, id)
  {
    CycleAfterArrival(w, lim, m, stack, id);
    var (st, fr) := Arrive(w, lim, EMPTY_STATE.(stack := [Identity(m)]), m, 0, None, None).value;
    NestingContains(w, lim);
    RootSpliceable(w, lim, Nesting(w, lim), m, st, fr);
    SpliceCycle(w, lim, Nesting(w, lim), 0, st, fr, 0, stack, id);
  }

  // The root frame of an opened file.
  lemma FileSpliceable(w: World, lim: Limits, edges: iset<(string, string)>, path: string, bytes: string,
                       st: State, fr: Frame)
    requires Sound(w) && Open(w, lim, EMPTY_STATE, None, bytes, FromFile(path), 0, None) == Ok((st, fr))
    ensures fr.At(lim, 0) && Spliceable(w, lim, edges, 1, st, fr)
  {
  }

  lemma FileCycleErrorSound(w: World, lim: Limits, path: string, bytes: string, stack: seq<string>, id: string)
    requires Sound(w)
    requires ResolveFile(w, lim, path, bytes).Stop? && ResolveFile(w, lim, path, bytes).error == Cycle(stack, id)
    ensures ClosedPath(Nesting(w, lim), stack, id)
  {
    var (st, fr) := Open(w, lim, EMPTY_STATE, None, bytes, FromFile(path), 0, None).value;
    var edges := Nesting(w, lim);
    NestingContains(w, lim);
    FileSpliceable(w, lim, edges, path, bytes, st, fr);
    SpliceCycle(w, lim, edges, 1, st, fr, 0, stack, id);
  }

  // ----- completeness -----

  // What unfolds does so resource by resource.
  lemma UnfoldParts(w: World, lim: Limits, doc: Doc, order: seq<nat>, anchor: Option<string>, k: nat, fuel: nat)
    requires InOrder(doc, order) && k < |order| && UnfoldFrom(w, lim, doc, order, anchor, k, fuel).Some?
    ensures var r := doc.resources[order[k]];
      UnfoldOne(w, lim, r, if anchor.Some? then anchor.value else r.id, fuel).Some?
    ensures UnfoldFrom(w, lim, doc, order, anchor, k + 1, fuel).Some?
  {
  }

  // Where the unfolding is finite, every child unfolds with less fuel.
  lemma {:induction false} ChildUnfolds(w: World, lim: Limits, doc: Doc, order: seq<nat>, anchor: Option<string>,
                                        k: nat, at: nat, fuel: nat)
    requires InOrder(doc, order) && k <= at < |order|
    requires UnfoldFrom(w, lim, doc, order, anchor, k, fuel).Some?
    requires doc.resources[order[at]].kind.Nested?
    ensures var r := doc.resources[order[at]];
      Unfold(w, lim, r.kind.child, if anchor.Some? then anchor.value else r.id, fuel).Some?
    decreases |order| - k
  {
    var next := k + 1;
    UnfoldParts(w, lim, doc, order, anchor, k, fuel);
    if k < at {
      ChildUnfolds(w, lim, doc, order, anchor, next, at, fuel);
    }
  }

  lemma PlaceOf(doc: Doc, order: seq<nat>, i: nat) returns (at: nat)
    requires InOrder(doc, order) && i < |order|
    ensures at < |order| && order[at] == i
  {
    ExtendOrdered(doc.resources, []);
    OrderTopological(doc.resources, order);
    assert i in order;
    at :| 0 <= at < |order| && order[at] == i;
  }

  // A nesting step out of `m` goes to a child of its manifest.
  lemma NestingStep(w: World, lim: Limits, m: Murl, b: string) returns (i: nat)
    requires Valid(m) && (Identity(m), b) in Nesting(w, lim)
    ensures ManifestOf(w, lim, m).Some? && i < |ManifestOf(w, lim, m).value.0.resources|
    ensures var r := ManifestOf(w, lim, m).value.0.resources[i];
      r.kind.Nested? && Identity(r.kind.child) == b
  {
    assert Nests(w, lim, Identity(m), b);
    var n, child :| Valid(n) && Identity(n) == Identity(m) && Identity(child) == b && NestsChild(w, lim, n, child);
    IdentityInjective(m, n);
    LocateBare(w, lim, m, n);
    i :| 0 <= i < |ManifestOf(w, lim, m).value.0.resources|
         && ManifestOf(w, lim, m).value.0.resources[i].kind == Nested(child);
  }

  // The unfolding below `m` is finite.
  predicate Finite(w: World, lim: Limits, m: Murl, anchor: string, fuel: nat) {
    Unfold(w, lim, m, anchor, fuel).Some?
  }

  // Children of a name that unfolds do so with less fuel.
  lemma ChildOfUnfolded(w: World, lim: Limits, m: Murl, anchor: string, fuel: nat, i: nat, child: Murl)
    returns (less: nat)
    requires Finite(w, lim, m, anchor, fuel) && ManifestOf(w, lim, m).Some?
    requires i < |ManifestOf(w, lim, m).value.0.resources|
    requires ManifestOf(w, lim, m).value.0.resources[i].kind == Nested(child)
    ensures less < fuel && Finite(w, lim, child, anchor, less)
  {
    UnfoldInto(w, lim, m, anchor, fuel);
    var (doc, order) := ManifestOf(w, lim, m).value;
    var at := PlaceOf(doc, order, i);
    less := fuel - 1;
    ChildUnfolds(w, lim, doc, order, Some(anchor), 0, at, less);
  }

  lemma NextChild(w: World, lim: Limits, m: Murl, id: string, anchor: string, fuel: nat, next: string)
    returns (child: Murl, less: nat)
    requires Sound(w) && Valid(m) && Finite(w, lim, m, anchor, fuel)
    requires id == Identity(m) && (id, next) in Nesting(w, lim)
    ensures less < fuel && Valid(child) && next == Identity(child)
    ensures Finite(w, lim, child, anchor, less)
  {
    var i := NestingStep(w, lim, m, next);
    child := ManifestOf(w, lim, m).value.0.resources[i].kind.child;
    ChildValid(w, lim, m, i);
    less := ChildOfUnfolded(w, lim, m, anchor, fuel, i, child);
  }

  lemma WalkStep(edges: iset<(string, string)>, p: seq<string>, i: nat, next: nat)
    requires IsWalk(edges, p) && next == i + 1 < |p|
    ensures (p[i], p[next]) in edges
  {
  }

  // A walk along nested manifests is no longer than the fuel that unfolds its start:
  // what is left of it from position i on is bounded by the fuel left there.
  lemma {:induction false} WalkBounded(w: World, lim: Limits, m: Murl, anchor: string, fuel: nat,
                                       p: seq<string>, i: nat)
    requires Sound(w) && Valid(m) && Finite(w, lim, m, anchor, fuel)
    requires IsWalk(Nesting(w, lim), p) && i < |p| && p[i] == Identity(m)
    ensures |p| - i <= fuel
    decreases fuel
  {
    var next := i + 1;
    if next < |p| {
      WalkStep(Nesting(w, lim), p, i, next);
      var child, less := NextChild(w, lim, m, p[i], anchor, fuel, p[next]);
      WalkBounded(w, lim, child, anchor, less, p, next);
    }
  }

  lemma ChildValid(w: World, lim: Limits, m: Murl, i: nat)
    requires Sound(w) && ManifestOf(w, lim, m).Some?
    requires i < |ManifestOf(w, lim, m).value.0.resources|
    requires ManifestOf(w, lim, m).value.0.resources[i].kind.Nested?
    ensures Valid(ManifestOf(w, lim, m).value.0.resources[i].kind.child)
  {
    assert w.decode(Locate(w, lim, m).value.bytes).value.WellFormed();
  }

  // After a success no cycle is reachable from anything the root nests.
  lemma SuccessAcyclic(w: World, lim: Limits, m: Murl, p: seq<string>, c: seq<string>)
    requires Sound(w) && Valid(m) && ResolveName(w, lim, m).Done?
    requires IsWalk(Nesting(w, lim), p) && p[0] == Identity(m)
    requires IsWalk(Nesting(w, lim), c) && c[0] == p[|p| - 1]
    ensures !IsCycle(Nesting(w, lim), c)
  {
    if IsCycle(Nesting(w, lim), c) {
      var fuel := PlanOfName(w, lim, m);
      var (doc, order) := ManifestOf(w, lim, m).value;
      UnfoldFromAnyAnchor(w, lim, doc, order, "", 0, fuel);
      var more := fuel + 1;
      UnfoldInto(w, lim, m, "", more);
      CycleTooLong(w, lim, m, "", more, p, c);
    }
  }

  // The same below every name an opened file nests.
  lemma FileSuccessAcyclic(w: World, lim: Limits, path: string, bytes: string, i: nat, p: seq<string>, c: seq<string>)
    requires Sound(w) && ResolveFile(w, lim, path, bytes).Done?
    requires w.decode(bytes).Ok? && i < |w.decode(bytes).value.resources|
    requires w.decode(bytes).value.resources[i].kind.Nested?
    requires IsWalk(Nesting(w, lim), p) && p[0] == Identity(w.decode(bytes).value.resources[i].kind.child)
    requires IsWalk(Nesting(w, lim), c) && c[0] == p[|p| - 1]
    ensures !IsCycle(Nesting(w, lim), c)
  {
    if IsCycle(Nesting(w, lim), c) {
      var doc := w.decode(bytes).value;
      var fuel := PlanOfFile(w, lim, path, bytes);
      var order := ExecutionOrder(doc.resources).value;
      var at := PlaceOf(doc, order, i);
      ChildUnfolds(w, lim, doc, order, None, 0, at, fuel);
      CycleTooLong(w, lim, doc.resources[i].kind.child, doc.resources[i].id, fuel, p, c);
    }
  }

  // Below a name that unfolds, no walk reaches a cycle.
  lemma CycleTooLong(w: World, lim: Limits, m: Murl, anchor: string, fuel: nat, p: seq<string>, c: seq<string>)
    requires Sound(w) && Valid(m) && Finite(w, lim, m, anchor, fuel)
    requires IsWalk(Nesting(w, lim), p) && p[0] == Identity(m)
    requires IsWalk(Nesting(w, lim), c) && c[0] == p[|p| - 1]
    ensures !IsCycle(Nesting(w, lim), c)
  {
    if IsCycle(Nesting(w, lim), c) {
      var round := GoRound(Nesting(w, lim), c, fuel);
      var long := JoinWalks(Nesting(w, lim), p, round);
      WalkBounded(w, lim, m, anchor, fuel, long, 0);
    }
  }

  lemma {:induction false} UnfoldFromAnyAnchor(w: World, lim: Limits, doc: Doc, order: seq<nat>, a: string,
                                               k: nat, fuel: nat)
    requires InOrder(doc, order) && k <= |order|
    requires UnfoldFrom(w, lim, doc, order, None, k, fuel).Some?
    ensures UnfoldFrom(w, lim, doc, order, Some(a), k, fuel).Some?
    decreases |order| - k
  {
    if k < |order| {
      var r := doc.resources[order[k]];
      if r.kind.Nested? {
        UnfoldAnchor(w, lim, r.kind.child, r.id, a, fuel);
      }
      UnfoldFromAnyAnchor(w, lim, doc, order, a, k + 1, fuel);
    }
  }

  // ----- a manifest that nests itself -----

  function SelfDoc(m: Murl): Doc {
    Doc("self", None, [Resource("me", Nested(m), Print(m), None, true, 0, [], [], None)], None, None, None, [])
  }

  function SelfWorld(m: Murl): World {
    World(map[ManifestPath(m) := "self"], None, None,
          (b: string) => if b == "self" then Ok(SelfDoc(m)) else Err("not JSON"),
          (b: string, pin: string) => false, (authority: string, key: string) => false, 0)
  }

  lemma SelfOrder(m: Murl)
    ensures ExecutionOrder(SelfDoc(m).resources) == Ok([0])
  {
    NoEdgesStableSort(SelfDoc(m).resources);
    assert ExecutionOrder(SelfDoc(m).resources).value == [0];
  }

  lemma SelfArrives(m: Murl, lim: Limits) returns (st: State, fr: Frame)
    requires m.authority.Local? && lim.maxNestedManifests >= 1 && lim.maxManifestBytes >= 4
    ensures Arrive(SelfWorld(m), lim, EMPTY_STATE.(stack := [Identity(m)]), m, 0, None, None) == Ok((st, fr))
    ensures fr.At(lim, 0) && fr.doc == SelfDoc(m) && fr.order == [0] && fr.depth == 0 && fr.source == ThisDevice
    ensures st.stack == [Identity(m)] && st.log == [m]
  {
    SelfOrder(m);
    assert Locate(SelfWorld(m), lim, m) == Ok(Found("self", FromStore(ManifestPath(m)), []));
    var r := Arrive(SelfWorld(m), lim, EMPTY_STATE.(stack := [Identity(m)]), m, 0, None, None);
    st, fr := r.value.0, r.value.1;
  }

  // It is reported as a cycle of one step, as soon as one nested level is allowed at all.
  lemma SelfNestingReported(m: Murl, lim: Limits)
    requires m.authority.Local? && lim.maxNestedManifests >= 1 && lim.maxManifestBytes >= 4 && lim.maxDepth >= 1
    ensures ResolveName(SelfWorld(m), lim, m) == Stop(Cycle([Identity(m)], Identity(m)), [m])
  {
    var st, fr := SelfArrives(m, lim);
    var r := fr.doc.resources[fr.order[0]];
    assert Admit(lim, st, fr, r, m) == Refuse(Cycle([Identity(m)], Identity(m)));
    assert OneRound(SelfWorld(m), lim, st, fr, r) == Halt(Cycle([Identity(m)], Identity(m)), [m]);
  }
}
