/**
 Which destinations resolve. A walk over the documents comes across dispatchable resources
 and nested names; a destination resolves exactly when each name may be nested where it is,
 leads to a usable manifest where it is met first, and the limits suffice. Where it does not
 resolve, the error tells what stood in the way.
 */
module ResolverSuccess {
  import opened Wrappers
  import opened MurlScheme
  import opened Manifest
  import opened Graph
  import opened Walks
  import opened Resolver
  import opened ResolverFrame
  import opened ResolverInvariants
  import opened ResolverPlan
  import opened ResolverTrail
  import opened ResolverTotals

  // ----- the walk -----

  // Where a walk is: the name of the manifest it goes through, absent for a file, how that is
  // spoken of, the identities from the root down to it, and how deep it is.
  datatype Place = Place(nester: Option<Murl>, about: string, path: seq<string>, depth: nat)

  // What a walk comes across: a dispatchable resource, or a nested name, how it is written, the
  // pin it carries there, and whether it is met there first.
  datatype Visit =
    | OfLeaf(item: Item, at: Place)
    | OfName(child: Murl, target: string, pin: Option<string>, at: Place, first: bool)

  function Below(at: Place, child: Murl): Place {
    Place(Some(child), Identity(child), at.path + [Identity(child)], at.depth + 1)
  }

  // The identities of the names among some visits.
  function NamesOf(visits: seq<Visit>): set<string> {
    set i | 0 <= i < |visits| && visits[i].OfName? :: Identity(visits[i].child)
  }

  function VisitOf(r: Resource, anchor: string, seen: set<string>, at: Place): Visit {
    if r.kind.Nested? then OfName(r.kind.child, r.target, r.integrity, at, Identity(r.kind.child) !in seen)
    else OfLeaf(Item(r, anchor), at)
  }

  // The resources order[k..] of a manifest and what is below them, in pre-order, `seen` having
  // been met before. A name met before is not gone into, nor is one that is too deep or leads
  // to no manifest.
  function Walk(w: World, lim: Limits, doc: Doc, order: seq<nat>, anchor: Option<string>, k: nat,
                seen: set<string>, at: Place): seq<Visit>
    requires InOrder(doc, order) && k <= |order| && at.depth <= lim.maxDepth
    decreases lim.maxDepth - at.depth, |order| - k + 1
  {
    if k == |order| then []
    else
      var r := doc.resources[order[k]];
      var here := WalkOne(w, lim, r, if anchor.Some? then anchor.value else r.id, seen, at);
      here + Walk(w, lim, doc, order, anchor, k + 1, seen + NamesOf(here), at)
  }

  function WalkOne(w: World, lim: Limits, r: Resource, anchor: string, seen: set<string>, at: Place): seq<Visit>
    requires at.depth <= lim.maxDepth
    decreases lim.maxDepth - at.depth, 1
  {
    [VisitOf(r, anchor, seen, at)] +
    if !r.kind.Nested? || Identity(r.kind.child) in seen || at.depth == lim.maxDepth then []
    else
      match ManifestOf(w, lim, r.kind.child)
      case None => []
      case Some((doc, order)) =>
        Walk(w, lim, doc, order, Some(anchor), 0, seen + {Identity(r.kind.child)}, Below(at, r.kind.child))
  }

  // ----- what a nested name needs -----

  // From another machine to this one, or from the network to a loopback server.
  predicate Nearer(child: Authority, nester: Option<Murl>) {
    nester.Some? && !nester.value.authority.Local?
    && (child.Local? || (child.IsLoopback() && !nester.value.authority.IsLoopback()))
  }

  // A manifest may declare no other authority or name, and no other version unless either is open.
  predicate DeclaresAnother(declared: Murl, asked: Murl) {
    || declared.authority != asked.authority || declared.name != asked.name
    || (declared.version.Pinned? && asked.version.Pinned? && declared.version != asked.version)
  }

  // A name that leads to a manifest within the size limit that fits the pin, decodes, declares
  // no other name and has a dispatch order.
  predicate Usable(w: World, lim: Limits, m: Murl, pin: Option<string>) {
    var located := Locate(w, lim, m);
    && located.Ok? && |located.value.bytes| <= lim.maxManifestBytes
    && (pin.Some? ==> w.intact(located.value.bytes, pin.value))
    && UsableBytes(w, Some(m), located.value.bytes)
  }

  predicate UsableBytes(w: World, name: Option<Murl>, bytes: string) {
    var doc := w.decode(bytes);
    && doc.Ok?
    && (name.Some? && doc.value.id.Some? ==> !DeclaresAnother(doc.value.id.value, name.value))
    && ExecutionOrder(doc.value.resources).Ok?
  }

  predicate Admissible(w: World, lim: Limits, v: Visit) {
    v.OfName? ==>
      && !Nearer(v.child.authority, v.at.nester)
      && v.at.depth < lim.maxDepth
      && Identity(v.child) !in v.at.path
      && (v.first ==> Usable(w, lim, v.child, v.pin))
  }

  predicate AllAdmissible(w: World, lim: Limits, visits: seq<Visit>) {
    forall i :: 0 <= i < |visits| ==> Admissible(w, lim, visits[i])
  }

  // The dispatchable resources among some visits.
  function LeavesOf(visits: seq<Visit>): seq<Item> {
    if visits == [] then []
    else (if visits[0].OfLeaf? then [visits[0].item] else []) + LeavesOf(visits[1..])
  }

  // All names are admissible, the identities are within the bound, and so is the plan wherever
  // a dispatchable resource is met.
  predicate Clear(w: World, lim: Limits, visits: seq<Visit>, seen: set<string>, items: seq<Item>) {
    && AllAdmissible(w, lim, visits)
    && |seen + NamesOf(visits)| <= lim.maxNestedManifests
    && Room(items, LeavesOf(visits), lim.maxTotalResources)
  }

  // ----- some visits and more -----

  lemma AdmissibleParts(w: World, lim: Limits, a: seq<Visit>, b: seq<Visit>)
    ensures AllAdmissible(w, lim, a + b) <==> AllAdmissible(w, lim, a) && AllAdmissible(w, lim, b)
  {
    var all := a + b;
    assert forall i :: 0 <= i < |a| ==> all[i] == a[i];
    assert forall i :: 0 <= i < |b| ==> all[|a| + i] == b[i];
  }

  lemma NamesParts(a: seq<Visit>, b: seq<Visit>)
    ensures NamesOf(a + b) == NamesOf(a) + NamesOf(b)
  {
    var all := a + b;
    forall id | id in NamesOf(a) ensures id in NamesOf(all) {
      var i :| 0 <= i < |a| && a[i].OfName? && Identity(a[i].child) == id;
      assert all[i] == a[i];
    }
    forall id | id in NamesOf(b) ensures id in NamesOf(all) {
      var i :| 0 <= i < |b| && b[i].OfName? && Identity(b[i].child) == id;
      assert all[|a| + i] == b[i];
    }
  }

  lemma {:induction false} LeavesParts(a: seq<Visit>, b: seq<Visit>)
    ensures LeavesOf(a + b) == LeavesOf(a) + LeavesOf(b)
    decreases |a|
  {
    if a == [] {
      assert a + b == b;
    } else {
      var tail := a[1..];
      assert (a + b)[1..] == tail + b && (a + b)[0] == a[0];
      LeavesParts(tail, b);
      Regroup(if a[0].OfLeaf? then [a[0].item] else [], LeavesOf(tail), LeavesOf(b));
    }
  }

  lemma FewerNames(a: set<string>, b: set<string>)
    requires a <= b
    ensures |a| <= |b|
  {
    if a != b {
      assert b == a + (b - a);
    }
  }

  lemma NamesRegroup(seen: set<string>, a: set<string>, b: set<string>)
    ensures seen + (a + b) == (seen + a) + b
  {
  }

  // What is clear is clear up to any point, and from there on.
  lemma ClearParts(w: World, lim: Limits, a: seq<Visit>, b: seq<Visit>, seen: set<string>, items: seq<Item>)
    ensures Clear(w, lim, a + b, seen, items) <==>
      Clear(w, lim, a, seen, items) && Clear(w, lim, b, seen + NamesOf(a), Merge(items, LeavesOf(a)))
  {
    AdmissibleParts(w, lim, a, b);
    NamesParts(a, b);
    LeavesParts(a, b);
    RoomConcat(items, LeavesOf(a), LeavesOf(b), lim.maxTotalResources);
    NamesRegroup(seen, NamesOf(a), NamesOf(b));
    FewerNames(seen + NamesOf(a), (seen + NamesOf(a)) + NamesOf(b));
  }

  lemma OneVisit(v: Visit)
    ensures NamesOf([v]) == if v.OfName? then {Identity(v.child)} else {}
    ensures LeavesOf([v]) == if v.OfLeaf? then [v.item] else []
  {
    assert [v][0] == v && [v][1..] == [];
    if v.OfName? {
      assert Identity([v][0].child) in NamesOf([v]);
    }
  }

  // One name is clear where it is admissible and there is room for its identity.
  lemma NameClear(w: World, lim: Limits, v: Visit, seen: set<string>, items: seq<Item>)
    requires v.OfName?
    ensures Clear(w, lim, [v], seen, items) <==>
      Admissible(w, lim, v) && |seen + {Identity(v.child)}| <= lim.maxNestedManifests
  {
    OneVisit(v);
    assert [v][0] == v;
  }

  lemma LeafClear(w: World, lim: Limits, v: Visit, seen: set<string>, items: seq<Item>)
    requires v.OfLeaf? && |seen| <= lim.maxNestedManifests
    ensures Clear(w, lim, [v], seen, items) <==> |items| < lim.maxTotalResources
  {
    OneVisit(v);
    assert [v][0] == v && seen + {} == seen;
    RoomOne(items, v.item, lim.maxTotalResources);
  }

  lemma RoomOne(items: seq<Item>, x: Item, total: nat)
    ensures Room(items, [x], total) <==> |items| < total
  {
    assert [x][0] == x && [x][1..] == [];
  }

  // ----- the walk of a frame -----

  function PlaceOf(st: State, fr: Frame): Place {
    Place(fr.name, fr.about, st.stack, fr.depth)
  }

  // A frame is as far away as its name, and spoken of by it.
  predicate Sourced(fr: Frame) {
    && fr.source == (if fr.name.Some? then LocalityOf(fr.name.value.authority) else ThisDevice)
    && (fr.name.Some? ==> fr.about == Identity(fr.name.value))
  }

  predicate FrameAt(lim: Limits, fr: Frame, k: nat) {
    fr.At(lim, k) && InOrder(fr.doc, fr.order)
  }

  function FrameWalk(w: World, lim: Limits, fr: Frame, k: nat, seen: set<string>, at: Place): seq<Visit>
    requires FrameAt(lim, fr, k) && at.depth == fr.depth
  {
    Walk(w, lim, fr.doc, fr.order, fr.anchor, k, seen, at)
  }

  function VisitAt(fr: Frame, k: nat, seen: set<string>, at: Place): Visit
    requires Indices(fr.doc.resources, fr.order) && k < |fr.order|
  {
    var r := fr.doc.resources[fr.order[k]];
    VisitOf(r, fr.Anchor(r), seen, at)
  }

  // A dispatchable resource or a name met before is passed.
  predicate Passes(fr: Frame, k: nat, seen: set<string>)
    requires Indices(fr.doc.resources, fr.order) && k < |fr.order|
  {
    var r := fr.doc.resources[fr.order[k]];
    r.kind.Nested? ==> Identity(r.kind.child) in seen
  }

  lemma PassWalk(w: World, lim: Limits, fr: Frame, k: nat, seen: set<string>, at: Place)
    requires FrameAt(lim, fr, k) && k < |fr.order| && at.depth == fr.depth && Passes(fr, k, seen)
    ensures FrameWalk(w, lim, fr, k, seen, at) ==
            [VisitAt(fr, k, seen, at)] + FrameWalk(w, lim, fr, k + 1, seen, at)
    ensures seen + NamesOf([VisitAt(fr, k, seen, at)]) == seen
  {
    var r, v := fr.doc.resources[fr.order[k]], VisitAt(fr, k, seen, at);
    OneVisit(v);
    assert WalkOne(w, lim, r, fr.Anchor(r), seen, at) == [v];
    assert seen + NamesOf([v]) == seen;
  }

  // The manifest entered for resource k of a frame.
  predicate Entered(w: World, lim: Limits, fr: Frame, k: nat, seen: set<string>, met: set<string>, inner: Frame)
    requires FrameAt(lim, fr, k) && k < |fr.order|
  {
    var r := fr.doc.resources[fr.order[k]];
    && r.kind.Nested? && Identity(r.kind.child) !in seen && met == seen + {Identity(r.kind.child)}
    && FrameAt(lim, inner, 0) && inner.depth == fr.depth + 1 && inner.anchor == Some(fr.Anchor(r))
    && inner.name == Some(r.kind.child)
    && ManifestOf(w, lim, r.kind.child) == Some((inner.doc, inner.order))
  }

  lemma IntoOne(w: World, lim: Limits, fr: Frame, k: nat, seen: set<string>, met: set<string>, at: Place, inner: Frame)
    requires FrameAt(lim, fr, k) && k < |fr.order| && at.depth == fr.depth && Entered(w, lim, fr, k, seen, met, inner)
    ensures var r := fr.doc.resources[fr.order[k]];
      WalkOne(w, lim, r, fr.Anchor(r), seen, at) ==
      [VisitAt(fr, k, seen, at)] + FrameWalk(w, lim, inner, 0, met, Below(at, inner.name.value))
  {
  }

  lemma WalkStep(w: World, lim: Limits, fr: Frame, k: nat, seen: set<string>, at: Place, here: seq<Visit>)
    requires FrameAt(lim, fr, k) && k < |fr.order| && at.depth == fr.depth
    requires var r := fr.doc.resources[fr.order[k]]; here == WalkOne(w, lim, r, fr.Anchor(r), seen, at)
    ensures FrameWalk(w, lim, fr, k, seen, at) == here + FrameWalk(w, lim, fr, k + 1, seen + NamesOf(here), at)
  {
  }

  lemma VisitsRegroup(a: seq<Visit>, b: seq<Visit>, c: seq<Visit>)
    ensures (a + b) + c == a + (b + c)
  {
  }

  // A name met first is followed by what is below it, and then by the rest.
  lemma IntoWalk(w: World, lim: Limits, fr: Frame, k: nat, seen: set<string>, met: set<string>, at: Place, inner: Frame)
    requires FrameAt(lim, fr, k) && k < |fr.order| && at.depth == fr.depth && Entered(w, lim, fr, k, seen, met, inner)
    ensures var below := FrameWalk(w, lim, inner, 0, met, Below(at, inner.name.value));
      FrameWalk(w, lim, fr, k, seen, at) ==
      [VisitAt(fr, k, seen, at)] + (below + FrameWalk(w, lim, fr, k + 1, met + NamesOf(below), at))
  {
    var v, next := VisitAt(fr, k, seen, at), k + 1;
    var below := FrameWalk(w, lim, inner, 0, met, Below(at, inner.name.value));
    IntoOne(w, lim, fr, k, seen, met, at, inner);
    WalkStep(w, lim, fr, k, seen, at, [v] + below);
    OneVisit(v);
    NamesParts([v], below);
    NamesRegroup(seen, NamesOf([v]), NamesOf(below));
    VisitsRegroup([v], below, FrameWalk(w, lim, fr, next, met + NamesOf(below), at));
  }

  // Whatever becomes of a name met first, the walk comes across it.
  lemma FirstVisit(w: World, lim: Limits, fr: Frame, k: nat, seen: set<string>, at: Place)
    requires FrameAt(lim, fr, k) && k < |fr.order| && at.depth == fr.depth
    ensures var walk := FrameWalk(w, lim, fr, k, seen, at);
      |walk| > 0 && walk == [VisitAt(fr, k, seen, at)] + walk[1..]
  {
    var r := fr.doc.resources[fr.order[k]];
    var here := WalkOne(w, lim, r, fr.Anchor(r), seen, at);
    assert here[0] == VisitAt(fr, k, seen, at);
  }

  // ----- one round -----

  lemma ArriveSourced(w: World, lim: Limits, st: State, m: Murl, depth: nat, anchor: Option<string>,
                      pin: Option<string>)
    requires depth <= lim.maxDepth && Arrive(w, lim, st, m, depth, anchor, pin).Ok?
    ensures Sourced(Arrive(w, lim, st, m, depth, anchor, pin).value.1)
  {
    SourceOfNamed(w, lim, m);
  }

  // Arriving takes a usable manifest and one more within the bound.
  lemma ArriveExactly(w: World, lim: Limits, st: State, m: Murl, depth: nat, anchor: Option<string>,
                      pin: Option<string>)
    requires depth <= lim.maxDepth
    ensures Arrive(w, lim, st, m, depth, anchor, pin).Ok? <==>
      st.manifests + 1 <= lim.maxNestedManifests && Usable(w, lim, m, pin)
  {
  }

  lemma NearerExactly(fr: Frame, child: Murl)
    requires Sourced(fr)
    ensures Nearer(child.authority, fr.name) <==> LocalityOf(child.authority).Distance() < fr.source.Distance()
  {
  }

  ghost predicate Going(w: World, lim: Limits, files: nat, st: State, fr: Frame, k: nat, seen: set<string>) {
    && FrameAt(lim, fr, k) && Seen(st, seen) && Sourced(fr)
    && Names(lim, files, st) && Height(files, st, fr) && PlanKept(lim, st) && Rooted(st, fr)
  }

  lemma NestedRoundExactly(w: World, lim: Limits, st: State, fr: Frame, r: Resource, seen: set<string>)
    requires fr.Valid(lim) && r.kind.Nested? && Seen(st, seen) && Sourced(fr)
    ensures var round := OneRound(w, lim, st, fr, r);
      var v := VisitOf(r, fr.Anchor(r), seen, PlaceOf(st, fr));
      if v.first then !round.Next? && (round.Into? <==> Admissible(w, lim, v) && st.manifests < lim.maxNestedManifests)
      else !round.Into? && (round.Next? <==> Admissible(w, lim, v))
  {
    var child, depth := r.kind.child, fr.depth + 1;
    NearerExactly(fr, child);
    var admitted := Admit(lim, st, fr, r, child);
    if admitted.Descend? {
      DescendRound(w, lim, st, fr, r, admitted.st, depth);
      ArriveExactly(w, lim, admitted.st, child, depth, Some(fr.Anchor(r)), r.integrity);
    }
  }

  // The identities met so far are as many as the manifests counted, and within the bound.
  lemma SeenCounted(w: World, lim: Limits, files: nat, st: State, fr: Frame, k: nat, seen: set<string>)
    requires Going(w, lim, files, st, fr, k, seen)
    ensures |seen| == st.manifests <= lim.maxNestedManifests && |View(st.plan)| == |st.plan|
  {
    NamesCount(lim, files, st, seen);
  }

  lemma NameRoundExactly(w: World, lim: Limits, files: nat, st: State, fr: Frame, k: nat, seen: set<string>)
    requires Going(w, lim, files, st, fr, k, seen) && k < |fr.order| && fr.doc.resources[fr.order[k]].kind.Nested?
    ensures var v := VisitAt(fr, k, seen, PlaceOf(st, fr));
      var round := OneRound(w, lim, st, fr, fr.doc.resources[fr.order[k]]);
      && (!round.Halt? <==> Clear(w, lim, [v], seen, View(st.plan)))
      && (if v.first then !round.Next? else !round.Into?)
  {
    var r, v := fr.doc.resources[fr.order[k]], VisitAt(fr, k, seen, PlaceOf(st, fr));
    SeenCounted(w, lim, files, st, fr, k, seen);
    NameClear(w, lim, v, seen, View(st.plan));
    NestedRoundExactly(w, lim, st, fr, r, seen);
    OneMore(seen, Identity(r.kind.child));
  }

  lemma OneMore(seen: set<string>, id: string)
    ensures |seen + {id}| == if id in seen then |seen| else |seen| + 1
  {
    if id in seen {
      assert seen + {id} == seen;
    }
  }

  lemma LeafRoundExactly(w: World, lim: Limits, files: nat, st: State, fr: Frame, k: nat, seen: set<string>)
    requires Going(w, lim, files, st, fr, k, seen) && k < |fr.order| && !fr.doc.resources[fr.order[k]].kind.Nested?
    ensures var v := VisitAt(fr, k, seen, PlaceOf(st, fr));
      var round := OneRound(w, lim, st, fr, fr.doc.resources[fr.order[k]]);
      (!round.Halt? <==> Clear(w, lim, [v], seen, View(st.plan))) && !round.Into?
  {
    SeenCounted(w, lim, files, st, fr, k, seen);
    LeafClear(w, lim, VisitAt(fr, k, seen, PlaceOf(st, fr)), seen, View(st.plan));
  }

  // A round ends the resolution exactly when its visit is not clear.
  lemma RoundExactly(w: World, lim: Limits, files: nat, st: State, fr: Frame, k: nat, seen: set<string>)
    requires Going(w, lim, files, st, fr, k, seen) && k < |fr.order|
    ensures var v := VisitAt(fr, k, seen, PlaceOf(st, fr));
      var round := OneRound(w, lim, st, fr, fr.doc.resources[fr.order[k]]);
      && (!round.Halt? <==> Clear(w, lim, [v], seen, View(st.plan)))
      && (if Passes(fr, k, seen) then !round.Into? else !round.Next?)
  {
    if fr.doc.resources[fr.order[k]].kind.Nested? {
      NameRoundExactly(w, lim, files, st, fr, k, seen);
    } else {
      LeafRoundExactly(w, lim, files, st, fr, k, seen);
    }
  }

  // ----- going on -----

  lemma PassGoing(w: World, lim: Limits, files: nat, st: State, fr: Frame, k: nat, seen: set<string>, st1: State)
    requires Going(w, lim, files, st, fr, k, seen) && k < |fr.order|
    requires OneRound(w, lim, st, fr, fr.doc.resources[fr.order[k]]) == Next(st1)
    ensures Going(w, lim, files, st1, fr, k + 1, seen) && PlaceOf(st1, fr) == PlaceOf(st, fr)
    ensures View(st1.plan) == Merge(View(st.plan), LeavesOf([VisitAt(fr, k, seen, PlaceOf(st, fr))]))
  {
    NextTrail(w, lim, st, fr, k, seen, st1);
    NextPlan(w, lim, st, fr, k, st1);
    RoundNames(w, lim, files, st, fr, fr.doc.resources[fr.order[k]]);
    OneVisit(VisitAt(fr, k, seen, PlaceOf(st, fr)));
  }

  lemma IntoGoing(w: World, lim: Limits, files: nat, st: State, fr: Frame, k: nat, seen: set<string>,
                  st2: State, inner: Frame, id: string, met: set<string>)
    requires Going(w, lim, files, st, fr, k, seen) && k < |fr.order| && met == seen + {id}
    requires OneRound(w, lim, st, fr, fr.doc.resources[fr.order[k]]) == Into(st2, inner, id)
    ensures Entered(w, lim, fr, k, seen, met, inner) && Going(w, lim, files, st2, inner, 0, met)
    ensures st2.plan == st.plan && PlaceOf(st2, inner) == Below(PlaceOf(st, fr), inner.name.value)
  {
    var r := fr.doc.resources[fr.order[k]];
    IntoSeen(w, lim, st, fr, r, seen, st2, inner, id);
    IntoPlan(w, lim, st, fr, r, st2, inner, id);
    RoundNames(w, lim, files, st, fr, r);
    IntoSourced(w, lim, st, fr, r, st2, inner, id);
  }

  lemma IntoSourced(w: World, lim: Limits, st: State, fr: Frame, r: Resource, st2: State, inner: Frame, id: string)
    requires fr.Valid(lim) && OneRound(w, lim, st, fr, r) == Into(st2, inner, id)
    ensures Sourced(inner) && inner.name == Some(r.kind.child)
  {
    var depth := fr.depth + 1;
    var st1 := Admit(lim, st, fr, r, r.kind.child).st;
    DescendRound(w, lim, st, fr, r, st1, depth);
    ArriveSourced(w, lim, st1, r.kind.child, depth, Some(fr.Anchor(r)), r.integrity);
  }

  // Back from a manifest the loop goes on with what it found there.
  lemma BackGoing(w: World, lim: Limits, files: nat, st: State, fr: Frame, k: nat, seen: set<string>,
                  st2: State, inner: Frame, id: string, seen3: set<string>) returns (st4: State)
    requires Going(w, lim, files, st, fr, k, seen) && k < |fr.order|
    requires OneRound(w, lim, st, fr, fr.doc.resources[fr.order[k]]) == Into(st2, inner, id)
    requires Going(w, lim, files, st2, inner, 0, seen + {id}) && Splice(w, lim, st2, inner, 0).Done?
    requires Seen(Splice(w, lim, st2, inner, 0).st, seen3)
    ensures st4 == Leave(Splice(w, lim, st2, inner, 0).st, id)
    ensures Going(w, lim, files, st4, fr, k + 1, seen3) && PlaceOf(st4, fr) == PlaceOf(st, fr)
  {
    var r, st3 := fr.doc.resources[fr.order[k]], Splice(w, lim, st2, inner, 0).st;
    IntoSeen(w, lim, st, fr, r, seen, st2, inner, id);
    SpliceNames(w, lim, files, st2, inner, 0);
    LeaveSeen(st3, st.stack, id, seen3);
    st4 := Leave(st3, id);
    NamesLeave(lim, files, st3, st.stack, id);
    IntoPlan(w, lim, st, fr, r, st2, inner, id);
    LeavePlan(w, lim, st, fr, st2, inner, id);
  }

  lemma SpliceHalts(w: World, lim: Limits, st: State, fr: Frame, k: nat)
    requires fr.At(lim, k) && k < |fr.order| && OneRound(w, lim, st, fr, fr.doc.resources[fr.order[k]]).Halt?
    ensures var round := OneRound(w, lim, st, fr, fr.doc.resources[fr.order[k]]);
      Splice(w, lim, st, fr, k) == Stop(round.error, round.log)
  {
  }

  // What an outcome is to a walk: it ends well exactly where the walk is clear, and then with
  // all its names met and its leaves planned.
  ghost predicate Fulfils(w: World, lim: Limits, st: State, o: Outcome, walk: seq<Visit>, seen: set<string>) {
    && (o.Done? <==> Clear(w, lim, walk, seen, View(st.plan)))
    && (o.Done? ==> Seen(o.st, seen + NamesOf(walk)) && View(o.st.plan) == Merge(View(st.plan), LeavesOf(walk)))
  }

  lemma FulfilsParts(w: World, lim: Limits, st: State, o1: Outcome, o: Outcome, a: seq<Visit>, b: seq<Visit>,
                     seen: set<string>)
    requires Fulfils(w, lim, st, o1, a, seen)
    requires if o1.Done? then Fulfils(w, lim, o1.st, o, b, seen + NamesOf(a)) else o.Stop?
    ensures Fulfils(w, lim, st, o, a + b, seen)
  {
    ClearParts(w, lim, a, b, seen, View(st.plan));
    NamesParts(a, b);
    LeavesParts(a, b);
    NamesRegroup(seen, NamesOf(a), NamesOf(b));
    MergeConcat(View(st.plan), LeavesOf(a), LeavesOf(b));
  }

  lemma {:induction false} SpliceExactly(w: World, lim: Limits, files: nat, st: State, fr: Frame, k: nat,
                                         seen: set<string>)
    requires Going(w, lim, files, st, fr, k, seen)
    ensures Fulfils(w, lim, st, Splice(w, lim, st, fr, k), FrameWalk(w, lim, fr, k, seen, PlaceOf(st, fr)), seen)
    decreases lim.maxDepth - fr.depth, |fr.order| - k, 2
  {
    if k == |fr.order| {
      SeenCounted(w, lim, files, st, fr, k, seen);
      assert seen + {} == seen;
    } else {
      var round := OneRound(w, lim, st, fr, fr.doc.resources[fr.order[k]]);
      RoundExactly(w, lim, files, st, fr, k, seen);
      if round.Next? {
        PassExactly(w, lim, files, st, fr, k, seen, round.st);
      } else if round.Into? {
        IntoExactly(w, lim, files, st, fr, k, seen, round.st, round.inner, round.id);
      } else {
        HaltExactly(w, lim, files, st, fr, k, seen);
      }
    }
  }

  lemma HaltExactly(w: World, lim: Limits, files: nat, st: State, fr: Frame, k: nat, seen: set<string>)
    requires Going(w, lim, files, st, fr, k, seen) && k < |fr.order|
    requires OneRound(w, lim, st, fr, fr.doc.resources[fr.order[k]]).Halt?
    ensures Fulfils(w, lim, st, Splice(w, lim, st, fr, k), FrameWalk(w, lim, fr, k, seen, PlaceOf(st, fr)), seen)
  {
    var at, v := PlaceOf(st, fr), VisitAt(fr, k, seen, PlaceOf(st, fr));
    RoundExactly(w, lim, files, st, fr, k, seen);
    SpliceHalts(w, lim, st, fr, k);
    FirstVisit(w, lim, fr, k, seen, at);
    ClearParts(w, lim, [v], FrameWalk(w, lim, fr, k, seen, at)[1..], seen, View(st.plan));
  }

  lemma {:induction false} PassExactly(w: World, lim: Limits, files: nat, st: State, fr: Frame, k: nat,
                                       seen: set<string>, st1: State)
    requires Going(w, lim, files, st, fr, k, seen) && k < |fr.order|
    requires OneRound(w, lim, st, fr, fr.doc.resources[fr.order[k]]) == Next(st1)
    ensures Fulfils(w, lim, st, Splice(w, lim, st, fr, k), FrameWalk(w, lim, fr, k, seen, PlaceOf(st, fr)), seen)
    decreases lim.maxDepth - fr.depth, |fr.order| - k, 1
  {
    var next, at, v := k + 1, PlaceOf(st, fr), VisitAt(fr, k, seen, PlaceOf(st, fr));
    RoundExactly(w, lim, files, st, fr, k, seen);
    PassGoing(w, lim, files, st, fr, k, seen, st1);
    SpliceNext(w, lim, st, fr, k, st1);
    SpliceExactly(w, lim, files, st1, fr, next, seen);
    PassWalk(w, lim, fr, k, seen, at);
    FulfilsParts(w, lim, st, Done(st1), Splice(w, lim, st, fr, k), [v], FrameWalk(w, lim, fr, next, seen, at), seen);
  }

  // Entering a manifest is its own visit.
  lemma EnteredFulfils(w: World, lim: Limits, files: nat, st: State, fr: Frame, k: nat, seen: set<string>,
                       st2: State, inner: Frame, id: string, met: set<string>)
    requires Going(w, lim, files, st, fr, k, seen) && k < |fr.order| && met == seen + {id}
    requires OneRound(w, lim, st, fr, fr.doc.resources[fr.order[k]]) == Into(st2, inner, id)
    requires Entered(w, lim, fr, k, seen, met, inner) && Going(w, lim, files, st2, inner, 0, met) && st2.plan == st.plan
    ensures var v := VisitAt(fr, k, seen, PlaceOf(st, fr));
      Fulfils(w, lim, st, Done(st2), [v], seen) && seen + NamesOf([v]) == met
  {
    var v := VisitAt(fr, k, seen, PlaceOf(st, fr));
    RoundExactly(w, lim, files, st, fr, k, seen);
    OneVisit(v);
  }

  lemma {:induction false} IntoExactly(w: World, lim: Limits, files: nat, st: State, fr: Frame, k: nat,
                                       seen: set<string>, st2: State, inner: Frame, id: string)
    requires Going(w, lim, files, st, fr, k, seen) && k < |fr.order|
    requires OneRound(w, lim, st, fr, fr.doc.resources[fr.order[k]]) == Into(st2, inner, id)
    ensures Fulfils(w, lim, st, Splice(w, lim, st, fr, k), FrameWalk(w, lim, fr, k, seen, PlaceOf(st, fr)), seen)
    decreases lim.maxDepth - fr.depth, |fr.order| - k, 1
  {
    var next, at, met, v := k + 1, PlaceOf(st, fr), seen + {id}, VisitAt(fr, k, seen, PlaceOf(st, fr));
    IntoGoing(w, lim, files, st, fr, k, seen, st2, inner, id, met);
    EnteredFulfils(w, lim, files, st, fr, k, seen, st2, inner, id, met);
    IntoWalk(w, lim, fr, k, seen, met, at, inner);
    SpliceInto(w, lim, st, fr, k, st2, inner, id);
    SpliceExactly(w, lim, files, st2, inner, 0, met);
    var below := FrameWalk(w, lim, inner, 0, met, PlaceOf(st2, inner));
    var nested, end := Splice(w, lim, st2, inner, 0), Splice(w, lim, st, fr, k);
    var seen3 := met + NamesOf(below);
    var rest := FrameWalk(w, lim, fr, next, seen3, at);
    if nested.Done? {
      var st4 := BackGoing(w, lim, files, st, fr, k, seen, st2, inner, id, seen3);
      SpliceExactly(w, lim, files, st4, fr, next, seen3);
      FulfilsLeft(w, lim, st2, nested, st4, end, below, rest, met);
    } else {
      FulfilsParts(w, lim, st2, nested, end, below, rest, met);
    }
    FulfilsParts(w, lim, st, Done(st2), end, [v], below + rest, seen);
  }

  // Leaving a manifest changes neither plan nor names met.
  lemma FulfilsLeft(w: World, lim: Limits, st: State, nested: Outcome, left: State, o: Outcome,
                    a: seq<Visit>, b: seq<Visit>, seen: set<string>)
    requires nested.Done? && left.plan == nested.st.plan
    requires Fulfils(w, lim, st, nested, a, seen) && Fulfils(w, lim, left, o, b, seen + NamesOf(a))
    ensures Fulfils(w, lim, st, o, a + b, seen)
  {
    FulfilsParts(w, lim, st, nested, o, a, b, seen);
  }

  // ----- what stands in the way -----

  // The error a name's manifest gives when it is not usable.
  ghost predicate Unusable(w: World, lim: Limits, m: Murl, pin: Option<string>, e: Error) {
    var located := Locate(w, lim, m);
    if located.Err? then e == located.error
    else
      (e == IntegrityMismatch && pin.Some? && !w.intact(located.value.bytes, pin.value))
      || UnusableBytes(w, lim, Some(m), located.value.bytes, e)
  }

  ghost predicate UnusableBytes(w: World, lim: Limits, name: Option<Murl>, bytes: string, e: Error) {
    var doc := w.decode(bytes);
    match e
    case ManifestTooLarge(n) => n == |bytes| > lim.maxManifestBytes
    case BadManifest(reason) => doc == Err(reason)
    case Relabeled(declared, requested) =>
      && doc.Ok? && doc.value.id.Some? && name.Some? && DeclaresAnother(doc.value.id.value, name.value)
      && declared == Identity(doc.value.id.value) && requested == Identity(name.value)
    case DependencyCycle(stuck) =>
      doc.Ok? && HasCycle(Edges(doc.value.resources)) && AllStuck(doc.value.resources, stuck)
    case _ => false
  }

  // The ids of the resources a dependency cycle can be reached from.
  ghost predicate AllStuck(rs: seq<Resource>, stuck: seq<string>) {
    forall id :: id in stuck <==> BehindCycle(rs, id)
  }

  lemma OpenFails(w: World, lim: Limits, st: State, name: Option<Murl>, bytes: string, origin: Origin, depth: nat,
                  anchor: Option<string>)
    requires depth <= lim.maxDepth && Open(w, lim, st, name, bytes, origin, depth, anchor).Err?
    ensures UnusableBytes(w, lim, name, bytes, Open(w, lim, st, name, bytes, origin, depth, anchor).error)
  {
    var e := Open(w, lim, st, name, bytes, origin, depth, anchor).error;
    if e.DependencyCycle? {
      var rs := w.decode(bytes).value.resources;
      FailsExactlyOnCycle(rs);
      forall id ensures id in e.stuck <==> BehindCycle(rs, id) {
        StuckIdsExactly(rs, id);
      }
    }
  }

  // A name that stands in the way, and the error that says how.
  ghost predicate Obstacle(w: World, lim: Limits, v: Visit, e: Error) {
    v.OfName? &&
    match e
    case NearerName(id) => id == Identity(v.child) && Nearer(v.child.authority, v.at.nester)
    case TooDeep(id) => id == Identity(v.child) && v.at.depth == lim.maxDepth
    case Cycle(stack, id) => id == Identity(v.child) && stack == v.at.path && id in v.at.path
    case _ => v.first && Unusable(w, lim, v.child, v.pin, e)
  }

  // Some visit is an obstacle, or one of the bounds is exceeded.
  ghost predicate Explains(w: World, lim: Limits, visits: seq<Visit>, seen: set<string>, items: seq<Item>, e: Error) {
    || (exists i :: 0 <= i < |visits| && Obstacle(w, lim, visits[i], e))
    || (e == TooManyManifests && |seen + NamesOf(visits)| > lim.maxNestedManifests)
    || (e == TooManyResources && !Room(items, LeavesOf(visits), lim.maxTotalResources))
  }

  lemma ExplainsParts(w: World, lim: Limits, a: seq<Visit>, b: seq<Visit>, seen: set<string>, items: seq<Item>,
                      e: Error)
    requires || Explains(w, lim, a, seen, items, e)
             || Explains(w, lim, b, seen + NamesOf(a), Merge(items, LeavesOf(a)), e)
    ensures Explains(w, lim, a + b, seen, items, e)
  {
    if i :| 0 <= i < |a| && Obstacle(w, lim, a[i], e) {
      assert (a + b)[i] == a[i];
    } else if i :| 0 <= i < |b| && Obstacle(w, lim, b[i], e) {
      assert (a + b)[|a| + i] == b[i];
    } else {
      NamesParts(a, b);
      LeavesParts(a, b);
      NamesRegroup(seen, NamesOf(a), NamesOf(b));
      RoomConcat(items, LeavesOf(a), LeavesOf(b), lim.maxTotalResources);
      FewerNames(seen + NamesOf(a), (seen + NamesOf(a)) + NamesOf(b));
    }
  }

  lemma ArriveFails(w: World, lim: Limits, st: State, m: Murl, depth: nat, anchor: Option<string>, pin: Option<string>)
    requires depth <= lim.maxDepth && Arrive(w, lim, st, m, depth, anchor, pin).Err?
    ensures var e := Arrive(w, lim, st, m, depth, anchor, pin).error.0;
      (e == TooManyManifests && st.manifests >= lim.maxNestedManifests) || Unusable(w, lim, m, pin, e)
  {
    var located := Locate(w, lim, m);
    if located.Ok? {
      var found, log := located.value, st.log + [m];
      var st1 := st.(manifests := st.manifests + 1, log := log, warnings := st.warnings + found.warnings);
      if Open(w, lim, st1, Some(m), found.bytes, found.origin, depth, anchor).Err? {
        OpenFails(w, lim, st1, Some(m), found.bytes, found.origin, depth, anchor);
      }
    }
  }

  // A name that ends the resolution is an obstacle, unless it was one too many.
  lemma NestedHalts(w: World, lim: Limits, st: State, fr: Frame, r: Resource, seen: set<string>)
    requires fr.Valid(lim) && r.kind.Nested? && Seen(st, seen) && Sourced(fr) && OneRound(w, lim, st, fr, r).Halt?
    ensures var e, v := OneRound(w, lim, st, fr, r).error, VisitOf(r, fr.Anchor(r), seen, PlaceOf(st, fr));
      (e == TooManyManifests && st.manifests >= lim.maxNestedManifests && v.first) || Obstacle(w, lim, v, e)
  {
    var child, depth := r.kind.child, fr.depth + 1;
    NearerExactly(fr, child);
    var admitted := Admit(lim, st, fr, r, child);
    if admitted.Descend? {
      DescendRound(w, lim, st, fr, r, admitted.st, depth);
      ArriveFails(w, lim, admitted.st, child, depth, Some(fr.Anchor(r)), r.integrity);
      LocateErrors(w, lim, child);
    }
  }

  // Locating a name never fails for where it is nested.
  lemma LocateErrors(w: World, lim: Limits, m: Murl)
    ensures Locate(w, lim, m).Err? ==>
      var e := Locate(w, lim, m).error; !e.NearerName? && !e.TooDeep? && !e.Cycle?
  {
  }

  lemma HaltExplained(w: World, lim: Limits, files: nat, st: State, fr: Frame, k: nat, seen: set<string>)
    requires Going(w, lim, files, st, fr, k, seen) && k < |fr.order|
    requires OneRound(w, lim, st, fr, fr.doc.resources[fr.order[k]]).Halt?
    ensures Explains(w, lim, [VisitAt(fr, k, seen, PlaceOf(st, fr))], seen, View(st.plan),
                     OneRound(w, lim, st, fr, fr.doc.resources[fr.order[k]]).error)
  {
    var r, v := fr.doc.resources[fr.order[k]], VisitAt(fr, k, seen, PlaceOf(st, fr));
    SeenCounted(w, lim, files, st, fr, k, seen);
    OneVisit(v);
    assert [v][0] == v;
    if r.kind.Nested? {
      NestedHalts(w, lim, st, fr, r, seen);
      OneMore(seen, Identity(r.kind.child));
    } else {
      RoomOne(View(st.plan), v.item, lim.maxTotalResources);
    }
  }

  lemma {:induction false} SpliceExplained(w: World, lim: Limits, files: nat, st: State, fr: Frame, k: nat,
                                           seen: set<string>)
    requires Going(w, lim, files, st, fr, k, seen) && Splice(w, lim, st, fr, k).Stop?
    ensures Explains(w, lim, FrameWalk(w, lim, fr, k, seen, PlaceOf(st, fr)), seen, View(st.plan),
                     Splice(w, lim, st, fr, k).error)
    decreases lim.maxDepth - fr.depth, |fr.order| - k, 2
  {
    var round := OneRound(w, lim, st, fr, fr.doc.resources[fr.order[k]]);
    if round.Next? {
      PassExplained(w, lim, files, st, fr, k, seen, round.st);
    } else if round.Into? {
      IntoExplained(w, lim, files, st, fr, k, seen, round.st, round.inner, round.id);
    } else {
      HaltsExplained(w, lim, files, st, fr, k, seen);
    }
  }

  lemma HaltsExplained(w: World, lim: Limits, files: nat, st: State, fr: Frame, k: nat, seen: set<string>)
    requires Going(w, lim, files, st, fr, k, seen) && k < |fr.order| && Splice(w, lim, st, fr, k).Stop?
    requires OneRound(w, lim, st, fr, fr.doc.resources[fr.order[k]]).Halt?
    ensures Explains(w, lim, FrameWalk(w, lim, fr, k, seen, PlaceOf(st, fr)), seen, View(st.plan),
                     Splice(w, lim, st, fr, k).error)
  {
    var at, e, v := PlaceOf(st, fr), Splice(w, lim, st, fr, k).error, VisitAt(fr, k, seen, PlaceOf(st, fr));
    SpliceHalts(w, lim, st, fr, k);
    HaltExplained(w, lim, files, st, fr, k, seen);
    FirstVisit(w, lim, fr, k, seen, at);
    ExplainsParts(w, lim, [v], FrameWalk(w, lim, fr, k, seen, at)[1..], seen, View(st.plan), e);
  }

  lemma {:induction false} PassExplained(w: World, lim: Limits, files: nat, st: State, fr: Frame, k: nat,
                                         seen: set<string>, st1: State)
    requires Going(w, lim, files, st, fr, k, seen) && k < |fr.order| && Splice(w, lim, st, fr, k).Stop?
    requires OneRound(w, lim, st, fr, fr.doc.resources[fr.order[k]]) == Next(st1)
    ensures Explains(w, lim, FrameWalk(w, lim, fr, k, seen, PlaceOf(st, fr)), seen, View(st.plan),
                     Splice(w, lim, st, fr, k).error)
    decreases lim.maxDepth - fr.depth, |fr.order| - k, 1
  {
    var next, at, v := k + 1, PlaceOf(st, fr), VisitAt(fr, k, seen, PlaceOf(st, fr));
    var e := Splice(w, lim, st, fr, k).error;
    RoundExactly(w, lim, files, st, fr, k, seen);
    PassGoing(w, lim, files, st, fr, k, seen, st1);
    SpliceNext(w, lim, st, fr, k, st1);
    SpliceExplained(w, lim, files, st1, fr, next, seen);
    PassWalk(w, lim, fr, k, seen, at);
    ExplainsParts(w, lim, [v], FrameWalk(w, lim, fr, next, seen, at), seen, View(st.plan), e);
  }

  lemma {:induction false} IntoExplained(w: World, lim: Limits, files: nat, st: State, fr: Frame, k: nat,
                                         seen: set<string>, st2: State, inner: Frame, id: string)
    requires Going(w, lim, files, st, fr, k, seen) && k < |fr.order| && Splice(w, lim, st, fr, k).Stop?
    requires OneRound(w, lim, st, fr, fr.doc.resources[fr.order[k]]) == Into(st2, inner, id)
    ensures Explains(w, lim, FrameWalk(w, lim, fr, k, seen, PlaceOf(st, fr)), seen, View(st.plan),
                     Splice(w, lim, st, fr, k).error)
    decreases lim.maxDepth - fr.depth, |fr.order| - k, 1
  {
    var next, at, met, v := k + 1, PlaceOf(st, fr), seen + {id}, VisitAt(fr, k, seen, PlaceOf(st, fr));
    var e := Splice(w, lim, st, fr, k).error;
    IntoGoing(w, lim, files, st, fr, k, seen, st2, inner, id, met);
    EnteredFulfils(w, lim, files, st, fr, k, seen, st2, inner, id, met);
    IntoWalk(w, lim, fr, k, seen, met, at, inner);
    SpliceInto(w, lim, st, fr, k, st2, inner, id);
    SpliceExactly(w, lim, files, st2, inner, 0, met);
    var below, nested := FrameWalk(w, lim, inner, 0, met, PlaceOf(st2, inner)), Splice(w, lim, st2, inner, 0);
    var seen3 := met + NamesOf(below);
    var rest := FrameWalk(w, lim, fr, next, seen3, at);
    if nested.Done? {
      var st4 := BackGoing(w, lim, files, st, fr, k, seen, st2, inner, id, seen3);
      SpliceExplained(w, lim, files, st4, fr, next, seen3);
    } else {
      SpliceExplained(w, lim, files, st2, inner, 0, met);
    }
    ExplainsParts(w, lim, below, rest, met, View(st.plan), e);
    ExplainsParts(w, lim, [v], below + rest, seen, View(st.plan), e);
  }

  // ----- whole resolutions -----

  // The walk below a root requested by name, or opened as a file.
  function NameWalk(w: World, lim: Limits, m: Murl): seq<Visit> {
    match ManifestOf(w, lim, m)
    case None => []
    case Some((doc, order)) =>
      Walk(w, lim, doc, order, None, 0, {Identity(m)}, Place(Some(m), Identity(m), [Identity(m)], 0))
  }

  // What warnings about an opened file are labelled with.
  function FileLabel(path: string): string {
    "file (" + path + ")"
  }

  function FileWalk(w: World, lim: Limits, path: string, bytes: string): seq<Visit> {
    match w.decode(bytes)
    case Err(_) => []
    case Ok(doc) =>
      match ExecutionOrder(doc.resources)
      case Err(_) => []
      case Ok(order) =>
        OrderIndices(doc.resources);
        Walk(w, lim, doc, order, None, 0, {}, Place(None, FileLabel(path), [], 0))
  }

  lemma NameGoing(w: World, lim: Limits, m: Murl) returns (st: State, fr: Frame)
    requires Arrive(w, lim, EMPTY_STATE.(stack := [Identity(m)]), m, 0, None, None).Ok?
    ensures Arrive(w, lim, EMPTY_STATE.(stack := [Identity(m)]), m, 0, None, None) == Ok((st, fr))
    ensures Going(w, lim, 0, st, fr, 0, {Identity(m)}) && View(st.plan) == [] && |st.nodes| == 1
    ensures FrameWalk(w, lim, fr, 0, {Identity(m)}, PlaceOf(st, fr)) == NameWalk(w, lim, m)
  {
    var st0 := EMPTY_STATE.(stack := [Identity(m)]);
    st, fr := NameRoot(w, lim, m);
    ArriveNames(w, lim, 0, st0, m, 0, None, None);
    ArriveSourced(w, lim, st0, m, 0, None, None);
    NamesEntered(lim, 0, EMPTY_STATE, st, m);
    PlanKeptMoreNodes(lim, EMPTY_STATE, st);
  }

  // A name resolves exactly when its own manifest is usable and its walk is clear; the plan
  // then has the first occurrences of what the walk meets.
  lemma ResolvesExactly(w: World, lim: Limits, m: Murl)
    ensures ResolveName(w, lim, m).Done? <==>
      Usable(w, lim, m, None) && Clear(w, lim, NameWalk(w, lim, m), {Identity(m)}, [])
    ensures ResolveName(w, lim, m).Done? ==>
      View(ResolveName(w, lim, m).st.plan) == Firsts(LeavesOf(NameWalk(w, lim, m)))
  {
    var st0 := EMPTY_STATE.(stack := [Identity(m)]);
    ArriveExactly(w, lim, st0, m, 0, None, None);
    if Arrive(w, lim, st0, m, 0, None, None).Ok? {
      var st, fr := NameGoing(w, lim, m);
      SpliceExactly(w, lim, 0, st, fr, 0, {Identity(m)});
      MergeIsFirsts(LeavesOf(NameWalk(w, lim, m)));
    } else {
      FewerNames({Identity(m)}, {Identity(m)} + NamesOf(NameWalk(w, lim, m)));
    }
  }

  lemma FileGoing(w: World, lim: Limits, path: string, bytes: string) returns (st: State, fr: Frame)
    requires Open(w, lim, EMPTY_STATE, None, bytes, FromFile(path), 0, None).Ok?
    ensures Open(w, lim, EMPTY_STATE, None, bytes, FromFile(path), 0, None) == Ok((st, fr))
    ensures Going(w, lim, 1, st, fr, 0, {}) && View(st.plan) == [] && |st.nodes| == 1
    ensures FrameWalk(w, lim, fr, 0, {}, PlaceOf(st, fr)) == FileWalk(w, lim, path, bytes)
  {
    st, fr := FileRoot(w, lim, path, bytes);
    PlanKeptMoreNodes(lim, EMPTY_STATE, st);
  }

  // The same for a file.
  lemma FileResolvesExactly(w: World, lim: Limits, path: string, bytes: string)
    ensures ResolveFile(w, lim, path, bytes).Done? <==>
      && |bytes| <= lim.maxManifestBytes && UsableBytes(w, None, bytes)
      && Clear(w, lim, FileWalk(w, lim, path, bytes), {}, [])
    ensures ResolveFile(w, lim, path, bytes).Done? ==>
      View(ResolveFile(w, lim, path, bytes).st.plan) == Firsts(LeavesOf(FileWalk(w, lim, path, bytes)))
  {
    if Open(w, lim, EMPTY_STATE, None, bytes, FromFile(path), 0, None).Ok? {
      var st, fr := FileGoing(w, lim, path, bytes);
      SpliceExactly(w, lim, 1, st, fr, 0, {});
      MergeIsFirsts(LeavesOf(FileWalk(w, lim, path, bytes)));
    }
  }

  // An error names what stands in the way of the root, or something its walk comes across.
  lemma StopExplained(w: World, lim: Limits, m: Murl)
    requires ResolveName(w, lim, m).Stop?
    ensures var e := ResolveName(w, lim, m).error;
      || Unusable(w, lim, m, None, e)
      || Explains(w, lim, NameWalk(w, lim, m), {Identity(m)}, [], e)
  {
    var st0 := EMPTY_STATE.(stack := [Identity(m)]);
    if Arrive(w, lim, st0, m, 0, None, None).Ok? {
      var st, fr := NameGoing(w, lim, m);
      SpliceExplained(w, lim, 0, st, fr, 0, {Identity(m)});
    } else {
      ArriveFails(w, lim, st0, m, 0, None, None);
      FewerNames({Identity(m)}, {Identity(m)} + NamesOf(NameWalk(w, lim, m)));
    }
  }

  lemma FileStopExplained(w: World, lim: Limits, path: string, bytes: string)
    requires ResolveFile(w, lim, path, bytes).Stop?
    ensures var e := ResolveFile(w, lim, path, bytes).error;
      || UnusableBytes(w, lim, None, bytes, e)
      || Explains(w, lim, FileWalk(w, lim, path, bytes), {}, [], e)
  {
    if Open(w, lim, EMPTY_STATE, None, bytes, FromFile(path), 0, None).Ok? {
      var st, fr := FileGoing(w, lim, path, bytes);
      SpliceExplained(w, lim, 1, st, fr, 0, {});
    } else {
      OpenFails(w, lim, EMPTY_STATE, None, bytes, FromFile(path), 0, None);
    }
  }

  // ----- the manifests of a resolution -----

  // Under which name a manifest is used, absent for a file, and how deep.
  datatype Arrival = Arrival(name: Option<Murl>, depth: nat)

  function NodesAs(nodes: seq<Node>): seq<Arrival> {
    seq(|nodes|, i requires 0 <= i < |nodes| => Arrival(nodes[i].name, nodes[i].depth))
  }

  // The names met first are gone into, one level deeper than where they are nested.
  function Arrivals(visits: seq<Visit>): seq<Arrival> {
    if visits == [] then []
    else
      (if visits[0].OfName? && visits[0].first
       then [Arrival(Some(visits[0].child), visits[0].at.depth + 1)] else []) + Arrivals(visits[1..])
  }

  lemma ArrivalsRegroup(a: seq<Arrival>, b: seq<Arrival>, c: seq<Arrival>)
    ensures a + (b + c) == (a + b) + c
  {
  }

  lemma {:induction false} ArrivalsParts(a: seq<Visit>, b: seq<Visit>)
    ensures Arrivals(a + b) == Arrivals(a) + Arrivals(b)
    decreases |a|
  {
    if a == [] {
      assert a + b == b;
    } else {
      var tail := a[1..];
      assert (a + b)[1..] == tail + b && (a + b)[0] == a[0];
      ArrivalsParts(tail, b);
      ArrivalsRegroup(Arrivals([a[0]]), Arrivals(tail), Arrivals(b));
      assert [a[0]][1..] == [];
    }
  }

  lemma OneArrival(v: Visit)
    ensures Arrivals([v]) == if v.OfName? && v.first then [Arrival(Some(v.child), v.at.depth + 1)] else []
  {
    assert [v][1..] == [];
  }

  // A name met first is what is not passed.
  lemma FirstNotPassed(fr: Frame, k: nat, seen: set<string>, at: Place)
    requires Indices(fr.doc.resources, fr.order) && k < |fr.order|
    ensures var v := VisitAt(fr, k, seen, at); (v.OfName? && v.first) <==> !Passes(fr, k, seen)
  {
  }

  lemma SameNodes(before: seq<Node>, v: Visit)
    requires !(v.OfName? && v.first)
    ensures NodesAs(before) == NodesAs(before) + Arrivals([v])
  {
    OneArrival(v);
  }

  lemma PassNodes(w: World, lim: Limits, files: nat, st: State, fr: Frame, k: nat, seen: set<string>, st1: State)
    requires Going(w, lim, files, st, fr, k, seen) && k < |fr.order|
    requires OneRound(w, lim, st, fr, fr.doc.resources[fr.order[k]]) == Next(st1)
    ensures st1.nodes == st.nodes && Passes(fr, k, seen)
  {
    RoundExactly(w, lim, files, st, fr, k, seen);
    RoundPlan(w, lim, st, fr, fr.doc.resources[fr.order[k]]);
  }

  lemma ArriveNode(w: World, lim: Limits, st: State, m: Murl, depth: nat, anchor: Option<string>, pin: Option<string>)
    requires depth <= lim.maxDepth && Arrive(w, lim, st, m, depth, anchor, pin).Ok?
    ensures NodesAs(Arrive(w, lim, st, m, depth, anchor, pin).value.0.nodes) ==
            NodesAs(st.nodes) + [Arrival(Some(m), depth)]
  {
    ArriveNames(w, lim, 0, st, m, depth, anchor, pin);
    var nodes := Arrive(w, lim, st, m, depth, anchor, pin).value.0.nodes;
    assert forall i :: 0 <= i < |st.nodes| ==> nodes[i] == nodes[..|st.nodes|][i];
  }

  lemma OneMoreNode(before: seq<Node>, after: seq<Node>, v: Visit, child: Murl, depth: nat)
    requires v.OfName? && v.first && v.child == child && v.at.depth + 1 == depth
    requires NodesAs(after) == NodesAs(before) + [Arrival(Some(child), depth)]
    ensures NodesAs(after) == NodesAs(before) + Arrivals([v])
  {
    OneArrival(v);
  }

  lemma IntoNode(w: World, lim: Limits, st: State, fr: Frame, r: Resource, st2: State, inner: Frame, id: string)
    requires fr.Valid(lim) && r.kind.Nested? && OneRound(w, lim, st, fr, r) == Into(st2, inner, id)
    ensures NodesAs(st2.nodes) == NodesAs(st.nodes) + [Arrival(Some(r.kind.child), fr.depth + 1)]
  {
    var depth := fr.depth + 1;
    var st1 := Admit(lim, st, fr, r, r.kind.child).st;
    AdmitNames(lim, st, fr, r, r.kind.child);
    DescendRound(w, lim, st, fr, r, st1, depth);
    ArriveNode(w, lim, st1, r.kind.child, depth, Some(fr.Anchor(r)), r.integrity);
  }

  lemma {:induction false} SpliceArrivals(w: World, lim: Limits, files: nat, st: State, fr: Frame, k: nat,
                                          seen: set<string>)
    requires Going(w, lim, files, st, fr, k, seen) && Splice(w, lim, st, fr, k).Done?
    ensures NodesAs(Splice(w, lim, st, fr, k).st.nodes) ==
            NodesAs(st.nodes) + Arrivals(FrameWalk(w, lim, fr, k, seen, PlaceOf(st, fr)))
    decreases lim.maxDepth - fr.depth, |fr.order| - k, 1
  {
    if k < |fr.order| {
      var next, at, v := k + 1, PlaceOf(st, fr), VisitAt(fr, k, seen, PlaceOf(st, fr));
      var round := OneRound(w, lim, st, fr, fr.doc.resources[fr.order[k]]);
      if round.Next? {
        PassNodes(w, lim, files, st, fr, k, seen, round.st);
        FirstNotPassed(fr, k, seen, at);
        SameNodes(st.nodes, v);
        PassGoing(w, lim, files, st, fr, k, seen, round.st);
        SpliceNext(w, lim, st, fr, k, round.st);
        SpliceArrivals(w, lim, files, round.st, fr, next, seen);
        PassWalk(w, lim, fr, k, seen, at);
        ArrivalsParts([v], FrameWalk(w, lim, fr, next, seen, at));
        ArrivalsRegroup(NodesAs(st.nodes), Arrivals([v]), Arrivals(FrameWalk(w, lim, fr, next, seen, at)));
      } else {
        NestedArrivals(w, lim, files, st, fr, k, seen, round.st, round.inner, round.id);
      }
    }
  }

  lemma {:induction false} NestedArrivals(w: World, lim: Limits, files: nat, st: State, fr: Frame, k: nat,
                                          seen: set<string>, st2: State, inner: Frame, id: string)
    requires Going(w, lim, files, st, fr, k, seen) && k < |fr.order| && Splice(w, lim, st, fr, k).Done?
    requires OneRound(w, lim, st, fr, fr.doc.resources[fr.order[k]]) == Into(st2, inner, id)
    ensures NodesAs(Splice(w, lim, st, fr, k).st.nodes) ==
            NodesAs(st.nodes) + Arrivals(FrameWalk(w, lim, fr, k, seen, PlaceOf(st, fr)))
    decreases lim.maxDepth - fr.depth, |fr.order| - k, 0
  {
    var next, at, met, v := k + 1, PlaceOf(st, fr), seen + {id}, VisitAt(fr, k, seen, PlaceOf(st, fr));
    IntoGoing(w, lim, files, st, fr, k, seen, st2, inner, id, met);
    FirstNotPassed(fr, k, seen, at);
    IntoNode(w, lim, st, fr, fr.doc.resources[fr.order[k]], st2, inner, id);
    OneMoreNode(st.nodes, st2.nodes, v, inner.name.value, inner.depth);
    IntoWalk(w, lim, fr, k, seen, met, at, inner);
    SpliceInto(w, lim, st, fr, k, st2, inner, id);
    SpliceExactly(w, lim, files, st2, inner, 0, met);
    var below := FrameWalk(w, lim, inner, 0, met, PlaceOf(st2, inner));
    var seen3 := met + NamesOf(below);
    var st4 := BackGoing(w, lim, files, st, fr, k, seen, st2, inner, id, seen3);
    SpliceArrivals(w, lim, files, st2, inner, 0, met);
    SpliceArrivals(w, lim, files, st4, fr, next, seen3);
    InnerArrivals(v, below, FrameWalk(w, lim, fr, next, seen3, at), NodesAs(st.nodes));
  }

  lemma InnerArrivals(v: Visit, below: seq<Visit>, rest: seq<Visit>, before: seq<Arrival>)
    ensures before + Arrivals([v] + (below + rest)) ==
            ((before + Arrivals([v])) + Arrivals(below)) + Arrivals(rest)
  {
    ArrivalsParts([v], below + rest);
    ArrivalsParts(below, rest);
    ArrivalsRegroup(before, Arrivals([v]), Arrivals(below) + Arrivals(rest));
    ArrivalsRegroup(before + Arrivals([v]), Arrivals(below), Arrivals(rest));
  }

  // The manifests of a resolution are the root's and then, in order, those of the names its walk
  // meets first, each as deep as it is nested.
  lemma NodesExactly(w: World, lim: Limits, m: Murl)
    requires ResolveName(w, lim, m).Done?
    ensures NodesAs(ResolveName(w, lim, m).st.nodes) == [Arrival(Some(m), 0)] + Arrivals(NameWalk(w, lim, m))
  {
    var st, fr := NameGoing(w, lim, m);
    ArriveNode(w, lim, EMPTY_STATE.(stack := [Identity(m)]), m, 0, None, None);
    RootArrival(st.nodes, m);
    SpliceArrivals(w, lim, 0, st, fr, 0, {Identity(m)});
  }

  lemma RootArrival(nodes: seq<Node>, m: Murl)
    requires NodesAs(nodes) == NodesAs([]) + [Arrival(Some(m), 0)]
    ensures NodesAs(nodes) == [Arrival(Some(m), 0)]
  {
  }

  lemma FileNodesExactly(w: World, lim: Limits, path: string, bytes: string)
    requires ResolveFile(w, lim, path, bytes).Done?
    ensures NodesAs(ResolveFile(w, lim, path, bytes).st.nodes) ==
            [Arrival(None, 0)] + Arrivals(FileWalk(w, lim, path, bytes))
  {
    var st, fr := FileGoing(w, lim, path, bytes);
    FileArrival(w, lim, path, bytes, st, fr);
    SpliceArrivals(w, lim, 1, st, fr, 0, {});
  }

  lemma FileArrival(w: World, lim: Limits, path: string, bytes: string, st: State, fr: Frame)
    requires Open(w, lim, EMPTY_STATE, None, bytes, FromFile(path), 0, None) == Ok((st, fr))
    ensures NodesAs(st.nodes) == [Arrival(None, 0)] && ResolveFile(w, lim, path, bytes) == Splice(w, lim, st, fr, 0)
  {
  }
}
