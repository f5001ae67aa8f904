/**
 How the plan is laid out and what a selector keeps of it: one contiguous block
 for each root resource, in the root's dispatch order.
 */
module ResolverSelection {
  import opened Wrappers
  import opened MurlScheme
  import opened Manifest
  import opened Graph
  import opened Walks
  import opened Store
  import opened Policy
  import opened Resolver
  import opened ResolverInvariants
  import opened ResolverPlan

  // ----- blocks -----

  // at[i] is the place, in the dispatch order, of the root resource that planned entry
  // i was spliced for. It never goes down, so each root resource has one contiguous block.
  predicate InBlocks(plan: seq<Planned>, doc: Doc, order: seq<nat>, at: seq<nat>, k: nat)
    requires Indices(doc.resources, order) && k <= |order|
  {
    && |at| == |plan|
    && (forall i :: 0 <= i < |at| ==> at[i] < k && plan[i].anchor == doc.resources[order[at[i]]].id)
    && (forall i, j :: 0 <= i < j < |at| ==> at[i] <= at[j])
  }

  predicate AnchoredFrom(plan: seq<Planned>, from: nat, anchor: string) {
    forall i :: from <= i < |plan| ==> plan[i].anchor == anchor
  }

  // A round adds at most one entry, anchored at its resource.
  lemma RoundAnchors(w: World, lim: Limits, st: State, fr: Frame, r: Resource)
    requires fr.Valid(lim)
    ensures match OneRound(w, lim, st, fr, r)
            case Halt(_, _) => true
            case Next(st1) => st.plan <= st1.plan && AnchoredFrom(st1.plan, |st.plan|, fr.Anchor(r))
            case Into(st2, inner, _) => st2.plan == st.plan && inner.anchor == Some(fr.Anchor(r))
  {
  }

  // Everything spliced below a nested manifest is anchored where that manifest is.
  lemma {:induction false} SpliceAnchors(w: World, lim: Limits, st: State, fr: Frame, k: nat)
    requires fr.At(lim, k) && fr.anchor.Some? && Splice(w, lim, st, fr, k).Done?
    ensures st.plan <= Splice(w, lim, st, fr, k).st.plan
    ensures AnchoredFrom(Splice(w, lim, st, fr, k).st.plan, |st.plan|, fr.anchor.value)
    decreases lim.maxDepth - fr.depth, |fr.order| - k
  {
    if k < |fr.order| {
      var next, r := k + 1, fr.doc.resources[fr.order[k]];
      RoundAnchors(w, lim, st, fr, r);
      match OneRound(w, lim, st, fr, r) {
        case Halt(_, _) =>
        case Next(st1) => SpliceAnchors(w, lim, st1, fr, next);
        case Into(st2, inner, id) =>
          SpliceAnchors(w, lim, st2, inner, 0);
          SpliceAnchors(w, lim, Leave(Splice(w, lim, st2, inner, 0).st, id), fr, next);
      }
    }
  }

  lemma MoreBlocks(plan: seq<Planned>, more: seq<Planned>, doc: Doc, order: seq<nat>, at: seq<nat>, k: nat)
    returns (longer: seq<nat>)
    requires Indices(doc.resources, order) && k < |order| && InBlocks(plan, doc, order, at, k)
    requires plan <= more && AnchoredFrom(more, |plan|, doc.resources[order[k]].id)
    ensures InBlocks(more, doc, order, longer, k + 1)
  {
    longer := at + seq(|more| - |plan|, i requires 0 <= i < |more| - |plan| => k);
    assert forall i :: 0 <= i < |plan| ==> more[i] == plan[i];
  }

  // The loop over the root's resources lays out their blocks one after the other.
  lemma {:induction false} SpliceBlocks(w: World, lim: Limits, st: State, fr: Frame, k: nat, at: seq<nat>)
    returns (all: seq<nat>)
    requires fr.At(lim, k) && fr.anchor.None? && Splice(w, lim, st, fr, k).Done?
    requires InBlocks(st.plan, fr.doc, fr.order, at, k)
    ensures InBlocks(Splice(w, lim, st, fr, k).st.plan, fr.doc, fr.order, all, |fr.order|)
    decreases |fr.order| - k
  {
    if k == |fr.order| {
      all := at;
    } else {
      var next, r := k + 1, fr.doc.resources[fr.order[k]];
      var st1 := AfterRound(w, lim, st, fr, k);
      var more := MoreBlocks(st.plan, st1.plan, fr.doc, fr.order, at, k);
      all := SpliceBlocks(w, lim, st1, fr, next, more);
    }
  }

  // The state in which the loop reaches its next resource.
  lemma AfterRound(w: World, lim: Limits, st: State, fr: Frame, k: nat) returns (st1: State)
    requires fr.At(lim, k) && k < |fr.order| && fr.anchor.None? && Splice(w, lim, st, fr, k).Done?
    ensures Splice(w, lim, st1, fr, k + 1) == Splice(w, lim, st, fr, k)
    ensures st.plan <= st1.plan && AnchoredFrom(st1.plan, |st.plan|, fr.doc.resources[fr.order[k]].id)
  {
    var r := fr.doc.resources[fr.order[k]];
    RoundAnchors(w, lim, st, fr, r);
    match OneRound(w, lim, st, fr, r) {
      case Next(st2) => st1 := st2;
      case Into(st2, inner, id) =>
        SpliceAnchors(w, lim, st2, inner, 0);
        st1 := Leave(Splice(w, lim, st2, inner, 0).st, id);
    }
  }

  // A resolved plan is in blocks.
  lemma PlanInBlocks(w: World, lim: Limits, m: Murl) returns (at: seq<nat>)
    requires ResolveName(w, lim, m).Done?
    ensures ManifestOf(w, lim, m).Some?
    ensures var (doc, order) := ManifestOf(w, lim, m).value;
      InBlocks(ResolveName(w, lim, m).st.plan, doc, order, at, |order|)
  {
    var st0 := EMPTY_STATE.(stack := [Identity(m)]);
    ArriveNames(w, lim, 0, st0, m, 0, None, None);
    var (st, fr) := Arrive(w, lim, st0, m, 0, None, None).value;
    assert ManifestOf(w, lim, m) == Some((fr.doc, fr.order));
    at := SpliceBlocks(w, lim, st, fr, 0, []);
  }

  // Where root resource a depends on b, all that was spliced for b comes before all that
  // was spliced for a.
  lemma DependencyFirst(plan: seq<Planned>, doc: Doc, order: seq<nat>, at: seq<nat>, a: nat, b: nat, i: nat, j: nat)
    requires InOrder(doc, order) && doc.UniqueIds() && InBlocks(plan, doc, order, at, |order|)
    requires (a, b) in Edges(doc.resources) && a < |doc.resources| && b < |doc.resources| && i < |plan| && j < |plan|
    requires plan[i].anchor == doc.resources[b].id && plan[j].anchor == doc.resources[a].id
    ensures i < j
  {
    var p, q := DependencyPlaces(doc, order, a, b);
    SamePlace(doc, order, at[i], p);
    SamePlace(doc, order, at[j], q);
  }

  lemma DependencyPlaces(doc: Doc, order: seq<nat>, a: nat, b: nat) returns (p: nat, q: nat)
    requires InOrder(doc, order) && (a, b) in Edges(doc.resources)
    ensures p < q < |order| && order[p] == b && order[q] == a
  {
    var edges := Edges(doc.resources);
    ExtendOrdered(doc.resources, []);
    OrderTopological(doc.resources, order);
    assert a in order;
    assert IsTopological(edges, order) && (a, b) in edges;
    p, q :| 0 <= p < q < |order| && order[p] == b && order[q] == a;
  }

  // With unique ids, a place in the order is known by its resource's id.
  lemma SamePlace(doc: Doc, order: seq<nat>, p: nat, q: nat)
    requires InOrder(doc, order) && doc.UniqueIds() && p < |order| && q < |order|
    requires doc.resources[order[p]].id == doc.resources[order[q]].id
    ensures p == q
  {
    ExtendOrdered(doc.resources, []);
    assert order[p] == order[q];
  }

  // ----- selecting -----

  // `kept` are the places of the claimed entries, ascending, and `out` what is there.
  predicate Keeps(items: seq<SelectorItem>, plan: seq<Planned>, out: seq<Planned>, kept: seq<nat>) {
    && |kept| == |out|
    && (forall i :: 0 <= i < |kept| ==> kept[i] < |plan| && out[i] == plan[kept[i]])
    && (forall i, j :: 0 <= i < j < |kept| ==> kept[i] < kept[j])
    && (forall p: nat :: p < |plan| ==> (p in kept <==> ClaimedByAny(items, plan[p])))
  }

  // A selector keeps exactly the entries one of its items claims, in their order.
  lemma {:induction false} RetainKeeps(items: seq<SelectorItem>, plan: seq<Planned>) returns (kept: seq<nat>)
    ensures Keeps(items, plan, Retain(items, plan), kept)
  {
    if plan == [] {
      kept := [];
    } else {
      var n := |plan| - 1;
      var front, last := plan[..n], plan[n];
      kept := RetainKeeps(items, front);
      KeepsMore(items, front, last, Retain(items, front), kept);
      assert plan == front + [last];
      assert Retain(items, front) + [] == Retain(items, front);
      kept := if ClaimedByAny(items, last) then kept + [n] else kept;
    }
  }

  lemma KeepsMore(items: seq<SelectorItem>, front: seq<Planned>, last: Planned, out: seq<Planned>, kept: seq<nat>)
    requires Keeps(items, front, out, kept)
    ensures ClaimedByAny(items, last) ==> Keeps(items, front + [last], out + [last], kept + [|front|])
    ensures !ClaimedByAny(items, last) ==> Keeps(items, front + [last], out, kept)
  {
    var plan := front + [last];
    forall p: nat | p < |front| ensures plan[p] == front[p] {
    }
    if ClaimedByAny(items, last) {
      var more := kept + [|front|];
      forall p: nat | p < |plan| ensures p in more <==> p in kept || p == |front| {
      }
    } else {
      assert |front| !in kept;
    }
  }

  // What an item asks for: an id of the root's, or a role or tag of something planned.
  predicate Asks(item: SelectorItem, root: Doc, plan: seq<Planned>) {
    match item
    case Id(id) => exists i :: 0 <= i < |root.resources| && root.resources[i].id == id
    case Role(role) => exists i :: 0 <= i < |plan| && plan[i].resource.role == Some(role)
    case Tag(tag) => exists i :: 0 <= i < |plan| && tag in plan[i].resource.tags
  }

  lemma AsksExactly(item: SelectorItem, root: Doc, plan: seq<Planned>)
    ensures Matches(item, root, plan) <==> Asks(item, root, plan)
  {
    if Asks(item, root, plan) && !item.Id? {
      if item.Role? {
        var i :| 0 <= i < |plan| && plan[i].resource.role == Some(item.value);
        assert Claims(item, plan[i]);
      } else {
        var i :| 0 <= i < |plan| && item.value in plan[i].resource.tags;
        assert Claims(item, plan[i]);
      }
    }
  }

  // A selection succeeds exactly when there is something for each of its items, and otherwise
  // names one there is nothing for; without a selector all is kept.
  lemma SelectsExactly(st: State, selector: Option<seq<SelectorItem>>)
    requires |st.nodes| > 0
    ensures var r := Finish(st, selector);
      && (r.Ok? <==> selector.Some? ==>
            forall i :: 0 <= i < |selector.value| ==> Asks(selector.value[i], st.nodes[0].doc, st.plan))
      && (r.Ok? ==> r.value.nodes == st.nodes && r.value.warnings == st.warnings)
      && (r.Ok? && selector.None? ==> r.value.plan == st.plan)
      && (r.Err? ==> r.error.UnmatchedSelector? && selector.Some? && r.error.item in selector.value
                     && !Asks(r.error.item, st.nodes[0].doc, st.plan))
  {
    forall item: SelectorItem
      ensures Matches(item, st.nodes[0].doc, st.plan) <==> Asks(item, st.nodes[0].doc, st.plan)
    {
      AsksExactly(item, st.nodes[0].doc, st.plan);
    }
  }

  // A root resource whose whole unfolding occurs earlier in the unfolding.
  predicate Shadowed(all: seq<Item>, id: string) {
    forall i :: 0 <= i < |all| && all[i].anchor == id ==> Present(all[..i], KeyOf(all[i].resource))
  }

  // What is left of an anchor among the first occurrences.
  predicate AnchorLeft(items: seq<Item>, id: string) {
    exists i :: 0 <= i < |items| && items[i].anchor == id
  }

  lemma {:induction false} ShadowedIffNothingLeft(all: seq<Item>, id: string)
    ensures AnchorLeft(Firsts(all), id) <==> !Shadowed(all, id)
  {
    if all != [] {
      var n := |all| - 1;
      var front, last := all[..n], all[n];
      ShadowedIffNothingLeft(front, id);
      ShadowedMore(all, id);
      assert Firsts(front) + [] == Firsts(front);
      if !Present(front, KeyOf(last.resource)) {
        AnchorLeftMore(Firsts(front), last, id);
      }
    }
  }

  lemma AnchorLeftMore(items: seq<Item>, x: Item, id: string)
    ensures AnchorLeft(items + [x], id) <==> AnchorLeft(items, id) || x.anchor == id
  {
    var more := items + [x];
    if i :| 0 <= i < |items| && items[i].anchor == id {
      assert more[i] == items[i];
    }
    assert more[|items|] == x;
  }

  lemma ShadowedMore(all: seq<Item>, id: string)
    requires all != []
    ensures Shadowed(all, id) <==>
      Shadowed(all[..|all| - 1], id)
      && (all[|all| - 1].anchor == id ==> Present(all[..|all| - 1], KeyOf(all[|all| - 1].resource)))
  {
    var n := |all| - 1;
    forall i | 0 <= i < n ensures all[..n][i] == all[i] && all[..n][..i] == all[..i] {
    }
  }

  lemma SelectedIffClaimed(items: seq<SelectorItem>, plan: seq<Planned>)
    ensures Retain(items, plan) == [] <==> forall p :: 0 <= p < |plan| ==> !ClaimedByAny(items, plan[p])
  {
    var kept := RetainKeeps(items, plan);
    if kept != [] {
      assert kept[0] in kept;
    }
    forall p | 0 <= p < |plan| && ClaimedByAny(items, plan[p]) ensures p in kept {
    }
  }

  // The selector's promise is that a success is never empty. It is kept exactly unless
  // every item is an id whose root resource adds nothing new to the unfolding.
  lemma EmptySelection(w: World, lim: Limits, m: Murl, items: seq<SelectorItem>) returns (all: seq<Item>)
    requires Sound(w) && ResolveName(w, lim, m).Done? && |ResolveName(w, lim, m).st.nodes| > 0
    requires Finish(ResolveName(w, lim, m).st, Some(items)).Ok?
    ensures ManifestOf(w, lim, m).Some?
    ensures var (doc, order) := ManifestOf(w, lim, m).value;
      exists fuel :: RootUnfolding(w, lim, doc, order, fuel) == Some(all)
    ensures Finish(ResolveName(w, lim, m).st, Some(items)).value.plan == [] <==>
      forall i :: 0 <= i < |items| ==> items[i].Id? && Shadowed(all, items[i].value)
  {
    var fuel := PlanOfName(w, lim, m);
    var (doc, order) := ManifestOf(w, lim, m).value;
    all := RootUnfolding(w, lim, doc, order, fuel).value;
    assert RootUnfolding(w, lim, doc, order, fuel) == Some(all);
    var st := ResolveName(w, lim, m).st;
    EmptyIffShadowed(st, items, all);
  }

  lemma EmptyIffShadowed(st: State, items: seq<SelectorItem>, all: seq<Item>)
    requires |st.nodes| > 0 && Finish(st, Some(items)).Ok? && View(st.plan) == Firsts(all)
    ensures Finish(st, Some(items)).value.plan == [] <==>
      forall i :: 0 <= i < |items| ==> items[i].Id? && Shadowed(all, items[i].value)
  {
    SelectedIffClaimed(items, st.plan);
    forall i | 0 <= i < |items|
      ensures !ItemClaims(items[i], st.plan) <==> items[i].Id? && Shadowed(all, items[i].value)
    {
      assert Matches(items[i], st.nodes[0].doc, st.plan);
      if items[i].Id? {
        ShadowedIffNothingLeft(all, items[i].value);
        IdClaims(items[i], st.plan);
      }
    }
    ClaimedByItem(items, st.plan);
  }

  predicate ItemClaims(item: SelectorItem, plan: seq<Planned>) {
    exists p :: 0 <= p < |plan| && Claims(item, plan[p])
  }

  lemma IdClaims(item: SelectorItem, plan: seq<Planned>)
    requires item.Id?
    ensures ItemClaims(item, plan) <==> AnchorLeft(View(plan), item.value)
  {
    if p :| 0 <= p < |plan| && Claims(item, plan[p]) {
      assert View(plan)[p].anchor == item.value;
    }
  }

  lemma ClaimedByItem(items: seq<SelectorItem>, plan: seq<Planned>)
    ensures (forall p :: 0 <= p < |plan| ==> !ClaimedByAny(items, plan[p])) <==>
            forall i :: 0 <= i < |items| ==> !ItemClaims(items[i], plan)
  {
    if i :| 0 <= i < |items| && ItemClaims(items[i], plan) {
      var p :| 0 <= p < |plan| && Claims(items[i], plan[p]);
      assert ClaimedByAny(items, plan[p]);
    }
    if p :| 0 <= p < |plan| && ClaimedByAny(items, plan[p]) {
      var i :| 0 <= i < |items| && Claims(items[i], plan[p]);
      assert ItemClaims(items[i], plan);
    }
  }

  // ----- an empty success -----

  function Page(id: string): Resource {
    Resource(id, Https, "https://example.org/", None, true, 0, [], [], None)
  }

  // What the validator notes of the second of two equal targets.
  const REPEATED := "/resources/1/target: duplicate (kind, target) pair"

  const TWINS := Doc("twins", None, [Page("a"), Page("b")], None, None, None, [REPEATED])

  function TwinWorld(m: Murl): World {
    World(map[ManifestPath(m) := "twins"], None, None,
          (b: string) => if b == "twins" then Ok(TWINS) else Err("not JSON"),
          (b: string, pin: string) => false, (authority: string, key: string) => false, 0)
  }

  const SMALL_LIMITS := Limits(4, 100, 20, 1000, 0)

  // A world the theorems apply to.
  lemma TwinWorldIsSound(m: Murl)
    ensures Sound(TwinWorld(m))
  {
  }

  lemma TwinOrder()
    ensures ExecutionOrder(TWINS.resources) == Ok([0, 1])
  {
    NoEdgesStableSort(TWINS.resources);
    var order := ExecutionOrder(TWINS.resources).value;
    assert Before(TWINS.resources, order[0], order[1]);
    assert order == [0, 1];
  }

  lemma TwinOpens(m: Murl, st: State, name: Option<Murl>) returns (st1: State, fr: Frame)
    ensures Open(TwinWorld(m), SMALL_LIMITS, st, name, "twins", FromStore(ManifestPath(m)), 0, None) == Ok((st1, fr))
    ensures fr.doc == TWINS && fr.order == [0, 1] && fr.anchor == None && fr.depth == 0
    ensures st1.plan == st.plan && st1.dedup == st.dedup && |st1.nodes| == |st.nodes| + 1
    ensures st1.nodes[|st.nodes|].doc == TWINS
  {
    TwinOrder();
    var r := Open(TwinWorld(m), SMALL_LIMITS, st, name, "twins", FromStore(ManifestPath(m)), 0, None);
    st1, fr := r.value.0, r.value.1;
  }

  lemma TwinPlan(m: Murl, st: State, fr: Frame)
    requires fr.At(SMALL_LIMITS, 0) && fr.doc == TWINS && fr.order == [0, 1] && fr.anchor == None
    requires st.plan == [] && st.dedup == {}
    ensures var o := Splice(TwinWorld(m), SMALL_LIMITS, st, fr, 0);
      o.Done? && o.st.nodes == st.nodes && |o.st.plan| == 1 && o.st.plan[0].anchor == "a"
  {
    var w := TwinWorld(m);
    var first := OneRound(w, SMALL_LIMITS, st, fr, Page("a"));
    var second := OneRound(w, SMALL_LIMITS, first.st, fr, Page("b"));
    assert Splice(w, SMALL_LIMITS, first.st, fr, 1) == Splice(w, SMALL_LIMITS, second.st, fr, 2);
  }

  lemma TwinArrives(m: Murl) returns (st: State, fr: Frame)
    requires m.authority.Local?
    ensures Arrive(TwinWorld(m), SMALL_LIMITS, EMPTY_STATE.(stack := [Identity(m)]), m, 0, None, None) == Ok((st, fr))
    ensures fr.At(SMALL_LIMITS, 0) && fr.doc == TWINS && fr.order == [0, 1] && fr.anchor == None
    ensures st.plan == [] && st.dedup == {} && |st.nodes| == 1 && st.nodes[0].doc == TWINS
  {
    var st0 := EMPTY_STATE.(stack := [Identity(m)]);
    assert Locate(TwinWorld(m), SMALL_LIMITS, m) == Ok(Found("twins", FromStore(ManifestPath(m)), []));
    st, fr := TwinOpens(m, st0.(manifests := 0 + 1, log := [] + [m], warnings := [] + []), Some(m));
  }

  lemma TwinSelects(st: State)
    requires |st.nodes| == 1 && st.nodes[0].doc == TWINS && |st.plan| == 1 && st.plan[0].anchor == "a"
    ensures Finish(st, Some([Id("b")])).Ok? && Finish(st, Some([Id("b")])).value.plan == []
  {
    assert TWINS.resources[1].id == "b";
    assert Matches(Id("b"), TWINS, st.plan);
    assert !Claims(Id("b"), st.plan[0]);
    SelectedIffClaimed([Id("b")], st.plan);
  }

  // Two resources with one target: selecting the second succeeds and selects nothing.
  lemma EmptySuccess(m: Murl)
    requires m.authority.Local?
    ensures Sound(TwinWorld(m))
    ensures var o := ResolveName(TwinWorld(m), SMALL_LIMITS, m);
      && o.Done? && |o.st.nodes| > 0
      && Finish(o.st, Some([Id("b")])).Ok? && Finish(o.st, Some([Id("b")])).value.plan == []
  {
    TwinWorldIsSound(m);
    var st, fr := TwinArrives(m);
    TwinPlan(m, st, fr);
    TwinSelects(Splice(TwinWorld(m), SMALL_LIMITS, st, fr, 0).st);
  }
}
