/**
 What the plan is: the first occurrences of the full unfolding of the nesting
 graph, in pre-order. Skipping an identity that was resolved before, and
 suppressing duplicates, neither loses nor reorders a resource.
 */
module ResolverPlan {
  import opened Wrappers
  import opened MurlScheme
  import opened MurlRoundTrip
  import opened Manifest
  import opened Graph
  import opened Store
  import opened Resolver
  import opened ResolverInvariants

  // ----- the unfolding -----

  datatype Item = Item(resource: Resource, anchor: string)

  // The manifest a name leads to, with its resources in dispatch order.
  function ManifestOf(w: World, lim: Limits, m: Murl): (r: Option<(Doc, seq<nat>)>)
    ensures r.Some? ==> InOrder(r.value.0, r.value.1)
  {
    match Locate(w, lim, m)
    case Err(_) => None
    case Ok(found) =>
      match w.decode(found.bytes)
      case Err(_) => None
      case Ok(doc) =>
        match ExecutionOrder(doc.resources)
        case Err(_) => None
        case Ok(order) =>
          OrderIndices(doc.resources);
          Some((doc, order))
  }

  predicate InOrder(doc: Doc, order: seq<nat>) {
    Indices(doc.resources, order) && ExecutionOrder(doc.resources) == Ok(order)
  }

  function Concat(a: Option<seq<Item>>, b: Option<seq<Item>>): Option<seq<Item>> {
    if a.Some? && b.Some? then Some(a.value + b.value) else None
  }

  // Every dispatchable resource below a name, in pre-order, duplicates and all.
  // None when the nesting is deeper than the fuel.
  function Unfold(w: World, lim: Limits, m: Murl, anchor: string, fuel: nat): Option<seq<Item>>
    decreases fuel, 0
  {
    if fuel == 0 then None
    else
      match ManifestOf(w, lim, m)
      case None => None
      case Some((doc, order)) => UnfoldFrom(w, lim, doc, order, Some(anchor), 0, fuel - 1)
  }

  // The same below the resources order[k..] of one manifest.
  function UnfoldFrom(w: World, lim: Limits, doc: Doc, order: seq<nat>, anchor: Option<string>, k: nat, fuel: nat)
    : Option<seq<Item>>
    requires InOrder(doc, order) && k <= |order|
    decreases fuel, |order| - k + 1
  {
    if k == |order| then Some([])
    else
      var r := doc.resources[order[k]];
      var a := if anchor.Some? then anchor.value else r.id;
      Concat(UnfoldOne(w, lim, r, a, fuel), UnfoldFrom(w, lim, doc, order, anchor, k + 1, fuel))
  }

  function UnfoldOne(w: World, lim: Limits, r: Resource, anchor: string, fuel: nat): Option<seq<Item>>
    decreases fuel, 1
  {
    if r.kind.Nested? then Unfold(w, lim, r.kind.child, anchor, fuel) else Some([Item(r, anchor)])
  }

  // More fuel changes nothing once there is a result.
  lemma {:induction false} UnfoldMoreFuel(w: World, lim: Limits, m: Murl, anchor: string, f: nat, g: nat)
    requires Unfold(w, lim, m, anchor, f).Some? && f <= g
    ensures Unfold(w, lim, m, anchor, g) == Unfold(w, lim, m, anchor, f)
    decreases f, 0
  {
    UnfoldInto(w, lim, m, anchor, f);
    UnfoldInto(w, lim, m, anchor, g);
    var (doc, order) := ManifestOf(w, lim, m).value;
    UnfoldFromMoreFuel(w, lim, doc, order, Some(anchor), 0, f - 1, g - 1);
  }

  lemma UnfoldInto(w: World, lim: Limits, m: Murl, anchor: string, fuel: nat)
    requires fuel > 0
    ensures ManifestOf(w, lim, m).None? ==> Unfold(w, lim, m, anchor, fuel) == None
    ensures ManifestOf(w, lim, m).Some? ==>
      var (doc, order) := ManifestOf(w, lim, m).value;
      Unfold(w, lim, m, anchor, fuel) == UnfoldFrom(w, lim, doc, order, Some(anchor), 0, fuel - 1)
  {
  }

  lemma {:induction false} UnfoldFromMoreFuel(w: World, lim: Limits, doc: Doc, order: seq<nat>, anchor: Option<string>,
                                              k: nat, f: nat, g: nat)
    requires InOrder(doc, order) && k <= |order| && f <= g
    requires UnfoldFrom(w, lim, doc, order, anchor, k, f).Some?
    ensures UnfoldFrom(w, lim, doc, order, anchor, k, g) == UnfoldFrom(w, lim, doc, order, anchor, k, f)
    decreases f, |order| - k + 1
  {
    if k < |order| {
      var r := doc.resources[order[k]];
      var a := if anchor.Some? then anchor.value else r.id;
      if r.kind.Nested? {
        UnfoldMoreFuel(w, lim, r.kind.child, a, f, g);
      }
      UnfoldFromMoreFuel(w, lim, doc, order, anchor, k + 1, f, g);
    }
  }

  // The anchor is carried along and decides nothing.
  predicate SameResources(a: Option<seq<Item>>, b: Option<seq<Item>>) {
    && (a.Some? <==> b.Some?)
    && (a.Some? ==> |a.value| == |b.value|
                    && forall i :: 0 <= i < |a.value| ==> a.value[i].resource == b.value[i].resource)
  }

  lemma {:induction false} UnfoldAnchor(w: World, lim: Limits, m: Murl, a: string, b: string, f: nat)
    ensures SameResources(Unfold(w, lim, m, a, f), Unfold(w, lim, m, b, f))
    decreases f, 0
  {
    if f > 0 && ManifestOf(w, lim, m).Some? {
      var (doc, order) := ManifestOf(w, lim, m).value;
      UnfoldFromAnchor(w, lim, doc, order, a, b, 0, f - 1);
    }
  }

  lemma {:induction false} UnfoldFromAnchor(w: World, lim: Limits, doc: Doc, order: seq<nat>, a: string, b: string,
                                            k: nat, f: nat)
    requires InOrder(doc, order) && k <= |order|
    ensures SameResources(UnfoldFrom(w, lim, doc, order, Some(a), k, f), UnfoldFrom(w, lim, doc, order, Some(b), k, f))
    decreases f, |order| - k + 1
  {
    if k < |order| {
      var r := doc.resources[order[k]];
      if r.kind.Nested? {
        UnfoldAnchor(w, lim, r.kind.child, a, b, f);
      }
      UnfoldFromAnchor(w, lim, doc, order, a, b, k + 1, f);
    }
  }

  // Selector and query play no part.
  lemma UnfoldBare(w: World, lim: Limits, a: Murl, b: Murl, anchor: string, f: nat)
    requires a.Bare() == b.Bare()
    ensures Unfold(w, lim, a, anchor, f) == Unfold(w, lim, b, anchor, f)
  {
    LocateBare(w, lim, a, b);
  }

  lemma LocateBare(w: World, lim: Limits, a: Murl, b: Murl)
    requires a.Bare() == b.Bare()
    ensures Locate(w, lim, a) == Locate(w, lim, b) && ManifestOf(w, lim, a) == ManifestOf(w, lim, b)
  {
    assert Identity(a) == Identity(b) && ManifestPath(a) == ManifestPath(b) && WellKnownUrl(a) == WellKnownUrl(b);
  }

  // ----- first occurrences -----

  predicate Present(items: seq<Item>, key: Key) {
    exists i :: 0 <= i < |items| && KeyOf(items[i].resource) == key
  }

  function Absorb(items: seq<Item>, x: Item): seq<Item> {
    if Present(items, KeyOf(x.resource)) then items else items + [x]
  }

  function Merge(items: seq<Item>, more: seq<Item>): seq<Item>
    decreases |more|
  {
    if more == [] then items else Merge(Absorb(items, more[0]), more[1..])
  }

  lemma {:induction false} MergeConcat(items: seq<Item>, a: seq<Item>, b: seq<Item>)
    ensures Merge(items, a + b) == Merge(Merge(items, a), b)
    decreases |a|
  {
    if a == [] {
      assert a + b == b;
    } else {
      assert (a + b)[1..] == a[1..] + b;
      MergeConcat(Absorb(items, a[0]), a[1..], b);
    }
  }

  // Merging keeps what is there and covers what is merged.
  lemma {:induction false} MergeCovers(items: seq<Item>, more: seq<Item>)
    ensures items <= Merge(items, more)
    ensures forall i :: 0 <= i < |more| ==> Present(Merge(items, more), KeyOf(more[i].resource))
    decreases |more|
  {
    if more != [] {
      var next := Absorb(items, more[0]);
      MergeCovers(next, more[1..]);
      assert Present(next, KeyOf(more[0].resource)) by {
        if !Present(items, KeyOf(more[0].resource)) {
          assert next[|items|] == more[0];
        }
      }
      PresentLonger(next, Merge(items, more), KeyOf(more[0].resource));
    }
  }

  lemma PresentLonger(items: seq<Item>, longer: seq<Item>, key: Key)
    requires items <= longer && Present(items, key)
    ensures Present(longer, key)
  {
    var i :| 0 <= i < |items| && KeyOf(items[i].resource) == key;
    assert longer[i] == items[i];
  }

  lemma {:induction false} MergeNothingNew(items: seq<Item>, more: seq<Item>)
    requires forall i :: 0 <= i < |more| ==> Present(items, KeyOf(more[i].resource))
    ensures Merge(items, more) == items
    decreases |more|
  {
    if more != [] {
      MergeNothingNew(items, more[1..]);
    }
  }

  // The independent description: keep an item when no earlier one has its key.
  function Firsts(items: seq<Item>): seq<Item> {
    if items == [] then []
    else
      var n := |items| - 1;
      Firsts(items[..n]) + if Present(items[..n], KeyOf(items[n].resource)) then [] else [items[n]]
  }

  lemma {:induction false} FirstsKeys(items: seq<Item>, key: Key)
    ensures Present(Firsts(items), key) <==> Present(items, key)
  {
    if items != [] {
      var n := |items| - 1;
      FirstsKeys(items[..n], key);
      assert items == items[..n] + [items[n]];
      PresentMore(items[..n], items[n], key);
      PresentMore(Firsts(items[..n]), items[n], key);
      FirstsKeys(items[..n], KeyOf(items[n].resource));
      assert Firsts(items[..n]) + [] == Firsts(items[..n]);
    }
  }

  lemma PresentMore(items: seq<Item>, x: Item, key: Key)
    ensures Present(items + [x], key) <==> Present(items, key) || KeyOf(x.resource) == key
  {
    var more := items + [x];
    if i :| 0 <= i < |items| && KeyOf(items[i].resource) == key {
      assert more[i] == items[i];
    }
    assert more[|items|] == x;
  }

  lemma {:induction false} MergeIsFirsts(items: seq<Item>)
    ensures Merge([], items) == Firsts(items)
  {
    if items != [] {
      var n := |items| - 1;
      assert items == items[..n] + [items[n]];
      MergeConcat([], items[..n], [items[n]]);
      MergeIsFirsts(items[..n]);
      FirstsKeys(items[..n], KeyOf(items[n].resource));
      assert Merge(Firsts(items[..n]), [items[n]]) == Absorb(Firsts(items[..n]), items[n]);
    }
  }

  // ----- the loop computes it -----

  function View(plan: seq<Planned>): (items: seq<Item>)
    ensures |items| == |plan|
    ensures forall i :: 0 <= i < |plan| ==> items[i] == Item(plan[i].resource, plan[i].anchor)
  {
    seq(|plan|, i requires 0 <= i < |plan| => Item(plan[i].resource, plan[i].anchor))
  }

  // Everything below `m` is already in the plan.
  ghost predicate Covers(w: World, lim: Limits, m: Murl, fuel: nat, items: seq<Item>) {
    var below := Unfold(w, lim, m, "", fuel);
    below.Some? && forall i :: 0 <= i < |below.value| ==> Present(items, KeyOf(below.value[i].resource))
  }

  ghost predicate CoveredName(w: World, lim: Limits, id: string, items: seq<Item>) {
    exists m, fuel :: Valid(m) && Identity(m) == id && Covers(w, lim, m, fuel, items)
  }

  ghost predicate AllCovered(w: World, lim: Limits, visited: set<string>, items: seq<Item>) {
    forall id :: id in visited ==> CoveredName(w, lim, id, items)
  }

  lemma CoveredLonger(w: World, lim: Limits, id: string, items: seq<Item>, longer: seq<Item>)
    requires items <= longer && CoveredName(w, lim, id, items)
    ensures CoveredName(w, lim, id, longer)
  {
    var m, fuel :| Valid(m) && Identity(m) == id && Covers(w, lim, m, fuel, items);
    var below := Unfold(w, lim, m, "", fuel).value;
    forall i | 0 <= i < |below| ensures Present(longer, KeyOf(below[i].resource)) {
      PresentLonger(items, longer, KeyOf(below[i].resource));
    }
    assert Covers(w, lim, m, fuel, longer);
  }

  lemma AllCoveredLonger(w: World, lim: Limits, visited: set<string>, items: seq<Item>, longer: seq<Item>)
    requires items <= longer && AllCovered(w, lim, visited, items)
    ensures AllCovered(w, lim, visited, longer)
  {
    forall id | id in visited ensures CoveredName(w, lim, id, longer) {
      CoveredLonger(w, lim, id, items, longer);
    }
  }

  predicate FrameKept(fr: Frame) {
    InOrder(fr.doc, fr.order) && fr.doc.WellFormed()
  }

  lemma PresentIffPlanned(plan: seq<Planned>, key: Key)
    ensures Present(View(plan), key) <==> HasKey(plan, key)
  {
    if i :| 0 <= i < |plan| && KeyOf(plan[i].resource) == key {
      assert KeyOf(View(plan)[i].resource) == key;
    }
  }

  // A round on a dispatchable resource absorbs it.
  lemma LeafRound(w: World, lim: Limits, st: State, fr: Frame, r: Resource)
    requires fr.Valid(lim) && PlanKept(lim, st) && !r.kind.Nested? && OneRound(w, lim, st, fr, r).Next?
    ensures var st1 := OneRound(w, lim, st, fr, r).st;
      && View(st1.plan) == Absorb(View(st.plan), Item(r, fr.Anchor(r)))
      && st1.visited == st.visited
  {
    PresentIffPlanned(st.plan, KeyOf(r));
    assert KeyOf(r) in st.dedup <==> HasKey(st.plan, KeyOf(r));
  }

  // A round on a nested name is passed over when the name was resolved before,
  // and otherwise enters the manifest the unfolding has there.
  lemma NestedRound(w: World, lim: Limits, st: State, fr: Frame, r: Resource)
    requires fr.Valid(lim) && r.kind.Nested?
    ensures var round := OneRound(w, lim, st, fr, r);
      && (round.Next? ==>
            round.st.plan == st.plan && round.st.visited == st.visited && Identity(r.kind.child) in st.visited)
      && (round.Into? ==>
            && round.st.plan == st.plan && round.st.visited == st.visited
            && ManifestOf(w, lim, r.kind.child) == Some((round.inner.doc, round.inner.order))
            && round.inner.anchor == Some(fr.Anchor(r)))
  {
  }

  // The unfolding of a name passed over adds nothing.
  lemma SkippedName(w: World, lim: Limits, visited: set<string>, items: seq<Item>, child: Murl, anchor: string)
    returns (fuel: nat)
    requires AllCovered(w, lim, visited, items) && Valid(child) && Identity(child) in visited
    ensures Unfold(w, lim, child, anchor, fuel).Some?
    ensures Merge(items, Unfold(w, lim, child, anchor, fuel).value) == items
  {
    assert CoveredName(w, lim, Identity(child), items);
    var m, f :| Valid(m) && Identity(m) == Identity(child) && Covers(w, lim, m, f, items);
    fuel := f;
    IdentityInjective(m, child);
    UnfoldBare(w, lim, m, child, "", f);
    UnfoldAnchor(w, lim, child, "", anchor, f);
    var below := Unfold(w, lim, child, anchor, f).value;
    forall i | 0 <= i < |below| ensures Present(items, KeyOf(below[i].resource)) {
      assert below[i].resource == Unfold(w, lim, child, "", f).value[i].resource;
    }
    MergeNothingNew(items, below);
  }

  // A name gone through is covered from then on.
  lemma CoverLeft(w: World, lim: Limits, visited: set<string>, before: seq<Item>, items: seq<Item>, child: Murl,
                  anchor: string, fuel: nat)
    requires AllCovered(w, lim, visited, items) && Valid(child)
    requires Unfold(w, lim, child, anchor, fuel).Some?
    requires items == Merge(before, Unfold(w, lim, child, anchor, fuel).value)
    ensures AllCovered(w, lim, visited + {Identity(child)}, items)
  {
    MergeCovers(before, Unfold(w, lim, child, anchor, fuel).value);
    UnfoldAnchor(w, lim, child, anchor, "", fuel);
    var below := Unfold(w, lim, child, "", fuel).value;
    forall i | 0 <= i < |below| ensures Present(items, KeyOf(below[i].resource)) {
      assert below[i].resource == Unfold(w, lim, child, anchor, fuel).value[i].resource;
    }
    assert Covers(w, lim, child, fuel, items);
  }

  // One resource in front of the rest.
  lemma UnfoldStep(w: World, lim: Limits, doc: Doc, order: seq<nat>, anchor: Option<string>, k: nat,
                   f: nat, g: nat, items: seq<Item>) returns (fuel: nat)
    requires InOrder(doc, order) && k < |order|
    requires var r := doc.resources[order[k]];
      UnfoldOne(w, lim, r, if anchor.Some? then anchor.value else r.id, f).Some?
    requires UnfoldFrom(w, lim, doc, order, anchor, k + 1, g).Some?
    ensures UnfoldFrom(w, lim, doc, order, anchor, k, fuel).Some?
    ensures var r := doc.resources[order[k]];
      Merge(items, UnfoldFrom(w, lim, doc, order, anchor, k, fuel).value) ==
      Merge(Merge(items, UnfoldOne(w, lim, r, if anchor.Some? then anchor.value else r.id, f).value),
            UnfoldFrom(w, lim, doc, order, anchor, k + 1, g).value)
  {
    var r := doc.resources[order[k]];
    var a := if anchor.Some? then anchor.value else r.id;
    fuel := if f < g then g else f;
    if r.kind.Nested? {
      UnfoldMoreFuel(w, lim, r.kind.child, a, f, fuel);
    }
    UnfoldFromMoreFuel(w, lim, doc, order, anchor, k + 1, g, fuel);
    MergeConcat(items, UnfoldOne(w, lim, r, a, f).value, UnfoldFrom(w, lim, doc, order, anchor, k + 1, g).value);
  }

  lemma {:induction false} SpliceUnfolds(w: World, lim: Limits, st: State, fr: Frame, k: nat) returns (fuel: nat)
    requires Sound(w) && fr.At(lim, k) && FrameKept(fr)
    requires PlanKept(lim, st) && Rooted(st, fr) && AllCovered(w, lim, st.visited, View(st.plan))
    requires Splice(w, lim, st, fr, k).Done?
    ensures var all := UnfoldFrom(w, lim, fr.doc, fr.order, fr.anchor, k, fuel);
      var st1 := Splice(w, lim, st, fr, k).st;
      && all.Some? && View(st1.plan) == Merge(View(st.plan), all.value)
      && AllCovered(w, lim, st1.visited, View(st1.plan))
    decreases lim.maxDepth - fr.depth, |fr.order| - k
  {
    if k == |fr.order| {
      fuel := 0;
    } else {
      var r := fr.doc.resources[fr.order[k]];
      var round := OneRound(w, lim, st, fr, r);
      RoundPlan(w, lim, st, fr, r);
      if round.Next? {
        var f := NextCovered(w, lim, st, fr, k);
        var g := SpliceUnfolds(w, lim, round.st, fr, k + 1);
        fuel := UnfoldStep(w, lim, fr.doc, fr.order, fr.anchor, k, f, g, View(st.plan));
      } else {
        fuel := IntoUnfolds(w, lim, st, fr, k);
      }
    }
  }

  // A round that goes on to the next resource has merged what the unfolding has for this one.
  lemma NextCovered(w: World, lim: Limits, st: State, fr: Frame, k: nat) returns (f: nat)
    requires fr.At(lim, k) && FrameKept(fr) && k < |fr.order|
    requires PlanKept(lim, st) && AllCovered(w, lim, st.visited, View(st.plan))
    requires OneRound(w, lim, st, fr, fr.doc.resources[fr.order[k]]).Next?
    ensures var r := fr.doc.resources[fr.order[k]];
      var st1 := OneRound(w, lim, st, fr, r).st;
      var here := UnfoldOne(w, lim, r, fr.Anchor(r), f);
      && here.Some? && View(st1.plan) == Merge(View(st.plan), here.value)
      && AllCovered(w, lim, st1.visited, View(st1.plan))
  {
    var r := fr.doc.resources[fr.order[k]];
    var st1 := OneRound(w, lim, st, fr, r).st;
    if r.kind.Nested? {
      NestedRound(w, lim, st, fr, r);
      f := SkippedName(w, lim, st.visited, View(st.plan), r.kind.child, fr.Anchor(r));
    } else {
      f := 0;
      LeafRound(w, lim, st, fr, r);
      var x := Item(r, fr.Anchor(r));
      assert Merge(View(st.plan), [x]) == Absorb(View(st.plan), x);
      AllCoveredLonger(w, lim, st.visited, View(st.plan), View(st1.plan));
    }
  }

  // The state after a nested manifest was gone through.
  function AfterNested(w: World, lim: Limits, st: State, fr: Frame, k: nat): State
    requires fr.At(lim, k) && k < |fr.order|
    requires OneRound(w, lim, st, fr, fr.doc.resources[fr.order[k]]).Into?
    requires Splice(w, lim, st, fr, k).Done?
  {
    var Into(st2, inner, id) := OneRound(w, lim, st, fr, fr.doc.resources[fr.order[k]]);
    Leave(Splice(w, lim, st2, inner, 0).st, id)
  }

  lemma SpliceAfterNested(w: World, lim: Limits, st: State, fr: Frame, k: nat)
    requires fr.At(lim, k) && k < |fr.order|
    requires OneRound(w, lim, st, fr, fr.doc.resources[fr.order[k]]).Into?
    requires Splice(w, lim, st, fr, k).Done?
    ensures Splice(w, lim, st, fr, k) == Splice(w, lim, AfterNested(w, lim, st, fr, k), fr, k + 1)
  {
  }

  lemma InnerKept(w: World, lim: Limits, st: State, fr: Frame, r: Resource)
    requires Sound(w) && fr.Valid(lim) && r.kind.Nested? && OneRound(w, lim, st, fr, r).Into?
    ensures FrameKept(OneRound(w, lim, st, fr, r).inner)
  {
    NestedRound(w, lim, st, fr, r);
    var found := Locate(w, lim, r.kind.child);
    assert w.decode(found.value.bytes).value.WellFormed();
  }

  lemma {:induction false} NestedUnfolds(w: World, lim: Limits, st: State, fr: Frame, k: nat) returns (fuel: nat)
    requires Sound(w) && fr.At(lim, k) && FrameKept(fr) && k < |fr.order|
    requires PlanKept(lim, st) && Rooted(st, fr) && AllCovered(w, lim, st.visited, View(st.plan))
    requires OneRound(w, lim, st, fr, fr.doc.resources[fr.order[k]]).Into?
    requires Splice(w, lim, st, fr, k).Done?
    ensures var r := fr.doc.resources[fr.order[k]];
      var here := UnfoldOne(w, lim, r, fr.Anchor(r), fuel);
      var st4 := AfterNested(w, lim, st, fr, k);
      && here.Some? && View(st4.plan) == Merge(View(st.plan), here.value)
      && AllCovered(w, lim, st4.visited, View(st4.plan)) && PlanKept(lim, st4) && Rooted(st4, fr)
    decreases lim.maxDepth - fr.depth, |fr.order| - k, 0
  {
    var r := fr.doc.resources[fr.order[k]];
    var child, a := r.kind.child, fr.Anchor(r);
    var Into(st2, inner, id) := OneRound(w, lim, st, fr, r);
    NestedRound(w, lim, st, fr, r);
    InnerKept(w, lim, st, fr, r);
    RoundPlan(w, lim, st, fr, r);
    var st3 := Splice(w, lim, st2, inner, 0).st;
    var f := SpliceUnfolds(w, lim, st2, inner, 0);
    fuel := f + 1;
    UnfoldInto(w, lim, child, a, fuel);
    CoverLeft(w, lim, st3.visited, View(st.plan), View(st3.plan), child, a, fuel);
    SplicePlanKept(w, lim, st2, inner, 0);
    PlanKeptMoreNodes(lim, st3, Leave(st3, id));
  }

  lemma {:induction false} IntoUnfolds(w: World, lim: Limits, st: State, fr: Frame, k: nat) returns (fuel: nat)
    requires Sound(w) && fr.At(lim, k) && FrameKept(fr) && k < |fr.order|
    requires PlanKept(lim, st) && Rooted(st, fr) && AllCovered(w, lim, st.visited, View(st.plan))
    requires OneRound(w, lim, st, fr, fr.doc.resources[fr.order[k]]).Into?
    requires Splice(w, lim, st, fr, k).Done?
    ensures var all := UnfoldFrom(w, lim, fr.doc, fr.order, fr.anchor, k, fuel);
      var st1 := Splice(w, lim, st, fr, k).st;
      && all.Some? && View(st1.plan) == Merge(View(st.plan), all.value)
      && AllCovered(w, lim, st1.visited, View(st1.plan))
    decreases lim.maxDepth - fr.depth, |fr.order| - k, 1
  {
    var next, st4 := k + 1, AfterNested(w, lim, st, fr, k);
    SpliceAfterNested(w, lim, st, fr, k);
    assert Splice(w, lim, st, fr, k) == Splice(w, lim, st4, fr, next);
    var f := NestedUnfolds(w, lim, st, fr, k);
    var g := SpliceUnfolds(w, lim, st4, fr, next);
    fuel := UnfoldStep(w, lim, fr.doc, fr.order, fr.anchor, k, f, g, View(st.plan));
  }

  // ----- whole resolutions -----

  // The unfolding below a root manifest, each item anchored at the root resource it comes from.
  function RootUnfolding(w: World, lim: Limits, doc: Doc, order: seq<nat>, fuel: nat): Option<seq<Item>>
    requires InOrder(doc, order)
  {
    UnfoldFrom(w, lim, doc, order, None, 0, fuel)
  }

  // A resolved plan is the first occurrences of the unfolding below the root,
  // and that unfolding is finite: from some fuel on it no longer changes.
  lemma PlanOfName(w: World, lim: Limits, m: Murl) returns (fuel: nat)
    requires Sound(w) && ResolveName(w, lim, m).Done?
    ensures ManifestOf(w, lim, m).Some?
    ensures var (doc, order) := ManifestOf(w, lim, m).value;
      var all := RootUnfolding(w, lim, doc, order, fuel);
      && all.Some?
      && View(ResolveName(w, lim, m).st.plan) == Firsts(all.value)
      && forall more :: more >= fuel ==> RootUnfolding(w, lim, doc, order, more) == all
  {
    var st0 := EMPTY_STATE.(stack := [Identity(m)]);
    ArriveNames(w, lim, 0, st0, m, 0, None, None);
    var (st, fr) := Arrive(w, lim, st0, m, 0, None, None).value;
    assert ManifestOf(w, lim, m) == Some((fr.doc, fr.order));
    assert w.decode(Locate(w, lim, m).value.bytes).value.WellFormed();
    fuel := RootPlan(w, lim, st, fr);
  }

  lemma PlanOfFile(w: World, lim: Limits, path: string, bytes: string) returns (fuel: nat)
    requires Sound(w) && ResolveFile(w, lim, path, bytes).Done?
    ensures w.decode(bytes).Ok? && ExecutionOrder(w.decode(bytes).value.resources).Ok?
    ensures var doc := w.decode(bytes).value;
      var order := ExecutionOrder(doc.resources).value;
      var all := RootUnfolding(w, lim, doc, order, fuel);
      && all.Some?
      && View(ResolveFile(w, lim, path, bytes).st.plan) == Firsts(all.value)
      && forall more :: more >= fuel ==> RootUnfolding(w, lim, doc, order, more) == all
  {
    var (st, fr) := Open(w, lim, EMPTY_STATE, None, bytes, FromFile(path), 0, None).value;
    fuel := RootPlan(w, lim, st, fr);
  }

  lemma RootPlan(w: World, lim: Limits, st: State, fr: Frame) returns (fuel: nat)
    requires Sound(w) && fr.At(lim, 0) && FrameKept(fr) && fr.anchor.None?
    requires st.plan == [] && st.dedup == {} && st.visited == {} && Rooted(st, fr)
    requires Splice(w, lim, st, fr, 0).Done?
    ensures var all := RootUnfolding(w, lim, fr.doc, fr.order, fuel);
      && all.Some?
      && View(Splice(w, lim, st, fr, 0).st.plan) == Firsts(all.value)
      && forall more :: more >= fuel ==> RootUnfolding(w, lim, fr.doc, fr.order, more) == all
  {
    fuel := SpliceUnfolds(w, lim, st, fr, 0);
    var all := RootUnfolding(w, lim, fr.doc, fr.order, fuel).value;
    MergeIsFirsts(all);
    assert View(st.plan) == [];
    forall more | more >= fuel
      ensures RootUnfolding(w, lim, fr.doc, fr.order, more) == Some(all)
    {
      UnfoldFromMoreFuel(w, lim, fr.doc, fr.order, None, 0, fuel, more);
    }
  }
}
