/**
 What a resolution goes through, computed from the documents: the pre-order walk over
 the nesting graph in which a name met before is passed over. A resolution that ends
 well took exactly this walk.
 */
module ResolverTrail {
  import opened Wrappers
  import opened MurlScheme
  import opened Manifest
  import opened Graph
  import opened Resolver
  import opened ResolverFrame
  import opened ResolverInvariants
  import opened ResolverPlan

  // A dispatchable resource, or a nested name with the pin it carries there.
  datatype Step = Leaf(item: Item) | Name(child: Murl, pin: Option<string>)

  // The steps of a walk, and the identities met by its end.
  datatype Trail = Trail(steps: seq<Step>, seen: set<string>)

  function StepOf(r: Resource, anchor: string): Step {
    if r.kind.Nested? then Name(r.kind.child, r.integrity) else Leaf(Item(r, anchor))
  }

  // Resources order[k..] of a manifest and what they lead to, `seen` having been met
  // before. None when a manifest is missing or nested deeper than the fuel.
  function TrailFrom(w: World, lim: Limits, doc: Doc, order: seq<nat>, anchor: Option<string>, k: nat,
                     seen: set<string>, fuel: nat): Option<Trail>
    requires InOrder(doc, order) && k <= |order|
    decreases fuel, |order| - k + 1
  {
    if k == |order| then Some(Trail([], seen))
    else
      var r := doc.resources[order[k]];
      match TrailOne(w, lim, r, if anchor.Some? then anchor.value else r.id, seen, fuel)
      case None => None
      case Some(here) =>
        match TrailFrom(w, lim, doc, order, anchor, k + 1, here.seen, fuel)
        case None => None
        case Some(rest) => Some(Trail(here.steps + rest.steps, rest.seen))
  }

  function TrailOne(w: World, lim: Limits, r: Resource, anchor: string, seen: set<string>, fuel: nat): Option<Trail>
    decreases fuel, 1
  {
    if !r.kind.Nested? || Identity(r.kind.child) in seen then Some(Trail([StepOf(r, anchor)], seen))
    else if fuel == 0 then None
    else
      match ManifestOf(w, lim, r.kind.child)
      case None => None
      case Some((doc, order)) =>
        match TrailFrom(w, lim, doc, order, Some(anchor), 0, seen + {Identity(r.kind.child)}, fuel - 1)
        case None => None
        case Some(below) => Some(Trail([StepOf(r, anchor)] + below.steps, below.seen))
  }

  // The walk below a frame, as deep as the limits allow.
  function FrameTrail(w: World, lim: Limits, fr: Frame, k: nat, seen: set<string>): Option<Trail>
    requires fr.At(lim, k) && InOrder(fr.doc, fr.order)
  {
    TrailFrom(w, lim, fr.doc, fr.order, fr.anchor, k, seen, lim.maxDepth - fr.depth)
  }

  function StepAt(fr: Frame, k: nat): Step
    requires Indices(fr.doc.resources, fr.order) && k < |fr.order|
  {
    var r := fr.doc.resources[fr.order[k]];
    StepOf(r, fr.Anchor(r))
  }

  // The identities met are those gone through and those on the way.
  predicate Seen(st: State, seen: set<string>) {
    seen == st.visited + set s | s in st.stack
  }

  // ----- the loop takes this walk -----

  lemma NextTrail(w: World, lim: Limits, st: State, fr: Frame, k: nat, seen: set<string>, st1: State)
    requires fr.At(lim, k) && InOrder(fr.doc, fr.order) && k < |fr.order| && Seen(st, seen)
    requires OneRound(w, lim, st, fr, fr.doc.resources[fr.order[k]]) == Next(st1)
    ensures Seen(st1, seen) && st1.stack == st.stack
    ensures FrameTrail(w, lim, fr, k, seen) ==
      match FrameTrail(w, lim, fr, k + 1, seen)
      case None => None
      case Some(rest) => Some(Trail([StepAt(fr, k)] + rest.steps, rest.seen))
  {
    var r := fr.doc.resources[fr.order[k]];
    if r.kind.Nested? {
      NestedRound(w, lim, st, fr, r);
    }
    assert TrailOne(w, lim, r, fr.Anchor(r), seen, lim.maxDepth - fr.depth) == Some(Trail([StepAt(fr, k)], seen));
  }

  lemma IntoSeen(w: World, lim: Limits, st: State, fr: Frame, r: Resource, seen: set<string>,
                 st2: State, inner: Frame, id: string)
    requires fr.Valid(lim) && r.kind.Nested? && Seen(st, seen)
    requires OneRound(w, lim, st, fr, r) == Into(st2, inner, id)
    ensures Seen(st2, seen + {id}) && st2.stack == st.stack + [id] && id == Identity(r.kind.child) && id !in seen
    ensures inner.Valid(lim) && inner.depth == fr.depth + 1 && InOrder(inner.doc, inner.order)
    ensures inner.anchor == Some(fr.Anchor(r))
    ensures ManifestOf(w, lim, r.kind.child) == Some((inner.doc, inner.order))
  {
    NestedRound(w, lim, st, fr, r);
  }

  // A new name is followed by the walk below it.
  lemma OneInto(w: World, lim: Limits, r: Resource, anchor: string, seen: set<string>, met: set<string>, fuel: nat,
                inner: Frame)
    requires r.kind.Nested? && Identity(r.kind.child) !in seen && met == seen + {Identity(r.kind.child)}
    requires inner.At(lim, 0) && InOrder(inner.doc, inner.order) && inner.anchor == Some(anchor)
    requires lim.maxDepth - inner.depth == fuel - 1
    requires ManifestOf(w, lim, r.kind.child) == Some((inner.doc, inner.order))
    ensures TrailOne(w, lim, r, anchor, seen, fuel) ==
      match FrameTrail(w, lim, inner, 0, met)
      case None => None
      case Some(below) => Some(Trail([StepOf(r, anchor)] + below.steps, below.seen))
  {
  }

  lemma FrameInto(w: World, lim: Limits, fr: Frame, k: nat, seen: set<string>, met: set<string>, inner: Frame)
    requires fr.At(lim, k) && InOrder(fr.doc, fr.order) && k < |fr.order|
    requires inner.At(lim, 0) && InOrder(inner.doc, inner.order) && inner.depth == fr.depth + 1
    requires var r := fr.doc.resources[fr.order[k]];
      && r.kind.Nested? && Identity(r.kind.child) !in seen && met == seen + {Identity(r.kind.child)}
      && inner.anchor == Some(fr.Anchor(r))
      && ManifestOf(w, lim, r.kind.child) == Some((inner.doc, inner.order))
    ensures FrameTrail(w, lim, fr, k, seen) ==
      match FrameTrail(w, lim, inner, 0, met)
      case None => None
      case Some(below) =>
        match FrameTrail(w, lim, fr, k + 1, below.seen)
        case None => None
        case Some(rest) => Some(Trail([StepAt(fr, k)] + below.steps + rest.steps, rest.seen))
  {
    var r := fr.doc.resources[fr.order[k]];
    OneInto(w, lim, r, fr.Anchor(r), seen, met, lim.maxDepth - fr.depth, inner);
  }

  lemma IntoTrail(w: World, lim: Limits, st: State, fr: Frame, k: nat, seen: set<string>, met: set<string>,
                  st2: State, inner: Frame, id: string)
    requires fr.At(lim, k) && InOrder(fr.doc, fr.order) && k < |fr.order| && Seen(st, seen) && met == seen + {id}
    requires OneRound(w, lim, st, fr, fr.doc.resources[fr.order[k]]) == Into(st2, inner, id)
    ensures Seen(st2, met) && st2.stack == st.stack + [id]
    ensures inner.At(lim, 0) && inner.depth == fr.depth + 1 && InOrder(inner.doc, inner.order)
    ensures FrameTrail(w, lim, fr, k, seen) ==
      match FrameTrail(w, lim, inner, 0, met)
      case None => None
      case Some(below) =>
        match FrameTrail(w, lim, fr, k + 1, below.seen)
        case None => None
        case Some(rest) => Some(Trail([StepAt(fr, k)] + below.steps + rest.steps, rest.seen))
  {
    IntoSeen(w, lim, st, fr, fr.doc.resources[fr.order[k]], seen, st2, inner, id);
    FrameInto(w, lim, fr, k, seen, met, inner);
  }

  lemma LeaveSeen(st: State, below: seq<string>, id: string, seen: set<string>)
    requires Seen(st, seen) && st.stack == below + [id]
    ensures Seen(Leave(st, id), seen) && Leave(st, id).stack == below
  {
    assert Leave(st, id).stack == below;
    forall s ensures s in st.stack <==> s in below || s == id {
      assert st.stack[|below|] == id;
      assert forall i :: 0 <= i < |below| ==> st.stack[i] == below[i];
    }
  }

  lemma {:induction false} SpliceTrail(w: World, lim: Limits, st: State, fr: Frame, k: nat, seen: set<string>)
    requires fr.At(lim, k) && InOrder(fr.doc, fr.order) && Seen(st, seen) && Splice(w, lim, st, fr, k).Done?
    ensures FrameTrail(w, lim, fr, k, seen).Some?
    ensures Seen(Splice(w, lim, st, fr, k).st, FrameTrail(w, lim, fr, k, seen).value.seen)
    ensures Splice(w, lim, st, fr, k).st.stack == st.stack
    decreases lim.maxDepth - fr.depth, |fr.order| - k
  {
    if k < |fr.order| {
      var next := k + 1;
      match OneRound(w, lim, st, fr, fr.doc.resources[fr.order[k]]) {
        case Next(st1) =>
          NextTrail(w, lim, st, fr, k, seen, st1);
          SpliceTrail(w, lim, st1, fr, next, seen);
        case Into(st2, inner, id) =>
          var met := seen + {id};
          IntoTrail(w, lim, st, fr, k, seen, met, st2, inner, id);
          SpliceTrail(w, lim, st2, inner, 0, met);
          var st3 := Splice(w, lim, st2, inner, 0).st;
          var below := FrameTrail(w, lim, inner, 0, met).value;
          LeaveSeen(st3, st.stack, id, below.seen);
          SpliceTrail(w, lim, Leave(st3, id), fr, next, below.seen);
      }
    }
  }

  // A round that goes into a nested manifest, and the walk on both sides of its end.
  lemma NestedTrail(w: World, lim: Limits, st: State, fr: Frame, k: nat, seen: set<string>, met: set<string>,
                    st2: State, inner: Frame, id: string) returns (below: Trail, rest: Trail, st4: State)
    requires fr.At(lim, k) && InOrder(fr.doc, fr.order) && k < |fr.order| && Seen(st, seen) && met == seen + {id}
    requires OneRound(w, lim, st, fr, fr.doc.resources[fr.order[k]]) == Into(st2, inner, id)
    requires Splice(w, lim, st, fr, k).Done?
    ensures inner.At(lim, 0) && inner.depth == fr.depth + 1 && InOrder(inner.doc, inner.order) && Seen(st2, met)
    ensures Splice(w, lim, st2, inner, 0).Done? && st4 == Leave(Splice(w, lim, st2, inner, 0).st, id)
    ensures FrameTrail(w, lim, inner, 0, met) == Some(below) && Seen(st4, below.seen)
    ensures Splice(w, lim, st, fr, k) == Splice(w, lim, st4, fr, k + 1)
    ensures FrameTrail(w, lim, fr, k + 1, below.seen) == Some(rest)
    ensures FrameTrail(w, lim, fr, k, seen) == Some(Trail([StepAt(fr, k)] + below.steps + rest.steps, rest.seen))
  {
    var next := k + 1;
    IntoTrail(w, lim, st, fr, k, seen, met, st2, inner, id);
    SpliceTrail(w, lim, st2, inner, 0, met);
    var st3 := Splice(w, lim, st2, inner, 0).st;
    below := FrameTrail(w, lim, inner, 0, met).value;
    LeaveSeen(st3, st.stack, id, below.seen);
    st4 := Leave(st3, id);
    SpliceTrail(w, lim, st4, fr, next, below.seen);
    rest := FrameTrail(w, lim, fr, next, below.seen).value;
  }

  // ----- what the walk meets -----

  // The identities of the names among some steps.
  function Met(steps: seq<Step>): set<string> {
    set i | 0 <= i < |steps| && steps[i].Name? :: Identity(steps[i].child)
  }

  lemma MetConcat(a: seq<Step>, b: seq<Step>)
    ensures Met(a + b) == Met(a) + Met(b)
  {
    var all := a + b;
    forall id | id in Met(a) ensures id in Met(all) {
      var i :| 0 <= i < |a| && a[i].Name? && Identity(a[i].child) == id;
      assert all[i] == a[i];
    }
    forall id | id in Met(b) ensures id in Met(all) {
      var i :| 0 <= i < |b| && b[i].Name? && Identity(b[i].child) == id;
      assert all[|a| + i] == b[i];
    }
  }

  lemma MetJoins(seen: set<string>, a: Trail, b: Trail)
    requires a.seen == seen + Met(a.steps) && b.seen == a.seen + Met(b.steps)
    ensures b.seen == seen + Met(a.steps + b.steps)
  {
    MetConcat(a.steps, b.steps);
  }

  // What a walk has met by its end is what it was given and its names.
  lemma {:induction false} TrailMet(w: World, lim: Limits, doc: Doc, order: seq<nat>, anchor: Option<string>, k: nat,
                                    seen: set<string>, fuel: nat)
    requires InOrder(doc, order) && k <= |order|
    requires TrailFrom(w, lim, doc, order, anchor, k, seen, fuel).Some?
    ensures var t := TrailFrom(w, lim, doc, order, anchor, k, seen, fuel).value; t.seen == seen + Met(t.steps)
    decreases fuel, |order| - k + 1
  {
    if k < |order| {
      var r := doc.resources[order[k]];
      var a := if anchor.Some? then anchor.value else r.id;
      OneMet(w, lim, r, a, seen, fuel);
      var here := TrailOne(w, lim, r, a, seen, fuel).value;
      var rest := TrailFrom(w, lim, doc, order, anchor, k + 1, here.seen, fuel).value;
      TrailMet(w, lim, doc, order, anchor, k + 1, here.seen, fuel);
      MetJoins(seen, here, rest);
    }
  }

  lemma {:induction false} OneMet(w: World, lim: Limits, r: Resource, anchor: string, seen: set<string>, fuel: nat)
    requires TrailOne(w, lim, r, anchor, seen, fuel).Some?
    ensures var t := TrailOne(w, lim, r, anchor, seen, fuel).value; t.seen == seen + Met(t.steps)
    decreases fuel, 1
  {
    var x := StepOf(r, anchor);
    MetOne(x);
    if r.kind.Nested? && Identity(r.kind.child) !in seen {
      var (doc, order) := ManifestOf(w, lim, r.kind.child).value;
      var met := seen + {Identity(r.kind.child)};
      TrailMet(w, lim, doc, order, Some(anchor), 0, met, fuel - 1);
      MetJoins(seen, Trail([x], met), TrailFrom(w, lim, doc, order, Some(anchor), 0, met, fuel - 1).value);
    }
  }

  lemma MetOne(x: Step)
    ensures Met([x]) == if x.Name? then {Identity(x.child)} else {}
  {
    if x.Name? {
      assert [x][0] == x;
    }
  }

  lemma FrameMet(w: World, lim: Limits, inner: Frame, met: set<string>, below: Trail)
    requires inner.At(lim, 0) && InOrder(inner.doc, inner.order) && FrameTrail(w, lim, inner, 0, met) == Some(below)
    ensures below.seen == met + Met(below.steps)
  {
    var fuel := lim.maxDepth - inner.depth;
    assert TrailFrom(w, lim, inner.doc, inner.order, inner.anchor, 0, met, fuel) == Some(below);
    TrailMet(w, lim, inner.doc, inner.order, inner.anchor, 0, met, fuel);
  }

  function Fresh(x: Step, seen: set<string>): seq<Murl> {
    if x.Name? && Identity(x.child) !in seen then [x.child] else []
  }

  // The names among some steps that are met there for the first time, in order.
  function FirstMet(steps: seq<Step>, seen: set<string>): seq<Murl> {
    if steps == [] then [] else Fresh(steps[0], seen) + FirstMet(steps[1..], seen + Met(steps[..1]))
  }

  lemma FirstMetStep(x: Step, rest: seq<Step>, seen: set<string>)
    ensures FirstMet([x] + rest, seen) == Fresh(x, seen) + FirstMet(rest, seen + Met([x]))
  {
    assert ([x] + rest)[1..] == rest && ([x] + rest)[..1] == [x];
  }

  lemma MetSplit(x: Step, tail: seq<Step>, seen: set<string>)
    ensures seen + Met([x] + tail) == (seen + Met([x])) + Met(tail)
  {
    MetConcat([x], tail);
  }

  lemma MurlsRegroup(a: seq<Murl>, b: seq<Murl>, c: seq<Murl>)
    ensures a + (b + c) == (a + b) + c
  {
  }

  lemma HeadAndTail(a: seq<Step>, b: seq<Step>)
    requires a != []
    ensures a == [a[0]] + a[1..] && a + b == [a[0]] + (a[1..] + b)
  {
  }

  lemma {:induction false} FirstMetConcat(a: seq<Step>, b: seq<Step>, seen: set<string>)
    ensures FirstMet(a + b, seen) == FirstMet(a, seen) + FirstMet(b, seen + Met(a))
    decreases |a|
  {
    if a == [] {
      assert a + b == b && seen + Met(a) == seen;
    } else {
      var x, tail := a[0], a[1..];
      var more := seen + Met([x]);
      HeadAndTail(a, b);
      MetSplit(x, tail, seen);
      FirstMetConcat(tail, b, more);
      FirstMetStep(x, tail, seen);
      FirstMetStep(x, tail + b, seen);
      MurlsRegroup(Fresh(x, seen), FirstMet(tail, more), FirstMet(b, more + Met(tail)));
    }
  }

  // ----- the names looked up -----

  // A step, what is below it and the rest, each with what was met before.
  lemma LooksInto(x: Step, below: Trail, rest: Trail, seen: set<string>, met: set<string>)
    requires x.Name? && Identity(x.child) !in seen && met == seen + {Identity(x.child)}
    requires below.seen == met + Met(below.steps)
    ensures FirstMet([x] + below.steps + rest.steps, seen) ==
            [x.child] + FirstMet(below.steps, met) + FirstMet(rest.steps, below.seen)
  {
    MetOne(x);
    MetSplit(x, below.steps, seen);
    FirstMetConcat([x] + below.steps, rest.steps, seen);
    FirstMetStep(x, below.steps, seen);
  }

  // A round that goes on looks nothing up.
  lemma NextLooks(w: World, lim: Limits, st: State, fr: Frame, k: nat, seen: set<string>, st1: State, rest: Trail)
    requires fr.At(lim, k) && k < |fr.order| && Seen(st, seen)
    requires OneRound(w, lim, st, fr, fr.doc.resources[fr.order[k]]) == Next(st1)
    ensures st1.log == st.log && FirstMet([StepAt(fr, k)] + rest.steps, seen) == FirstMet(rest.steps, seen)
  {
    var r, x := fr.doc.resources[fr.order[k]], StepAt(fr, k);
    RoundLog(w, lim, st, fr, r);
    if r.kind.Nested? {
      NestedRound(w, lim, st, fr, r);
    }
    MetOne(x);
    assert Fresh(x, seen) == [] && seen + Met([x]) == seen;
    FirstMetStep(x, rest.steps, seen);
  }

  // The names looked up are those the walk meets first, in its order.
  lemma {:induction false} SpliceLooks(w: World, lim: Limits, st: State, fr: Frame, k: nat, seen: set<string>)
    requires fr.At(lim, k) && InOrder(fr.doc, fr.order) && Seen(st, seen) && Splice(w, lim, st, fr, k).Done?
    ensures FrameTrail(w, lim, fr, k, seen).Some?
    ensures Splice(w, lim, st, fr, k).st.log == st.log + FirstMet(FrameTrail(w, lim, fr, k, seen).value.steps, seen)
    decreases lim.maxDepth - fr.depth, |fr.order| - k, 1
  {
    SpliceTrail(w, lim, st, fr, k, seen);
    if k < |fr.order| {
      var next := k + 1;
      var round := OneRound(w, lim, st, fr, fr.doc.resources[fr.order[k]]);
      if round.Next? {
        NextTrail(w, lim, st, fr, k, seen, round.st);
        SpliceLooks(w, lim, round.st, fr, next, seen);
        NextLooks(w, lim, st, fr, k, seen, round.st, FrameTrail(w, lim, fr, next, seen).value);
      } else {
        NestedLooks(w, lim, st, fr, k, seen, round.st, round.inner, round.id);
      }
    }
  }

  lemma {:induction false} NestedLooks(w: World, lim: Limits, st: State, fr: Frame, k: nat, seen: set<string>,
                                       st2: State, inner: Frame, id: string)
    requires fr.At(lim, k) && InOrder(fr.doc, fr.order) && k < |fr.order| && Seen(st, seen)
    requires OneRound(w, lim, st, fr, fr.doc.resources[fr.order[k]]) == Into(st2, inner, id)
    requires Splice(w, lim, st, fr, k).Done?
    ensures FrameTrail(w, lim, fr, k, seen).Some?
    ensures Splice(w, lim, st, fr, k).st.log == st.log + FirstMet(FrameTrail(w, lim, fr, k, seen).value.steps, seen)
    decreases lim.maxDepth - fr.depth, |fr.order| - k, 0
  {
    var r, next, met := fr.doc.resources[fr.order[k]], k + 1, seen + {id};
    var below, rest, st4 := NestedTrail(w, lim, st, fr, k, seen, met, st2, inner, id);
    IntoSeen(w, lim, st, fr, r, seen, st2, inner, id);
    RoundLog(w, lim, st, fr, r);
    SpliceLooks(w, lim, st2, inner, 0, met);
    SpliceLooks(w, lim, st4, fr, next, below.seen);
    FrameMet(w, lim, inner, met, below);
    LooksInto(StepAt(fr, k), below, rest, seen, met);
    LogParts(st.log, r.kind.child, FirstMet(below.steps, met), FirstMet(rest.steps, below.seen));
  }

  lemma LogParts(log: seq<Murl>, m: Murl, below: seq<Murl>, rest: seq<Murl>)
    ensures log + ([m] + below + rest) == ((log + [m]) + below) + rest
  {
  }

  // ----- whole resolutions -----

  // The walk below a root requested by name, which is itself on the way, or opened as a file.
  function NameTrail(w: World, lim: Limits, m: Murl): Option<Trail> {
    match ManifestOf(w, lim, m)
    case None => None
    case Some((doc, order)) => TrailFrom(w, lim, doc, order, None, 0, {Identity(m)}, lim.maxDepth)
  }

  function FileTrail(w: World, lim: Limits, bytes: string): Option<Trail> {
    match w.decode(bytes)
    case Err(_) => None
    case Ok(doc) =>
      match ExecutionOrder(doc.resources)
      case Err(_) => None
      case Ok(order) =>
        OrderIndices(doc.resources);
        TrailFrom(w, lim, doc, order, None, 0, {}, lim.maxDepth)
  }

  lemma NameRoot(w: World, lim: Limits, m: Murl) returns (st: State, fr: Frame)
    requires Arrive(w, lim, EMPTY_STATE.(stack := [Identity(m)]), m, 0, None, None).Ok?
    ensures Arrive(w, lim, EMPTY_STATE.(stack := [Identity(m)]), m, 0, None, None) == Ok((st, fr))
    ensures fr.At(lim, 0) && InOrder(fr.doc, fr.order) && Seen(st, {Identity(m)}) && Rooted(st, fr)
    ensures st.plan == [] && st.dedup == {} && |st.nodes| == 1
    ensures NameTrail(w, lim, m) == FrameTrail(w, lim, fr, 0, {Identity(m)})
  {
    var st0 := EMPTY_STATE.(stack := [Identity(m)]);
    ArriveNames(w, lim, 0, st0, m, 0, None, None);
    st := Arrive(w, lim, st0, m, 0, None, None).value.0;
    fr := Arrive(w, lim, st0, m, 0, None, None).value.1;
  }

  lemma FileRoot(w: World, lim: Limits, path: string, bytes: string) returns (st: State, fr: Frame)
    requires Open(w, lim, EMPTY_STATE, None, bytes, FromFile(path), 0, None).Ok?
    ensures Open(w, lim, EMPTY_STATE, None, bytes, FromFile(path), 0, None) == Ok((st, fr))
    ensures fr.At(lim, 0) && InOrder(fr.doc, fr.order) && Seen(st, {}) && Rooted(st, fr)
    ensures st.plan == [] && st.dedup == {} && |st.nodes| == 1
    ensures FileTrail(w, lim, bytes) == FrameTrail(w, lim, fr, 0, {})
  {
    st := Open(w, lim, EMPTY_STATE, None, bytes, FromFile(path), 0, None).value.0;
    fr := Open(w, lim, EMPTY_STATE, None, bytes, FromFile(path), 0, None).value.1;
  }

  // A name that resolves looks up itself and then, in the order of its walk, the names met first.
  lemma LookedUp(w: World, lim: Limits, m: Murl)
    requires ResolveName(w, lim, m).Done?
    ensures NameTrail(w, lim, m).Some?
    ensures ResolveName(w, lim, m).st.log == [m] + FirstMet(NameTrail(w, lim, m).value.steps, {Identity(m)})
  {
    var st, fr := NameRoot(w, lim, m);
    ArriveNames(w, lim, 0, EMPTY_STATE.(stack := [Identity(m)]), m, 0, None, None);
    SpliceLooks(w, lim, st, fr, 0, {Identity(m)});
  }

  lemma FileLookedUp(w: World, lim: Limits, path: string, bytes: string)
    requires ResolveFile(w, lim, path, bytes).Done?
    ensures FileTrail(w, lim, bytes).Some?
    ensures ResolveFile(w, lim, path, bytes).st.log == FirstMet(FileTrail(w, lim, bytes).value.steps, {})
  {
    var st, fr := FileRoot(w, lim, path, bytes);
    SpliceLooks(w, lim, st, fr, 0, {});
  }
}
