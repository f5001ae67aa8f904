/**
 Integrity pins. A nested name carries the pin of the resource that nests it, and the pin
 is checked when the name is looked up. A name met before is not looked up again, so the
 pin it carries there is not checked: pins hold exactly when those do.
 */
module ResolverPins {
  import opened Wrappers
  import opened MurlScheme
  import opened MurlRoundTrip
  import opened Manifest
  import opened Graph
  import opened Store
  import opened Resolver
  import opened ResolverLocate
  import opened ResolverInvariants
  import opened ResolverNodes
  import opened ResolverPlan
  import opened ResolverCycles
  import opened ResolverTrail
  import ResolverSelection

  // ----- pins that fit -----

  // The bytes the name leads to fit the pin it carries.
  predicate PinFits(w: World, lim: Limits, child: Murl, pin: Option<string>) {
    pin.Some? ==> Locate(w, lim, child).Ok? && w.intact(Locate(w, lim, child).value.bytes, pin.value)
  }

  predicate ResourceFits(w: World, lim: Limits, r: Resource) {
    r.kind.Nested? ==> PinFits(w, lim, r.kind.child, r.integrity)
  }

  predicate DocFits(w: World, lim: Limits, doc: Doc) {
    forall i :: 0 <= i < |doc.resources| ==> ResourceFits(w, lim, doc.resources[i])
  }

  // Every pin in the manifests from a place on.
  predicate NodesFit(w: World, lim: Limits, nodes: seq<Node>, from: nat) {
    forall i :: from <= i < |nodes| ==> DocFits(w, lim, nodes[i].doc)
  }

  predicate RestFits(w: World, lim: Limits, doc: Doc, order: seq<nat>, k: nat)
    requires Indices(doc.resources, order)
  {
    forall i :: k <= i < |order| ==> ResourceFits(w, lim, doc.resources[order[i]])
  }

  predicate StepFits(w: World, lim: Limits, x: Step) {
    x.Name? ==> PinFits(w, lim, x.child, x.pin)
  }

  predicate StepsFit(w: World, lim: Limits, steps: seq<Step>) {
    forall i :: 0 <= i < |steps| ==> StepFits(w, lim, steps[i])
  }

  lemma DocFitsInOrder(w: World, lim: Limits, doc: Doc, order: seq<nat>)
    requires InOrder(doc, order)
    ensures DocFits(w, lim, doc) <==> RestFits(w, lim, doc, order, 0)
  {
    if RestFits(w, lim, doc, order, 0) {
      forall i | 0 <= i < |doc.resources| ensures ResourceFits(w, lim, doc.resources[i]) {
        var at := PlaceOf(doc, order, i);
      }
    }
  }

  lemma StepsFitParts(w: World, lim: Limits, x: Step, below: seq<Step>, rest: seq<Step>)
    ensures StepsFit(w, lim, [x] + below + rest) <==>
            StepFits(w, lim, x) && StepsFit(w, lim, below) && StepsFit(w, lim, rest)
  {
    var all := [x] + below + rest;
    if StepsFit(w, lim, all) {
      assert all[0] == x;
      forall i | 0 <= i < |below| ensures StepFits(w, lim, below[i]) {
        assert all[1 + i] == below[i];
      }
      forall i | 0 <= i < |rest| ensures StepFits(w, lim, rest[i]) {
        assert all[1 + |below| + i] == rest[i];
      }
    }
  }

  lemma NodesFitParts(w: World, lim: Limits, nodes: seq<Node>, some: seq<Node>, more: seq<Node>, all: seq<Node>)
    requires |some| == |nodes| + 1 && some <= more && more <= all
    ensures NodesFit(w, lim, all, |nodes|) <==>
      DocFits(w, lim, some[|nodes|].doc) && NodesFit(w, lim, more, |some|) && NodesFit(w, lim, all, |more|)
  {
    assert all[|nodes|] == some[|nodes|];
    assert forall i :: 0 <= i < |more| ==> all[i] == more[i];
  }

  // ----- the pins of the manifests are the pins of the walk -----

  ghost predicate Walked(w: World, lim: Limits, st: State, fr: Frame, k: nat, seen: set<string>) {
    && fr.At(lim, k) && InOrder(fr.doc, fr.order) && Seen(st, seen)
    && Splice(w, lim, st, fr, k).Done?
  }

  lemma RoundNodes(w: World, lim: Limits, st: State, fr: Frame, r: Resource)
    requires fr.Valid(lim)
    ensures match OneRound(w, lim, st, fr, r)
            case Halt(_, _) => true
            case Next(st1) => st1.nodes == st.nodes
            case Into(st2, inner, id) =>
              |st2.nodes| == |st.nodes| + 1 && st.nodes <= st2.nodes && st2.nodes[|st.nodes|].doc == inner.doc
  {
  }

  lemma {:induction false} SplicePins(w: World, lim: Limits, st: State, fr: Frame, k: nat, seen: set<string>)
    requires Walked(w, lim, st, fr, k, seen)
    ensures FrameTrail(w, lim, fr, k, seen).Some?
    ensures st.nodes <= Splice(w, lim, st, fr, k).st.nodes
    ensures RestFits(w, lim, fr.doc, fr.order, k) && NodesFit(w, lim, Splice(w, lim, st, fr, k).st.nodes, |st.nodes|)
            <==> StepsFit(w, lim, FrameTrail(w, lim, fr, k, seen).value.steps)
    decreases lim.maxDepth - fr.depth, |fr.order| - k
  {
    if k < |fr.order| {
      var r, next := fr.doc.resources[fr.order[k]], k + 1;
      SpliceTrail(w, lim, st, fr, k, seen);
      RoundNodes(w, lim, st, fr, r);
      match OneRound(w, lim, st, fr, r) {
        case Next(st1) =>
          NextTrail(w, lim, st, fr, k, seen, st1);
          SplicePins(w, lim, st1, fr, next, seen);
          StepsFitNext(w, lim, StepAt(fr, k), FrameTrail(w, lim, fr, next, seen).value.steps);
        case Into(st2, inner, id) =>
          var met := seen + {id};
          var below, rest, st4 := NestedTrail(w, lim, st, fr, k, seen, met, st2, inner, id);
          SplicePins(w, lim, st2, inner, 0, met);
          SplicePins(w, lim, st4, fr, next, below.seen);
          DocFitsInOrder(w, lim, inner.doc, inner.order);
          var nodes := Splice(w, lim, st, fr, k).st.nodes;
          PrefixNodes(st2.nodes, st4.nodes, nodes);
          PrefixNodes(st.nodes, st2.nodes, nodes);
          NodesFitParts(w, lim, st.nodes, st2.nodes, st4.nodes, nodes);
          StepsFitParts(w, lim, StepAt(fr, k), below.steps, rest.steps);
      }
    }
  }

  lemma StepsFitNext(w: World, lim: Limits, x: Step, rest: seq<Step>)
    ensures StepsFit(w, lim, [x] + rest) <==> StepFits(w, lim, x) && StepsFit(w, lim, rest)
  {
    assert [x] + [] + rest == [x] + rest;
    StepsFitParts(w, lim, x, [], rest);
  }

  // ----- which of them are checked -----

  // A name met before: among `seen`, or earlier in the walk.
  predicate Repeated(steps: seq<Step>, seen: set<string>, i: nat)
    requires i < |steps|
  {
    steps[i].Name? && Identity(steps[i].child) in seen + Met(steps[..i])
  }

  predicate FirstsFit(w: World, lim: Limits, steps: seq<Step>, seen: set<string>) {
    forall i :: 0 <= i < |steps| && !Repeated(steps, seen, i) ==> StepFits(w, lim, steps[i])
  }

  predicate RepeatsFit(w: World, lim: Limits, steps: seq<Step>, seen: set<string>) {
    forall i :: 0 <= i < |steps| && Repeated(steps, seen, i) ==> StepFits(w, lim, steps[i])
  }

  lemma RepeatedConcat(a: seq<Step>, b: seq<Step>, seen: set<string>, i: nat)
    requires i < |a| + |b|
    ensures Repeated(a + b, seen, i) <==>
            if i < |a| then Repeated(a, seen, i) else Repeated(b, seen + Met(a), i - |a|)
  {
    var all := a + b;
    if i < |a| {
      assert all[..i] == a[..i];
    } else {
      assert all[..i] == a + b[..i - |a|];
      MetConcat(a, b[..i - |a|]);
    }
  }

  lemma FirstsFitConcat(w: World, lim: Limits, a: seq<Step>, b: seq<Step>, seen: set<string>)
    ensures FirstsFit(w, lim, a + b, seen) <==> FirstsFit(w, lim, a, seen) && FirstsFit(w, lim, b, seen + Met(a))
  {
    var all := a + b;
    forall i | 0 <= i < |all|
      ensures Repeated(all, seen, i) <==> if i < |a| then Repeated(a, seen, i) else Repeated(b, seen + Met(a), i - |a|)
    {
      RepeatedConcat(a, b, seen, i);
    }
    if FirstsFit(w, lim, all, seen) {
      forall i | 0 <= i < |a| && !Repeated(a, seen, i) ensures StepFits(w, lim, a[i]) {
        assert all[i] == a[i] && !Repeated(all, seen, i);
      }
      forall i | 0 <= i < |b| && !Repeated(b, seen + Met(a), i) ensures StepFits(w, lim, b[i]) {
        assert all[|a| + i] == b[i] && !Repeated(all, seen, |a| + i);
      }
    }
  }

  lemma FirstsFitOne(w: World, lim: Limits, x: Step, seen: set<string>)
    ensures FirstsFit(w, lim, [x], seen) <==> (x.Name? && Identity(x.child) in seen) || StepFits(w, lim, x)
  {
    assert [x][..0] == [] && Met([]) == {};
    assert [x][0] == x;
    assert Repeated([x], seen, 0) <==> x.Name? && Identity(x.child) in seen;
  }

  // A name that is gone into fits the pin it carries.
  lemma IntoFits(w: World, lim: Limits, st: State, fr: Frame, r: Resource, anchor: string)
    requires fr.Valid(lim) && OneRound(w, lim, st, fr, r).Into?
    ensures StepFits(w, lim, StepOf(r, anchor))
  {
    if r.integrity.Some? {
      PinsHold(w, lim, st, fr, r);
    }
  }

  lemma NextMet(w: World, lim: Limits, st: State, fr: Frame, r: Resource, anchor: string, seen: set<string>)
    requires fr.Valid(lim) && Seen(st, seen) && OneRound(w, lim, st, fr, r).Next?
    ensures FirstsFit(w, lim, [StepOf(r, anchor)], seen) && Met([StepOf(r, anchor)]) <= seen
  {
    var x := StepOf(r, anchor);
    if r.kind.Nested? {
      NestedRound(w, lim, st, fr, r);
    }
    MetOne(x);
    FirstsFitOne(w, lim, x, seen);
  }

  lemma NextFits(w: World, lim: Limits, st: State, fr: Frame, r: Resource, anchor: string, seen: set<string>,
                 rest: seq<Step>)
    requires fr.Valid(lim) && Seen(st, seen) && OneRound(w, lim, st, fr, r).Next? && FirstsFit(w, lim, rest, seen)
    ensures FirstsFit(w, lim, [StepOf(r, anchor)] + rest, seen)
  {
    NextMet(w, lim, st, fr, r, anchor, seen);
    FirstsFitNext(w, lim, StepOf(r, anchor), rest, seen);
  }

  // Names met for the first time fit the pins they carry.
  lemma {:induction false} SpliceFirsts(w: World, lim: Limits, st: State, fr: Frame, k: nat, seen: set<string>)
    requires Walked(w, lim, st, fr, k, seen)
    ensures FrameTrail(w, lim, fr, k, seen).Some?
    ensures FirstsFit(w, lim, FrameTrail(w, lim, fr, k, seen).value.steps, seen)
    decreases lim.maxDepth - fr.depth, |fr.order| - k, 1
  {
    if k < |fr.order| {
      var r, next := fr.doc.resources[fr.order[k]], k + 1;
      var round := OneRound(w, lim, st, fr, r);
      if round.Next? {
        NextTrail(w, lim, st, fr, k, seen, round.st);
        SpliceFirsts(w, lim, round.st, fr, next, seen);
        NextFits(w, lim, st, fr, r, fr.Anchor(r), seen, FrameTrail(w, lim, fr, next, seen).value.steps);
      } else {
        NestedFirsts(w, lim, st, fr, k, seen, round.st, round.inner, round.id);
      }
    }
  }

  lemma {:induction false} NestedFirsts(w: World, lim: Limits, st: State, fr: Frame, k: nat, seen: set<string>,
                                        st2: State, inner: Frame, id: string)
    requires Walked(w, lim, st, fr, k, seen) && k < |fr.order|
    requires OneRound(w, lim, st, fr, fr.doc.resources[fr.order[k]]) == Into(st2, inner, id)
    ensures FrameTrail(w, lim, fr, k, seen).Some?
    ensures FirstsFit(w, lim, FrameTrail(w, lim, fr, k, seen).value.steps, seen)
    decreases lim.maxDepth - fr.depth, |fr.order| - k, 0
  {
    var r, x, next, met := fr.doc.resources[fr.order[k]], StepAt(fr, k), k + 1, seen + {id};
    var below, rest, st4 := NestedTrail(w, lim, st, fr, k, seen, met, st2, inner, id);
    SpliceFirsts(w, lim, st2, inner, 0, met);
    SpliceFirsts(w, lim, st4, fr, next, below.seen);
    IntoFits(w, lim, st, fr, r, fr.Anchor(r));
    FirstsFitInto(w, lim, x, inner, below, rest, seen, met);
  }

  lemma FirstsFitNext(w: World, lim: Limits, x: Step, rest: seq<Step>, seen: set<string>)
    requires Met([x]) <= seen
    ensures FirstsFit(w, lim, [x] + rest, seen) <==> FirstsFit(w, lim, [x], seen) && FirstsFit(w, lim, rest, seen)
  {
    assert seen + Met([x]) == seen;
    FirstsFitConcat(w, lim, [x], rest, seen);
  }

  lemma FirstsFitInto(w: World, lim: Limits, x: Step, inner: Frame, below: Trail, rest: Trail, seen: set<string>,
                      met: set<string>)
    requires x.Name? && StepFits(w, lim, x) && met == seen + {Identity(x.child)}
    requires inner.At(lim, 0) && InOrder(inner.doc, inner.order) && FrameTrail(w, lim, inner, 0, met) == Some(below)
    requires FirstsFit(w, lim, below.steps, met) && FirstsFit(w, lim, rest.steps, below.seen)
    ensures FirstsFit(w, lim, [x] + below.steps + rest.steps, seen)
  {
    FrameMet(w, lim, inner, met, below);
    MetOne(x);
    FirstsFitOne(w, lim, x, seen);
    FirstsFitConcat(w, lim, [x], below.steps, seen);
    MetConcat([x], below.steps);
    assert seen + Met([x] + below.steps) == below.seen;
    FirstsFitConcat(w, lim, [x] + below.steps, rest.steps, seen);
  }

  // ----- whole resolutions -----

  lemma RootPins(w: World, lim: Limits, st: State, fr: Frame, seen: set<string>)
    requires Walked(w, lim, st, fr, 0, seen) && Rooted(st, fr) && |st.nodes| == 1
    ensures FrameTrail(w, lim, fr, 0, seen).Some?
    ensures var steps := FrameTrail(w, lim, fr, 0, seen).value.steps;
      && FirstsFit(w, lim, steps, seen)
      && (NodesFit(w, lim, Splice(w, lim, st, fr, 0).st.nodes, 0) <==> RepeatsFit(w, lim, steps, seen))
  {
    SplicePins(w, lim, st, fr, 0, seen);
    SpliceFirsts(w, lim, st, fr, 0, seen);
    DocFitsInOrder(w, lim, fr.doc, fr.order);
    var nodes := Splice(w, lim, st, fr, 0).st.nodes;
    assert nodes[0] == st.nodes[0];
  }

  // After a success every pin in every manifest reached fits the bytes its name leads to
  // exactly when the pins of the names met before do.
  lemma PinsExactly(w: World, lim: Limits, m: Murl)
    requires ResolveName(w, lim, m).Done?
    ensures NameTrail(w, lim, m).Some?
    ensures NodesFit(w, lim, ResolveName(w, lim, m).st.nodes, 0) <==>
            RepeatsFit(w, lim, NameTrail(w, lim, m).value.steps, {Identity(m)})
  {
    var st, fr := NameRoot(w, lim, m);
    RootPins(w, lim, st, fr, {Identity(m)});
  }

  lemma FilePinsExactly(w: World, lim: Limits, path: string, bytes: string)
    requires ResolveFile(w, lim, path, bytes).Done?
    ensures FileTrail(w, lim, bytes).Some?
    ensures NodesFit(w, lim, ResolveFile(w, lim, path, bytes).st.nodes, 0) <==>
            RepeatsFit(w, lim, FileTrail(w, lim, bytes).value.steps, {})
  {
    var st, fr := FileRoot(w, lim, path, bytes);
    RootPins(w, lim, st, fr, {});
  }

  // ----- a guard that needs no digest -----

  // This pin was checked against these bytes when some name was met for the first time.
  predicate Checked(w: World, lim: Limits, steps: seq<Step>, seen: set<string>, bytes: string, pin: string) {
    exists i :: 0 <= i < |steps| && !Repeated(steps, seen, i) && CarriesPin(w, lim, steps[i], bytes, pin)
  }

  predicate CarriesPin(w: World, lim: Limits, x: Step, bytes: string, pin: string) {
    x.Name? && x.pin == Some(pin) && Locate(w, lim, x.child).Ok? && Locate(w, lim, x.child).value.bytes == bytes
  }

  // Every pin carried by a name met before was checked against the same bytes elsewhere.
  predicate RepeatsChecked(w: World, lim: Limits, steps: seq<Step>, seen: set<string>) {
    forall i :: 0 <= i < |steps| && Repeated(steps, seen, i) && steps[i].pin.Some? ==>
      && Locate(w, lim, steps[i].child).Ok?
      && Checked(w, lim, steps, seen, Locate(w, lim, steps[i].child).value.bytes, steps[i].pin.value)
  }

  lemma ChecksSuffice(w: World, lim: Limits, steps: seq<Step>, seen: set<string>)
    requires FirstsFit(w, lim, steps, seen) && RepeatsChecked(w, lim, steps, seen)
    ensures RepeatsFit(w, lim, steps, seen)
  {
    forall i | 0 <= i < |steps| && Repeated(steps, seen, i) ensures StepFits(w, lim, steps[i]) {
      if steps[i].pin.Some? {
        var bytes, pin := Locate(w, lim, steps[i].child).value.bytes, steps[i].pin.value;
        var j :| 0 <= j < |steps| && !Repeated(steps, seen, j) && CarriesPin(w, lim, steps[j], bytes, pin);
        assert StepFits(w, lim, steps[j]);
      }
    }
  }

  // The same world but for what fits.
  ghost predicate SameButIntact(w: World, v: World) {
    && w.store == v.store && w.cache == v.cache && w.remote == v.remote
    && w.decode == v.decode && w.trusted == v.trusted && w.now == v.now
  }

  lemma LocateIntact(w: World, v: World, lim: Limits, m: Murl)
    requires SameButIntact(w, v)
    ensures Locate(v, lim, m) == Locate(w, lim, m) && ManifestOf(v, lim, m) == ManifestOf(w, lim, m)
  {
  }

  lemma {:induction false} TrailIntact(w: World, v: World, lim: Limits, doc: Doc, order: seq<nat>,
                                       anchor: Option<string>, k: nat, seen: set<string>, fuel: nat)
    requires SameButIntact(w, v) && InOrder(doc, order) && k <= |order|
    ensures TrailFrom(v, lim, doc, order, anchor, k, seen, fuel) == TrailFrom(w, lim, doc, order, anchor, k, seen, fuel)
    decreases fuel, |order| - k + 1
  {
    if k < |order| {
      var r := doc.resources[order[k]];
      var a := if anchor.Some? then anchor.value else r.id;
      OneIntact(w, v, lim, r, a, seen, fuel);
      var here := TrailOne(w, lim, r, a, seen, fuel);
      if here.Some? {
        TrailIntact(w, v, lim, doc, order, anchor, k + 1, here.value.seen, fuel);
      }
    }
  }

  // A new name's walk, by the walk below it.
  lemma OneBelow(w: World, lim: Limits, r: Resource, anchor: string, seen: set<string>, met: set<string>,
                 fuel: nat, less: nat)
    requires r.kind.Nested? && Identity(r.kind.child) !in seen && met == seen + {Identity(r.kind.child)}
    requires fuel == less + 1
    ensures TrailOne(w, lim, r, anchor, seen, fuel) ==
      match ManifestOf(w, lim, r.kind.child)
      case None => None
      case Some((doc, order)) =>
        match TrailFrom(w, lim, doc, order, Some(anchor), 0, met, less)
        case None => None
        case Some(below) => Some(Trail([StepOf(r, anchor)] + below.steps, below.seen))
  {
  }

  lemma {:induction false} OneIntact(w: World, v: World, lim: Limits, r: Resource, anchor: string, seen: set<string>,
                                     fuel: nat)
    requires SameButIntact(w, v)
    ensures TrailOne(v, lim, r, anchor, seen, fuel) == TrailOne(w, lim, r, anchor, seen, fuel)
    decreases fuel, 1
  {
    if r.kind.Nested? && Identity(r.kind.child) !in seen && fuel > 0 {
      var met, less := seen + {Identity(r.kind.child)}, fuel - 1;
      OneBelow(w, lim, r, anchor, seen, met, fuel, less);
      OneBelow(v, lim, r, anchor, seen, met, fuel, less);
      LocateIntact(w, v, lim, r.kind.child);
      var found := ManifestOf(w, lim, r.kind.child);
      if found.Some? {
        TrailIntact(w, v, lim, found.value.0, found.value.1, Some(anchor), 0, met, less);
      }
    }
  }

  lemma ArriveIntact(w: World, v: World, lim: Limits, st: State, m: Murl, depth: nat, anchor: Option<string>,
                     pin: Option<string>)
    requires SameButIntact(w, v) && depth <= lim.maxDepth
    requires Arrive(w, lim, st, m, depth, anchor, pin).Ok? && PinFits(v, lim, m, pin)
    ensures Arrive(v, lim, st, m, depth, anchor, pin) == Arrive(w, lim, st, m, depth, anchor, pin)
  {
    LocateIntact(w, v, lim, m);
  }

  lemma RoundIntact(w: World, v: World, lim: Limits, st: State, fr: Frame, r: Resource, anchor: string)
    requires SameButIntact(w, v) && fr.Valid(lim) && !OneRound(w, lim, st, fr, r).Halt?
    requires OneRound(w, lim, st, fr, r).Into? ==> StepFits(v, lim, StepOf(r, anchor))
    ensures OneRound(v, lim, st, fr, r) == OneRound(w, lim, st, fr, r)
  {
    if r.kind.Nested? {
      var admitted, depth := Admit(lim, st, fr, r, r.kind.child), fr.depth + 1;
      if admitted.Descend? {
        DescendRound(w, lim, st, fr, r, admitted.st, depth);
        DescendRound(v, lim, st, fr, r, admitted.st, depth);
        ArriveIntact(w, v, lim, admitted.st, r.kind.child, depth, Some(fr.Anchor(r)), r.integrity);
      }
    }
  }

  // A resolution asks only whether the pins met for the first time fit.
  lemma {:induction false} SpliceIntact(w: World, v: World, lim: Limits, st: State, fr: Frame, k: nat,
                                        seen: set<string>)
    requires Walked(w, lim, st, fr, k, seen) && SameButIntact(w, v)
    requires FrameTrail(w, lim, fr, k, seen).Some?
    requires FirstsFit(v, lim, FrameTrail(w, lim, fr, k, seen).value.steps, seen)
    ensures Splice(v, lim, st, fr, k) == Splice(w, lim, st, fr, k)
    decreases lim.maxDepth - fr.depth, |fr.order| - k
  {
    if k < |fr.order| {
      var r, x, next := fr.doc.resources[fr.order[k]], StepAt(fr, k), k + 1;
      match OneRound(w, lim, st, fr, r) {
        case Next(st1) =>
          NextTrail(w, lim, st, fr, k, seen, st1);
          RoundIntact(w, v, lim, st, fr, r, fr.Anchor(r));
          NextMet(w, lim, st, fr, r, fr.Anchor(r), seen);
          FirstsFitNext(v, lim, x, FrameTrail(w, lim, fr, next, seen).value.steps, seen);
          SpliceIntact(w, v, lim, st1, fr, next, seen);
        case Into(st2, inner, id) =>
          var met := seen + {id};
          var below, rest, st4 := NestedTrail(w, lim, st, fr, k, seen, met, st2, inner, id);
          FrameMet(w, lim, inner, met, below);
          IntoSeen(w, lim, st, fr, r, seen, st2, inner, id);
          FirstsFitOut(v, lim, x, below, rest, seen);
          RoundIntact(w, v, lim, st, fr, r, fr.Anchor(r));
          SpliceIntact(w, v, lim, st2, inner, 0, met);
          SpliceIntact(w, v, lim, st4, fr, next, below.seen);
      }
    }
  }

  lemma FirstsFitOut(w: World, lim: Limits, x: Step, below: Trail, rest: Trail, seen: set<string>)
    requires x.Name? && Identity(x.child) !in seen
    requires below.seen == seen + {Identity(x.child)} + Met(below.steps)
    requires FirstsFit(w, lim, [x] + below.steps + rest.steps, seen)
    ensures StepFits(w, lim, x)
    ensures FirstsFit(w, lim, below.steps, seen + {Identity(x.child)}) && FirstsFit(w, lim, rest.steps, below.seen)
  {
    MetOne(x);
    MetConcat([x], below.steps);
    assert seen + Met([x] + below.steps) == below.seen;
    FirstsFitConcat(w, lim, [x] + below.steps, rest.steps, seen);
    FirstsFitConcat(w, lim, [x], below.steps, seen);
    FirstsFitOne(w, lim, x, seen);
  }

  // What fits when exactly the pins checked do.
  function OnlyChecked(w: World, lim: Limits, steps: seq<Step>, seen: set<string>): (string, string) -> bool {
    (bytes: string, pin: string) => Checked(w, lim, steps, seen, bytes, pin)
  }

  lemma OnlyCheckedFits(w: World, v: World, lim: Limits, steps: seq<Step>, seen: set<string>)
    requires v == w.(intact := OnlyChecked(w, lim, steps, seen)) && FirstsFit(w, lim, steps, seen)
    ensures FirstsFit(v, lim, steps, seen)
    ensures RepeatsFit(v, lim, steps, seen) <==> RepeatsChecked(w, lim, steps, seen)
  {
    forall m: Murl ensures Locate(v, lim, m) == Locate(w, lim, m) {
      LocateIntact(w, v, lim, m);
    }
    forall i | 0 <= i < |steps| && !Repeated(steps, seen, i) ensures StepFits(v, lim, steps[i]) {
      var x := steps[i];
      assert StepFits(w, lim, x);
      if x.Name? && x.pin.Some? {
        assert CarriesPin(w, lim, x, Locate(w, lim, x.child).value.bytes, x.pin.value);
      }
    }
  }

  // With what fits changed, but not for the pins that are checked, a root's walk and outcome are the same.
  lemma RootIntact(w: World, v: World, lim: Limits, st: State, fr: Frame, seen: set<string>, steps: seq<Step>)
    requires Walked(w, lim, st, fr, 0, seen) && SameButIntact(w, v)
    requires FrameTrail(w, lim, fr, 0, seen).Some? && FrameTrail(w, lim, fr, 0, seen).value.steps == steps
    requires FirstsFit(v, lim, steps, seen)
    ensures Splice(v, lim, st, fr, 0) == Splice(w, lim, st, fr, 0) && Walked(v, lim, st, fr, 0, seen)
    ensures FrameTrail(v, lim, fr, 0, seen) == FrameTrail(w, lim, fr, 0, seen)
  {
    SpliceIntact(w, v, lim, st, fr, 0, seen);
    TrailIntact(w, v, lim, fr.doc, fr.order, fr.anchor, 0, seen, lim.maxDepth - fr.depth);
  }

  // Where only the checked pins fit, all pins hold only if all were checked.
  lemma RootGuard(w: World, v: World, lim: Limits, st: State, fr: Frame, seen: set<string>, steps: seq<Step>)
    requires Walked(w, lim, st, fr, 0, seen) && Rooted(st, fr) && |st.nodes| == 1
    requires FrameTrail(w, lim, fr, 0, seen).Some? && FrameTrail(w, lim, fr, 0, seen).value.steps == steps
    requires v == w.(intact := OnlyChecked(w, lim, steps, seen))
    ensures Splice(v, lim, st, fr, 0) == Splice(w, lim, st, fr, 0)
    ensures NodesFit(v, lim, Splice(w, lim, st, fr, 0).st.nodes, 0) ==> RepeatsChecked(w, lim, steps, seen)
  {
    SpliceFirsts(w, lim, st, fr, 0, seen);
    OnlyCheckedFits(w, v, lim, steps, seen);
    RootIntact(w, v, lim, st, fr, seen, steps);
    RootPins(v, lim, st, fr, seen);
  }

  // The pins hold under every digest the resolution succeeds with exactly when every pin
  // carried by a name met before was checked, against the same bytes, where it was met first.
  lemma PinsGuard(w: World, lim: Limits, m: Murl)
    requires ResolveName(w, lim, m).Done?
    ensures NameTrail(w, lim, m).Some?
    ensures RepeatsChecked(w, lim, NameTrail(w, lim, m).value.steps, {Identity(m)}) <==>
            forall v :: SameButIntact(w, v) && ResolveName(v, lim, m).Done? ==>
              NodesFit(v, lim, ResolveName(v, lim, m).st.nodes, 0)
  {
    var st, fr := NameRoot(w, lim, m);
    SpliceTrail(w, lim, st, fr, 0, {Identity(m)});
    var steps := NameTrail(w, lim, m).value.steps;
    if RepeatsChecked(w, lim, steps, {Identity(m)}) {
      forall v | SameButIntact(w, v) && ResolveName(v, lim, m).Done?
        ensures NodesFit(v, lim, ResolveName(v, lim, m).st.nodes, 0)
      {
        GuardSuffices(w, v, lim, m);
      }
    } else {
      var v := w.(intact := OnlyChecked(w, lim, steps, {Identity(m)}));
      RootGuard(w, v, lim, st, fr, {Identity(m)}, steps);
      ArriveIntact(w, v, lim, EMPTY_STATE.(stack := [Identity(m)]), m, 0, None, None);
      assert SameButIntact(w, v) && ResolveName(v, lim, m) == ResolveName(w, lim, m);
    }
  }

  lemma GuardSuffices(w: World, v: World, lim: Limits, m: Murl)
    requires SameButIntact(w, v) && ResolveName(v, lim, m).Done? && NameTrail(w, lim, m).Some?
    requires RepeatsChecked(w, lim, NameTrail(w, lim, m).value.steps, {Identity(m)})
    ensures NodesFit(v, lim, ResolveName(v, lim, m).st.nodes, 0)
  {
    var st, fr := NameRoot(v, lim, m);
    var seen, steps := {Identity(m)}, NameTrail(w, lim, m).value.steps;
    NameTrailIntact(w, v, lim, m);
    RootPins(v, lim, st, fr, seen);
    RepeatsCheckedIntact(w, v, lim, steps, seen);
    ChecksSuffice(v, lim, steps, seen);
  }

  lemma NameTrailIntact(w: World, v: World, lim: Limits, m: Murl)
    requires SameButIntact(w, v) && ResolveName(v, lim, m).Done?
    ensures NameTrail(v, lim, m) == NameTrail(w, lim, m)
  {
    var st, fr := NameRoot(v, lim, m);
    LocateIntact(w, v, lim, m);
    TrailIntact(w, v, lim, fr.doc, fr.order, None, 0, {Identity(m)}, lim.maxDepth);
  }

  lemma RepeatsCheckedIntact(w: World, v: World, lim: Limits, steps: seq<Step>, seen: set<string>)
    requires SameButIntact(w, v)
    ensures RepeatsChecked(v, lim, steps, seen) <==> RepeatsChecked(w, lim, steps, seen)
  {
    forall m: Murl ensures Locate(v, lim, m) == Locate(w, lim, m) {
      LocateIntact(w, v, lim, m);
    }
    forall bytes, pin ensures Checked(v, lim, steps, seen, bytes, pin) == Checked(w, lim, steps, seen, bytes, pin) {
    }
  }

  // In particular where no name met before carries a pin.
  lemma UnpinnedRepeats(w: World, lim: Limits, m: Murl)
    requires ResolveName(w, lim, m).Done? && NameTrail(w, lim, m).Some?
    requires var steps := NameTrail(w, lim, m).value.steps;
      forall i :: 0 <= i < |steps| && Repeated(steps, {Identity(m)}, i) ==> steps[i].pin == None
    ensures NodesFit(w, lim, ResolveName(w, lim, m).st.nodes, 0)
  {
    PinsExactly(w, lim, m);
  }

  // ----- a pin that is never looked at -----

  function Nest(id: string, child: Murl, pin: Option<string>): Resource {
    Resource(id, Nested(child), Print(child), None, true, 0, [], [], pin)
  }

  // A well-formed digest.
  function Pin(): string {
    "sha256-" + seq(44, _ => 'A')
  }

  // A root that nests one name twice, the second time with a pin.
  function PinnedDoc(child: Murl): Doc {
    Doc("root", None, [Nest("a", child, None), Nest("b", child, Some(Pin()))], None, None, None,
        [ResolverSelection.REPEATED])
  }

  const PAGE := ResolverSelection.Page("page")
  const PAGE_DOC := Doc("page", None, [PAGE], None, None, None, [])

  // Nothing fits any pin here.
  function PinnedWorld(m: Murl, child: Murl): World {
    World(map[ManifestPath(m) := "root", ManifestPath(child) := "page"], None, None,
          (b: string) => if b == "root" then Ok(PinnedDoc(child))
                         else if b == "page" then Ok(PAGE_DOC) else Err("not JSON"),
          (b: string, pin: string) => false, (authority: string, key: string) => false, 0)
  }

  const PIN_LIMITS := Limits(4, 100, 20, 1000, 0)

  // Any two local names, selector and query aside.
  predicate TwoNames(m: Murl, child: Murl) {
    Valid(m) && Valid(child) && m.authority.Local? && child.authority.Local? && m.Bare() != child.Bare()
  }

  lemma PinnedOrders(child: Murl)
    ensures ExecutionOrder(PinnedDoc(child).resources) == Ok([0, 1]) && ExecutionOrder(PAGE_DOC.resources) == Ok([0])
  {
    NoEdgesStableSort(PinnedDoc(child).resources);
    var order := ExecutionOrder(PinnedDoc(child).resources).value;
    assert Before(PinnedDoc(child).resources, order[0], order[1]);
    assert order == [0, 1];
    NoEdgesStableSort(PAGE_DOC.resources);
    assert ExecutionOrder(PAGE_DOC.resources).value == [0];
  }

  lemma PinnedStored(m: Murl, child: Murl)
    requires TwoNames(m, child)
    ensures Stored(PinnedWorld(m, child), PIN_LIMITS, m, "root", PinnedDoc(child), [0, 1])
    ensures Stored(PinnedWorld(m, child), PIN_LIMITS, child, "page", PAGE_DOC, [0])
    ensures Identity(m) != Identity(child)
  {
    PinnedOrders(child);
    PathInjective(m, child);
    IdentityInjective(m, child);
  }

  // Resolving it succeeds, although the bytes it leads to do not fit the pin.
  lemma PinIgnored(m: Murl, child: Murl)
    requires TwoNames(m, child)
    ensures var w := PinnedWorld(m, child);
      var o := ResolveName(w, PIN_LIMITS, m);
      && o.Done? && |o.st.nodes| > 0
      && Nest("b", child, Some(Pin())) in o.st.nodes[0].doc.resources
      && Locate(w, PIN_LIMITS, child).Ok? && !w.intact(Locate(w, PIN_LIMITS, child).value.bytes, Pin())
  {
    var w, a, b := PinnedWorld(m, child), Nest("a", child, None), Nest("b", child, Some(Pin()));
    var st0 := EMPTY_STATE.(stack := [Identity(m)]);
    PinnedStored(m, child);
    var st, fr := LocalArrives(w, PIN_LIMITS, st0, m, 0, None, "root", PinnedDoc(child), [0, 1]);
    var st2, inner := LocalInto(w, PIN_LIMITS, st, fr, a, child, "page", PAGE_DOC, [0], 1);
    var st3 := LeafAlone(w, PIN_LIMITS, st2, inner, PAGE);
    LastSkipped(w, PIN_LIMITS, Leave(st3, Identity(child)), fr, 1, b, child);
    SpliceInto(w, PIN_LIMITS, st, fr, 0, st2, inner, Identity(child));
    assert PinnedDoc(child).resources[1] == b;
    assert st.nodes[0].doc == PinnedDoc(child);
  }

  lemma LastSkipped(w: World, lim: Limits, st: State, fr: Frame, k: nat, r: Resource, child: Murl)
    requires fr.At(lim, k) && k + 1 == |fr.order| && fr.doc.resources[fr.order[k]] == r
    requires fr.source == ThisDevice && r.kind == Nested(child) && fr.depth + 1 <= lim.maxDepth
    requires Identity(child) !in st.stack && Identity(child) in st.visited
    ensures Splice(w, lim, st, fr, k).Done? && Splice(w, lim, st, fr, k).st.nodes == st.nodes
  {
    var st1 := LocalSkipped(w, lim, st, fr, r, child);
    assert Splice(w, lim, st1, fr, k + 1) == Done(st1);
  }
}
