/**
 Nothing is passed over in silence: what a resolution skips, and what is amiss with a
 manifest it uses, is in its warnings.
 */
module ResolverWarnings {
  import opened Wrappers
  import opened MurlScheme
  import opened Manifest
  import opened Graph
  import opened Store
  import opened Resolver
  import opened ResolverFrame
  import opened ResolverLocate
  import opened ResolverInvariants
  import opened ResolverNodes
  import opened ResolverPlan
  import opened ResolverTrail
  import opened ResolverSuccess
  import Cache

  // ----- warnings -----

  // Some manifest's warning that a dispatchable resource was dropped, or a name passed over.
  predicate Mentions(warning: Warning, x: Step) {
    match x
    case Leaf(item) =>
      warning.DuplicateResource? && warning.kind == item.resource.kind && warning.target == item.resource.target
    case Name(child, _) => warning.AlreadyResolved? && warning.identity == Identity(child)
  }

  predicate Told(warnings: seq<Warning>, x: Step) {
    exists i :: 0 <= i < |warnings| && Mentions(warnings[i], x)
  }

  predicate IsPlanned(plan: seq<Planned>, x: Step) {
    x.Leaf? && exists i :: 0 <= i < |plan| && Item(plan[i].resource, plan[i].anchor) == x.item
  }

  predicate LookedUp(log: seq<Murl>, x: Step) {
    x.Name? && x.child in log
  }

  // A step is planned, or looked up, or warned of.
  predicate Settled(st: State, x: Step) {
    IsPlanned(st.plan, x) || LookedUp(st.log, x) || Told(st.warnings, x)
  }

  predicate AllSettled(st: State, steps: seq<Step>) {
    forall i :: 0 <= i < |steps| ==> Settled(st, steps[i])
  }

  predicate Later(st: State, st1: State) {
    st.plan <= st1.plan && st.warnings <= st1.warnings && st.log <= st1.log
  }

  lemma LaterChain(a: State, b: State, c: State)
    requires Later(a, b) && Later(b, c)
    ensures Later(a, c)
  {
  }

  lemma SettledLater(st: State, st1: State, x: Step)
    requires Settled(st, x) && Later(st, st1)
    ensures Settled(st1, x)
  {
    if IsPlanned(st.plan, x) {
      var i :| 0 <= i < |st.plan| && Item(st.plan[i].resource, st.plan[i].anchor) == x.item;
      assert st1.plan[i] == st.plan[i];
    } else if Told(st.warnings, x) {
      var i :| 0 <= i < |st.warnings| && Mentions(st.warnings[i], x);
      assert st1.warnings[i] == st.warnings[i];
    }
  }

  lemma AllSettledLater(st: State, st1: State, steps: seq<Step>)
    requires AllSettled(st, steps) && Later(st, st1)
    ensures AllSettled(st1, steps)
  {
    forall i | 0 <= i < |steps| ensures Settled(st1, steps[i]) {
      SettledLater(st, st1, steps[i]);
    }
  }

  lemma AllSettledJoin(st: State, x: Step, below: seq<Step>, rest: seq<Step>)
    requires Settled(st, x) && AllSettled(st, below) && AllSettled(st, rest)
    ensures AllSettled(st, [x] + below + rest)
  {
  }

  // A round settles its own resource.
  lemma NextSettles(w: World, lim: Limits, st: State, fr: Frame, k: nat, st1: State)
    requires fr.At(lim, k) && k < |fr.order|
    requires OneRound(w, lim, st, fr, fr.doc.resources[fr.order[k]]) == Next(st1)
    ensures Later(st, st1) && Settled(st1, StepAt(fr, k))
  {
    var r := fr.doc.resources[fr.order[k]];
    RoundNotSilent(w, lim, st, fr, r);
    RoundLog(w, lim, st, fr, r);
    if st1.plan == st.plan {
      assert Mentions(st1.warnings[|st1.warnings| - 1], StepAt(fr, k));
    } else {
      assert Item(st1.plan[|st.plan|].resource, st1.plan[|st.plan|].anchor) == Item(r, fr.Anchor(r));
    }
  }

  lemma IntoSettles(w: World, lim: Limits, st: State, fr: Frame, k: nat, st2: State, inner: Frame, id: string)
    requires fr.At(lim, k) && k < |fr.order|
    requires OneRound(w, lim, st, fr, fr.doc.resources[fr.order[k]]) == Into(st2, inner, id)
    ensures Later(st, st2) && Settled(st2, StepAt(fr, k))
  {
    var r := fr.doc.resources[fr.order[k]];
    RoundLog(w, lim, st, fr, r);
    assert st2.log[|st.log|] == r.kind.child;
  }

  lemma {:induction false} SpliceSettles(w: World, lim: Limits, st: State, fr: Frame, k: nat, seen: set<string>)
    requires fr.At(lim, k) && InOrder(fr.doc, fr.order) && Seen(st, seen) && Splice(w, lim, st, fr, k).Done?
    ensures FrameTrail(w, lim, fr, k, seen).Some?
    ensures var st1 := Splice(w, lim, st, fr, k).st;
      Later(st, st1) && AllSettled(st1, FrameTrail(w, lim, fr, k, seen).value.steps)
    decreases lim.maxDepth - fr.depth, |fr.order| - k
  {
    if k < |fr.order| {
      var next, end := k + 1, Splice(w, lim, st, fr, k).st;
      SpliceTrail(w, lim, st, fr, k, seen);
      match OneRound(w, lim, st, fr, fr.doc.resources[fr.order[k]]) {
        case Next(st1) =>
          NextTrail(w, lim, st, fr, k, seen, st1);
          NextSettles(w, lim, st, fr, k, st1);
          SpliceSettles(w, lim, st1, fr, next, seen);
          LaterChain(st, st1, end);
          SettledLater(st1, end, StepAt(fr, k));
        case Into(st2, inner, id) =>
          var met := seen + {id};
          var below, rest, st4 := NestedTrail(w, lim, st, fr, k, seen, met, st2, inner, id);
          IntoSettles(w, lim, st, fr, k, st2, inner, id);
          SpliceSettles(w, lim, st2, inner, 0, met);
          SpliceSettles(w, lim, st4, fr, next, below.seen);
          LaterChain(st2, st4, end);
          LaterChain(st, st2, end);
          SettledLater(st2, end, StepAt(fr, k));
          AllSettledLater(st4, end, below.steps);
          AllSettledJoin(end, StepAt(fr, k), below.steps, rest.steps);
      }
    }
  }

  // After a success every resource the walk met was planned, and every name looked up, or a
  // warning says that it was dropped or resolved elsewhere.
  lemma NothingSilent(w: World, lim: Limits, m: Murl)
    requires ResolveName(w, lim, m).Done?
    ensures NameTrail(w, lim, m).Some?
    ensures AllSettled(ResolveName(w, lim, m).st, NameTrail(w, lim, m).value.steps)
  {
    var st, fr := NameRoot(w, lim, m);
    SpliceSettles(w, lim, st, fr, 0, {Identity(m)});
  }

  // ----- what is amiss with a manifest in use -----

  predicate OldCopyTold(warnings: seq<Warning>, id: string) {
    exists i :: 0 <= i < |warnings| && SaysOldCopy(warnings[i], id)
  }

  // Its window, a signature that binds no name, and a copy used past its time.
  predicate NodeTold(w: World, lim: Limits, warnings: seq<Warning>, m: Murl, node: Node) {
    && (node.expired ==> Expired(Identity(m)) in warnings)
    && (node.premature ==> NotYetValid(Identity(m)) in warnings)
    && (node.doc.keyId.Some? && node.doc.id.None? ==> UnboundSignature(Identity(m)) in warnings)
    && (node.origin.FromRemote? && node.origin.cached && !FreshCopy(w, lim, m) ==> OldCopyTold(warnings, Identity(m)))
  }

  predicate NodesTold(w: World, lim: Limits, files: nat, nodes: seq<Node>, log: seq<Murl>, warnings: seq<Warning>) {
    && |nodes| == |log| + files
    && forall i :: 0 <= i < |log| ==> NodeTold(w, lim, warnings, log[i], nodes[i + files])
  }

  lemma NodeToldLater(w: World, lim: Limits, warnings: seq<Warning>, more: seq<Warning>, m: Murl, node: Node)
    requires NodeTold(w, lim, warnings, m, node) && warnings <= more
    ensures NodeTold(w, lim, more, m, node)
  {
    if OldCopyTold(warnings, Identity(m)) {
      var i :| 0 <= i < |warnings| && SaysOldCopy(warnings[i], Identity(m));
      assert more[i] == warnings[i];
    }
  }

  lemma NodesToldLater(w: World, lim: Limits, files: nat, nodes: seq<Node>, log: seq<Murl>,
                       warnings: seq<Warning>, more: seq<Warning>)
    requires NodesTold(w, lim, files, nodes, log, warnings) && warnings <= more
    ensures NodesTold(w, lim, files, nodes, log, more)
  {
    forall i | 0 <= i < |log| ensures NodeTold(w, lim, more, log[i], nodes[i + files]) {
      NodeToldLater(w, lim, warnings, more, log[i], nodes[i + files]);
    }
  }

  lemma NodesToldMore(w: World, lim: Limits, files: nat, nodes: seq<Node>, log: seq<Murl>, warnings: seq<Warning>,
                      node: Node, m: Murl)
    requires NodesTold(w, lim, files, nodes, log, warnings) && NodeTold(w, lim, warnings, m, node)
    ensures NodesTold(w, lim, files, nodes + [node], log + [m], warnings)
  {
    var more, longer := nodes + [node], log + [m];
    forall i | 0 <= i < |longer| ensures NodeTold(w, lim, warnings, longer[i], more[i + files]) {
      if i < |log| {
        assert longer[i] == log[i] && more[i + files] == nodes[i + files];
      } else {
        assert longer[i] == m && more[i + files] == node;
      }
    }
  }

  lemma OpenTells(w: World, m: Murl, doc: Doc)
    ensures var notes := OpenWarnings(w, Identity(m), doc);
      && (IsExpired(w, doc) ==> Expired(Identity(m)) in notes)
      && (IsPremature(w, doc) ==> NotYetValid(Identity(m)) in notes)
      && (doc.keyId.Some? && doc.id.None? ==> UnboundSignature(Identity(m)) in notes)
  {
  }

  lemma ArriveTold(w: World, lim: Limits, st: State, m: Murl, depth: nat, anchor: Option<string>, pin: Option<string>)
    returns (node: Node)
    requires depth <= lim.maxDepth && Arrive(w, lim, st, m, depth, anchor, pin).Ok?
    ensures var st1 := Arrive(w, lim, st, m, depth, anchor, pin).value.0;
      && st1.nodes == st.nodes + [node] && st1.log == st.log + [m]
      && st.warnings <= st1.warnings && NodeTold(w, lim, st1.warnings, m, node)
  {
    var st1 := Arrive(w, lim, st, m, depth, anchor, pin).value.0;
    node := st1.nodes[|st.nodes|];
    var found := Locate(w, lim, m).value;
    var notes := OpenWarnings(w, Identity(m), node.doc);
    OpenTells(w, m, node.doc);
    assert st1.warnings == (st.warnings + found.warnings) + notes;
    if node.origin.FromRemote? && node.origin.cached && !FreshCopy(w, lim, m) {
      CacheStandsIn(w, lim, m);
      assert st1.warnings[|st.warnings|] == found.warnings[0];
    }
  }

  lemma ArriveToldAll(w: World, lim: Limits, files: nat, st: State, m: Murl, depth: nat, anchor: Option<string>,
                      pin: Option<string>)
    requires depth <= lim.maxDepth && NodesTold(w, lim, files, st.nodes, st.log, st.warnings)
    ensures match Arrive(w, lim, st, m, depth, anchor, pin)
            case Err(_) => true
            case Ok((st1, _)) => NodesTold(w, lim, files, st1.nodes, st1.log, st1.warnings)
  {
    if Arrive(w, lim, st, m, depth, anchor, pin).Ok? {
      var st1 := Arrive(w, lim, st, m, depth, anchor, pin).value.0;
      var node := ArriveTold(w, lim, st, m, depth, anchor, pin);
      NodesToldLater(w, lim, files, st.nodes, st.log, st.warnings, st1.warnings);
      NodesToldMore(w, lim, files, st.nodes, st.log, st1.warnings, node, m);
    }
  }

  lemma AdmitTold(lim: Limits, st: State, fr: Frame, r: Resource, child: Murl)
    ensures match Admit(lim, st, fr, r, child)
            case Refuse(_) => true
            case Skip(st1) => st1.nodes == st.nodes && st1.log == st.log && st.warnings <= st1.warnings
            case Descend(st1) => st1.nodes == st.nodes && st1.log == st.log && st.warnings <= st1.warnings
  {
  }

  lemma RoundTold(w: World, lim: Limits, files: nat, st: State, fr: Frame, r: Resource)
    requires fr.Valid(lim) && NodesTold(w, lim, files, st.nodes, st.log, st.warnings)
    ensures match OneRound(w, lim, st, fr, r)
            case Halt(_, _) => true
            case Next(st1) => NodesTold(w, lim, files, st1.nodes, st1.log, st1.warnings)
            case Into(st2, inner, id) => NodesTold(w, lim, files, st2.nodes, st2.log, st2.warnings)
  {
    if r.kind.Nested? {
      var admitted, depth := Admit(lim, st, fr, r, r.kind.child), fr.depth + 1;
      AdmitTold(lim, st, fr, r, r.kind.child);
      if !admitted.Refuse? {
        NodesToldLater(w, lim, files, st.nodes, st.log, st.warnings, admitted.st.warnings);
      }
      if admitted.Descend? {
        DescendRound(w, lim, st, fr, r, admitted.st, depth);
        ArriveToldAll(w, lim, files, admitted.st, r.kind.child, depth, Some(fr.Anchor(r)), r.integrity);
      }
    } else if PlanLeaf(lim, st, fr, r).Ok? {
      NodesToldLater(w, lim, files, st.nodes, st.log, st.warnings, PlanLeaf(lim, st, fr, r).value.warnings);
    }
  }

  lemma {:induction false} SpliceTold(w: World, lim: Limits, files: nat, st: State, fr: Frame, k: nat)
    requires fr.At(lim, k) && NodesTold(w, lim, files, st.nodes, st.log, st.warnings)
    requires Splice(w, lim, st, fr, k).Done?
    ensures var st1 := Splice(w, lim, st, fr, k).st; NodesTold(w, lim, files, st1.nodes, st1.log, st1.warnings)
    decreases lim.maxDepth - fr.depth, |fr.order| - k
  {
    if k < |fr.order| {
      var r, next := fr.doc.resources[fr.order[k]], k + 1;
      RoundTold(w, lim, files, st, fr, r);
      match OneRound(w, lim, st, fr, r) {
        case Next(st1) => SpliceTold(w, lim, files, st1, fr, next);
        case Into(st2, inner, id) =>
          SpliceTold(w, lim, files, st2, inner, 0);
          SpliceTold(w, lim, files, Leave(Splice(w, lim, st2, inner, 0).st, id), fr, next);
      }
    }
  }

  // After a success every manifest in use that is out of its window, signed without a name, or
  // an old copy is told of in the warnings, under the name it was looked up by.
  lemma NodesToldOf(w: World, lim: Limits, m: Murl)
    requires ResolveName(w, lim, m).Done?
    ensures var st := ResolveName(w, lim, m).st; NodesTold(w, lim, 0, st.nodes, st.log, st.warnings)
  {
    var st0 := EMPTY_STATE.(stack := [Identity(m)]);
    ArriveToldAll(w, lim, 0, st0, m, 0, None, None);
    var (st, fr) := Arrive(w, lim, st0, m, 0, None, None).value;
    SpliceTold(w, lim, 0, st, fr, 0);
  }

  // ----- all that is told -----

  // A copy past its time stands in where nothing can be fetched, or the fetch failed.
  function OldCopyNotes(w: World, lim: Limits, m: Murl): seq<Warning> {
    var cached := CachedEntry(w, Identity(m));
    if m.authority.Local? || cached.None? || FreshCopy(w, lim, m) then []
    else
      match w.remote
      case None => [OfflineCopy(Identity(m), cached.value.url)]
      case Some(fetch) =>
        match fetch(WellKnownUrl(m))
        case Ok(_) => []
        case Err(reason) => [StaleCache(Identity(m), cached.value.url, reason)]
  }

  // The validator's warnings, a signature that binds no name, and the window.
  function DocNotes(w: World, about: string, doc: Doc): seq<Warning> {
    seq(|doc.warnings|, i requires 0 <= i < |doc.warnings| => FromManifest(about, doc.warnings[i])) +
    (if doc.keyId.Some? && doc.id.None? then [UnboundSignature(about)] else []) +
    (if doc.expires.Some? && doc.expires.value <= w.now then [Expired(about)] else []) +
    (if doc.notBefore.Some? && w.now < doc.notBefore.value then [NotYetValid(about)] else [])
  }

  function ManifestNotes(w: World, lim: Limits, m: Murl): seq<Warning> {
    OldCopyNotes(w, lim, m) +
    match ManifestOf(w, lim, m)
    case None => []
    case Some((doc, _)) => DocNotes(w, Identity(m), doc)
  }

  // A selector on a nested name is ignored; a name met before is passed over, and one of another
  // authority is gone into; a resource planned before is dropped.
  function VisitNotes(w: World, lim: Limits, v: Visit, items: seq<Item>): seq<Warning> {
    match v
    case OfLeaf(item, at) =>
      if Present(items, KeyOf(item.resource))
      then [DuplicateResource(at.about, item.resource.kind, item.resource.target)] else []
    case OfName(child, target, _, at, first) =>
      (if child.selector.Some? then [IgnoredSelector(at.about, target)] else []) +
      if !first then [AlreadyResolved(at.about, Identity(child))]
      else
        (if at.nester.Some? && at.nester.value.authority != child.authority
         then [CrossesAuthority(at.about, Identity(child))] else []) +
        ManifestNotes(w, lim, child)
  }

  // What a walk tells, `items` being planned before.
  function Notes(w: World, lim: Limits, visits: seq<Visit>, items: seq<Item>): seq<Warning>
    decreases |visits|
  {
    if visits == [] then []
    else VisitNotes(w, lim, visits[0], items) + Notes(w, lim, visits[1..], Merge(items, LeavesOf(visits[..1])))
  }

  lemma WarningsRegroup(a: seq<Warning>, b: seq<Warning>, c: seq<Warning>)
    ensures a + (b + c) == (a + b) + c
  {
  }

  lemma NotesStep(w: World, lim: Limits, v: Visit, rest: seq<Visit>, items: seq<Item>)
    ensures Notes(w, lim, [v] + rest, items) ==
            VisitNotes(w, lim, v, items) + Notes(w, lim, rest, Merge(items, LeavesOf([v])))
  {
    assert ([v] + rest)[1..] == rest && ([v] + rest)[..1] == [v];
  }

  lemma {:induction false} NotesParts(w: World, lim: Limits, a: seq<Visit>, b: seq<Visit>, items: seq<Item>)
    ensures Notes(w, lim, a + b, items) == Notes(w, lim, a, items) + Notes(w, lim, b, Merge(items, LeavesOf(a)))
    decreases |a|
  {
    if a == [] {
      assert a + b == b;
    } else {
      var v, tail := a[0], a[1..];
      assert a == [v] + tail && a + b == [v] + (tail + b);
      var more := Merge(items, LeavesOf([v]));
      NotesParts(w, lim, tail, b, more);
      NotesStep(w, lim, v, tail, items);
      NotesStep(w, lim, v, tail + b, items);
      LeavesParts([v], tail);
      MergeConcat(items, LeavesOf([v]), LeavesOf(tail));
      WarningsRegroup(VisitNotes(w, lim, v, items), Notes(w, lim, tail, more),
                      Notes(w, lim, b, Merge(more, LeavesOf(tail))));
    }
  }

  lemma LocatedNotes(w: World, lim: Limits, m: Murl)
    requires Locate(w, lim, m).Ok?
    ensures Locate(w, lim, m).value.warnings == OldCopyNotes(w, lim, m)
  {
  }

  lemma OpeningNotes(w: World, about: string, doc: Doc)
    ensures OpenWarnings(w, about, doc) == DocNotes(w, about, doc)
  {
  }

  lemma ArriveNotes(w: World, lim: Limits, st: State, m: Murl, depth: nat, anchor: Option<string>, pin: Option<string>)
    requires depth <= lim.maxDepth && Arrive(w, lim, st, m, depth, anchor, pin).Ok?
    ensures Arrive(w, lim, st, m, depth, anchor, pin).value.0.warnings == st.warnings + ManifestNotes(w, lim, m)
  {
    var doc := Arrive(w, lim, st, m, depth, anchor, pin).value.1.doc;
    LocatedNotes(w, lim, m);
    OpeningNotes(w, Identity(m), doc);
    WarningsRegroup(st.warnings, OldCopyNotes(w, lim, m), DocNotes(w, Identity(m), doc));
  }

  lemma PassedNotes(w: World, lim: Limits, st: State, fr: Frame, r: Resource, seen: set<string>, items: seq<Item>)
    requires fr.Valid(lim) && r.kind.Nested? && Seen(st, seen) && Sourced(fr) && OneRound(w, lim, st, fr, r).Next?
    ensures OneRound(w, lim, st, fr, r).st.warnings ==
            st.warnings + VisitNotes(w, lim, VisitOf(r, fr.Anchor(r), seen, PlaceOf(st, fr)), items)
  {
    NestedRound(w, lim, st, fr, r);
  }

  lemma LeafNotes(w: World, lim: Limits, st: State, fr: Frame, r: Resource, seen: set<string>)
    requires fr.Valid(lim) && !r.kind.Nested? && PlanKept(lim, st) && OneRound(w, lim, st, fr, r).Next?
    ensures OneRound(w, lim, st, fr, r).st.warnings ==
            st.warnings + VisitNotes(w, lim, VisitOf(r, fr.Anchor(r), seen, PlaceOf(st, fr)), View(st.plan))
  {
    PresentIffPlanned(st.plan, KeyOf(r));
    assert KeyOf(r) in st.dedup <==> HasKey(st.plan, KeyOf(r));
  }

  lemma NextNotes(w: World, lim: Limits, files: nat, st: State, fr: Frame, k: nat, seen: set<string>, st1: State)
    requires Going(w, lim, files, st, fr, k, seen) && k < |fr.order|
    requires OneRound(w, lim, st, fr, fr.doc.resources[fr.order[k]]) == Next(st1)
    ensures st1.warnings == st.warnings + VisitNotes(w, lim, VisitAt(fr, k, seen, PlaceOf(st, fr)), View(st.plan))
  {
    var r := fr.doc.resources[fr.order[k]];
    if r.kind.Nested? {
      PassedNotes(w, lim, st, fr, r, seen, View(st.plan));
    } else {
      LeafNotes(w, lim, st, fr, r, seen);
    }
  }

  lemma AdmittedNotes(lim: Limits, st: State, fr: Frame, r: Resource, child: Murl)
    requires Sourced(fr) && Admit(lim, st, fr, r, child).Descend?
    ensures Admit(lim, st, fr, r, child).st.warnings ==
      st.warnings + ((if child.selector.Some? then [IgnoredSelector(fr.about, r.target)] else []) +
                     (if fr.name.Some? && fr.name.value.authority != child.authority
                      then [CrossesAuthority(fr.about, Identity(child))] else []))
  {
  }

  lemma IntoNotes(w: World, lim: Limits, st: State, fr: Frame, r: Resource, seen: set<string>,
                  st2: State, inner: Frame, id: string, items: seq<Item>)
    requires fr.Valid(lim) && r.kind.Nested? && Seen(st, seen) && Sourced(fr)
    requires OneRound(w, lim, st, fr, r) == Into(st2, inner, id)
    ensures st2.warnings == st.warnings + VisitNotes(w, lim, VisitOf(r, fr.Anchor(r), seen, PlaceOf(st, fr)), items)
  {
    var child, depth := r.kind.child, fr.depth + 1;
    var st1 := Admit(lim, st, fr, r, child).st;
    IntoSeen(w, lim, st, fr, r, seen, st2, inner, id);
    AdmittedNotes(lim, st, fr, r, child);
    DescendRound(w, lim, st, fr, r, st1, depth);
    ArriveNotes(w, lim, st1, child, depth, Some(fr.Anchor(r)), r.integrity);
    NotesRegroup(st.warnings, if child.selector.Some? then [IgnoredSelector(fr.about, r.target)] else [],
                 if fr.name.Some? && fr.name.value.authority != child.authority
                 then [CrossesAuthority(fr.about, Identity(child))] else [], ManifestNotes(w, lim, child));
  }

  lemma NotesRegroup(a: seq<Warning>, b: seq<Warning>, c: seq<Warning>, d: seq<Warning>)
    ensures (a + (b + c)) + d == a + (b + (c + d))
  {
  }

  lemma {:induction false} SpliceNotes(w: World, lim: Limits, files: nat, st: State, fr: Frame, k: nat,
                                       seen: set<string>)
    requires Going(w, lim, files, st, fr, k, seen) && Splice(w, lim, st, fr, k).Done?
    ensures Splice(w, lim, st, fr, k).st.warnings ==
            st.warnings + Notes(w, lim, FrameWalk(w, lim, fr, k, seen, PlaceOf(st, fr)), View(st.plan))
    decreases lim.maxDepth - fr.depth, |fr.order| - k, 1
  {
    if k < |fr.order| {
      var r, next, at := fr.doc.resources[fr.order[k]], k + 1, PlaceOf(st, fr);
      var v, round := VisitAt(fr, k, seen, at), OneRound(w, lim, st, fr, r);
      if round.Next? {
        RoundExactly(w, lim, files, st, fr, k, seen);
        NextNotes(w, lim, files, st, fr, k, seen, round.st);
        PassGoing(w, lim, files, st, fr, k, seen, round.st);
        SpliceNext(w, lim, st, fr, k, round.st);
        SpliceNotes(w, lim, files, round.st, fr, next, seen);
        PassWalk(w, lim, fr, k, seen, at);
        NotesStep(w, lim, v, FrameWalk(w, lim, fr, next, seen, at), View(st.plan));
        WarningsRegroup(st.warnings, VisitNotes(w, lim, v, View(st.plan)),
                        Notes(w, lim, FrameWalk(w, lim, fr, next, seen, at), View(round.st.plan)));
      } else {
        NestedNotes(w, lim, files, st, fr, k, seen, round.st, round.inner, round.id);
      }
    }
  }

  lemma {:induction false} NestedNotes(w: World, lim: Limits, files: nat, st: State, fr: Frame, k: nat,
                                       seen: set<string>, st2: State, inner: Frame, id: string)
    requires Going(w, lim, files, st, fr, k, seen) && k < |fr.order| && Splice(w, lim, st, fr, k).Done?
    requires OneRound(w, lim, st, fr, fr.doc.resources[fr.order[k]]) == Into(st2, inner, id)
    ensures Splice(w, lim, st, fr, k).st.warnings ==
            st.warnings + Notes(w, lim, FrameWalk(w, lim, fr, k, seen, PlaceOf(st, fr)), View(st.plan))
    decreases lim.maxDepth - fr.depth, |fr.order| - k, 0
  {
    var next, at, met := k + 1, PlaceOf(st, fr), seen + {id};
    var v := VisitAt(fr, k, seen, at);
    IntoGoing(w, lim, files, st, fr, k, seen, st2, inner, id, met);
    IntoNotes(w, lim, st, fr, fr.doc.resources[fr.order[k]], seen, st2, inner, id, View(st.plan));
    IntoWalk(w, lim, fr, k, seen, met, at, inner);
    SpliceInto(w, lim, st, fr, k, st2, inner, id);
    SpliceExactly(w, lim, files, st2, inner, 0, met);
    var below := FrameWalk(w, lim, inner, 0, met, PlaceOf(st2, inner));
    var seen3 := met + NamesOf(below);
    var st4 := BackGoing(w, lim, files, st, fr, k, seen, st2, inner, id, seen3);
    SpliceNotes(w, lim, files, st2, inner, 0, met);
    SpliceNotes(w, lim, files, st4, fr, next, seen3);
    InnerNotes(w, lim, v, below, FrameWalk(w, lim, fr, next, seen3, at), st.warnings, View(st.plan));
  }

  lemma InnerNotes(w: World, lim: Limits, v: Visit, below: seq<Visit>, rest: seq<Visit>, before: seq<Warning>,
                   items: seq<Item>)
    requires v.OfName?
    ensures before + Notes(w, lim, [v] + (below + rest), items) ==
            ((before + VisitNotes(w, lim, v, items)) + Notes(w, lim, below, items))
            + Notes(w, lim, rest, Merge(items, LeavesOf(below)))
  {
    var here, inside := VisitNotes(w, lim, v, items), Notes(w, lim, below, items);
    var after := Notes(w, lim, rest, Merge(items, LeavesOf(below)));
    OneVisit(v);
    assert Merge(items, []) == items;
    NotesStep(w, lim, v, below + rest, items);
    NotesParts(w, lim, below, rest, items);
    WarningsRegroup(before, here, inside + after);
    WarningsRegroup(before + here, inside, after);
  }

  // After a success the warnings are, in order, exactly what the root's manifest and the walk call for.
  lemma WarningsExactly(w: World, lim: Limits, m: Murl)
    requires ResolveName(w, lim, m).Done?
    ensures ResolveName(w, lim, m).st.warnings == ManifestNotes(w, lim, m) + Notes(w, lim, NameWalk(w, lim, m), [])
  {
    var st, fr := NameGoing(w, lim, m);
    RootNotes(w, lim, m, st, fr);
    SpliceNotes(w, lim, 0, st, fr, 0, {Identity(m)});
  }

  lemma RootNotes(w: World, lim: Limits, m: Murl, st: State, fr: Frame)
    requires Arrive(w, lim, EMPTY_STATE.(stack := [Identity(m)]), m, 0, None, None) == Ok((st, fr))
    ensures st.warnings == ManifestNotes(w, lim, m) && ResolveName(w, lim, m) == Splice(w, lim, st, fr, 0)
  {
    var notes := ManifestNotes(w, lim, m);
    ArriveNotes(w, lim, EMPTY_STATE.(stack := [Identity(m)]), m, 0, None, None);
    assert [] + notes == notes;
  }

  lemma FileWarningsExactly(w: World, lim: Limits, path: string, bytes: string)
    requires ResolveFile(w, lim, path, bytes).Done?
    ensures w.decode(bytes).Ok?
    ensures ResolveFile(w, lim, path, bytes).st.warnings ==
            DocNotes(w, FileLabel(path), w.decode(bytes).value) +
            Notes(w, lim, FileWalk(w, lim, path, bytes), [])
  {
    var st, fr := FileGoing(w, lim, path, bytes);
    FileRootNotes(w, lim, path, bytes, st, fr);
    SpliceNotes(w, lim, 1, st, fr, 0, {});
  }

  lemma FileRootNotes(w: World, lim: Limits, path: string, bytes: string, st: State, fr: Frame)
    requires Open(w, lim, EMPTY_STATE, None, bytes, FromFile(path), 0, None) == Ok((st, fr))
    ensures w.decode(bytes).Ok? && ResolveFile(w, lim, path, bytes) == Splice(w, lim, st, fr, 0)
    ensures st.warnings == DocNotes(w, FileLabel(path), w.decode(bytes).value)
  {
    var about := FileLabel(path);
    var notes := DocNotes(w, about, w.decode(bytes).value);
    OpeningNotes(w, about, w.decode(bytes).value);
    assert [] + notes == notes;
  }
}
