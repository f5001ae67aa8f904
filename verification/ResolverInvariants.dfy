/** What every reachable state of a resolution keeps. */
module ResolverInvariants {
  import opened Wrappers
  import opened MurlScheme
  import opened Manifest
  import opened Policy
  import opened Graph
  import opened Resolver
  import opened ResolverFrame

  // ----- names: nodes, log, stack, visited -----

  // Identities are looked up at most once each; every one is on the stack or done.
  // `files` is 1 when the root is a file, which is a node but not counted.
  ghost predicate Names(lim: Limits, files: nat, st: State) {
    && |st.log| == st.manifests <= lim.maxNestedManifests
    && NodesMatch(lim, files, st.nodes, st.log)
    && OncePerName(st.log)
    && Accounted(st.log, st.stack, st.visited)
    && Recorded(st.log, st.stack, st.visited)
    && (forall i, j :: 0 <= i < j < |st.stack| ==> st.stack[i] != st.stack[j])
    && (forall s :: s in st.stack ==> s !in st.visited)
  }

  // One node per looked-up name, after the file if there is one.
  predicate NodesMatch(lim: Limits, files: nat, nodes: seq<Node>, log: seq<Murl>) {
    && |nodes| == |log| + files
    && (forall i :: 0 <= i < |log| ==> nodes[i + files].name == Some(log[i]))
    && (forall i :: 0 <= i < |nodes| ==> nodes[i].depth <= lim.maxDepth)
  }

  predicate OncePerName(log: seq<Murl>) {
    forall i, j :: 0 <= i < j < |log| ==> Identity(log[i]) != Identity(log[j])
  }

  predicate Accounted(log: seq<Murl>, stack: seq<string>, visited: set<string>) {
    forall i :: 0 <= i < |log| ==> Identity(log[i]) in stack || Identity(log[i]) in visited
  }

  ghost predicate Recorded(log: seq<Murl>, stack: seq<string>, visited: set<string>) {
    && (forall s :: s in stack ==> Logged(log, s))
    && (forall s :: s in visited ==> Logged(log, s))
  }

  ghost predicate Logged(log: seq<Murl>, id: string) {
    exists i :: 0 <= i < |log| && Identity(log[i]) == id
  }

  // The stack is as high as the frame is deep.
  predicate Height(files: nat, st: State, fr: Frame) {
    |st.stack| + files == fr.depth + 1
  }

  lemma ArriveNames(w: World, lim: Limits, files: nat, st: State, m: Murl, depth: nat, anchor: Option<string>,
                    pin: Option<string>)
    requires depth <= lim.maxDepth && Arrive(w, lim, st, m, depth, anchor, pin).Ok?
    ensures var (st1, fr) := Arrive(w, lim, st, m, depth, anchor, pin).value;
      && st1.log == st.log + [m] && st1.manifests == st.manifests + 1 <= lim.maxNestedManifests
      && st1.stack == st.stack && st1.visited == st.visited
      && st1.plan == st.plan && st1.dedup == st.dedup
      && |st1.nodes| == |st.nodes| + 1 && st1.nodes[..|st.nodes|] == st.nodes
      && st1.nodes[|st.nodes|].name == Some(m) && st1.nodes[|st.nodes|].depth == depth
      && fr.node == |st.nodes| && fr.anchor == anchor
  {
  }

  // A state after `m` was pushed on the stack and looked up.
  lemma NamesEntered(lim: Limits, files: nat, st: State, st1: State, m: Murl)
    requires Names(lim, files, st) && Identity(m) !in st.stack && Identity(m) !in st.visited
    requires st1.log == st.log + [m] && st1.manifests == st.manifests + 1 <= lim.maxNestedManifests
    requires st1.stack == st.stack + [Identity(m)] && st1.visited == st.visited
    requires |st1.nodes| == |st.nodes| + 1 && st1.nodes[..|st.nodes|] == st.nodes
    requires st1.nodes[|st.nodes|].name == Some(m) && st1.nodes[|st.nodes|].depth <= lim.maxDepth
    ensures Names(lim, files, st1)
  {
    forall i | 0 <= i < |st.nodes| ensures st1.nodes[i] == st.nodes[i] {
      assert st1.nodes[..|st.nodes|][i] == st.nodes[i];
    }
    OncePerNameMore(st.log, st.stack, st.visited, m);
    RecordedMore(st.log, st.stack, st.visited, m);
  }

  lemma OncePerNameMore(log: seq<Murl>, stack: seq<string>, visited: set<string>, m: Murl)
    requires OncePerName(log) && Accounted(log, stack, visited)
    requires Identity(m) !in stack && Identity(m) !in visited
    ensures OncePerName(log + [m])
  {
  }

  lemma RecordedMore(log: seq<Murl>, stack: seq<string>, visited: set<string>, m: Murl)
    requires Recorded(log, stack, visited)
    ensures Recorded(log + [m], stack + [Identity(m)], visited)
  {
    var more := log + [m];
    assert Identity(more[|log|]) == Identity(m);
    forall s | Logged(log, s) ensures Logged(more, s) {
      var i :| 0 <= i < |log| && Identity(log[i]) == s;
      assert more[i] == log[i];
    }
  }

  lemma NamesLeave(lim: Limits, files: nat, st: State, below: seq<string>, id: string)
    requires Names(lim, files, st) && st.stack == below + [id]
    ensures Names(lim, files, Leave(st, id)) && Leave(st, id).stack == below
  {
    var st1 := Leave(st, id);
    assert st1.stack == below;
    assert st.stack[|below|] == id;
    forall s | s in below ensures s in st.stack && s != id {
      var i :| 0 <= i < |below| && below[i] == s;
      assert st.stack[i] == s;
    }
  }

  // An admitted name is new, and is pushed on the stack.
  lemma AdmitNames(lim: Limits, st: State, fr: Frame, r: Resource, child: Murl)
    ensures match Admit(lim, st, fr, r, child)
            case Refuse(_) => true
            case Skip(st1) =>
              st1.nodes == st.nodes && st1.log == st.log && st1.manifests == st.manifests
              && st1.stack == st.stack && st1.visited == st.visited && st1.plan == st.plan && st1.dedup == st.dedup
            case Descend(st1) =>
              && Identity(child) !in st.stack && Identity(child) !in st.visited
              && st1.nodes == st.nodes && st1.log == st.log && st1.manifests == st.manifests
              && st1.stack == st.stack + [Identity(child)] && st1.visited == st.visited
              && st1.plan == st.plan && st1.dedup == st.dedup
  {
  }

  lemma NamesSame(lim: Limits, files: nat, st: State, st1: State)
    requires Names(lim, files, st) && st1.nodes == st.nodes && st1.log == st.log && st1.manifests == st.manifests
    requires st1.stack == st.stack && st1.visited == st.visited
    ensures Names(lim, files, st1)
  {
  }

  lemma RoundNames(w: World, lim: Limits, files: nat, st: State, fr: Frame, r: Resource)
    requires fr.Valid(lim) && Names(lim, files, st) && Height(files, st, fr)
    ensures match OneRound(w, lim, st, fr, r)
            case Halt(_, _) => true
            case Next(st1) => Names(lim, files, st1) && st1.stack == st.stack
            case Into(st2, inner, id) =>
              Names(lim, files, st2) && st2.stack == st.stack + [id] && Height(files, st2, inner)
  {
    if r.kind.Nested? {
      var admitted, depth := Admit(lim, st, fr, r, r.kind.child), fr.depth + 1;
      AdmitNames(lim, st, fr, r, r.kind.child);
      if admitted.Skip? {
        NamesSame(lim, files, st, admitted.st);
      } else if admitted.Descend? {
        DescendRound(w, lim, st, fr, r, admitted.st, depth);
        DescendNames(w, lim, files, st, admitted.st, r.kind.child, depth, Some(fr.Anchor(r)), r.integrity);
      }
    } else if PlanLeaf(lim, st, fr, r).Ok? {
      NamesSame(lim, files, st, PlanLeaf(lim, st, fr, r).value);
    }
  }

  lemma DescendNames(w: World, lim: Limits, files: nat, st: State, st1: State, m: Murl, depth: nat,
                     anchor: Option<string>, pin: Option<string>)
    requires depth <= lim.maxDepth && Names(lim, files, st)
    requires Identity(m) !in st.stack && Identity(m) !in st.visited
    requires st1.nodes == st.nodes && st1.log == st.log && st1.manifests == st.manifests
    requires st1.stack == st.stack + [Identity(m)] && st1.visited == st.visited
    ensures match Arrive(w, lim, st1, m, depth, anchor, pin)
            case Err(_) => true
            case Ok((st2, inner)) => Names(lim, files, st2) && st2.stack == st.stack + [Identity(m)]
  {
    if Arrive(w, lim, st1, m, depth, anchor, pin).Ok? {
      ArriveNames(w, lim, files, st1, m, depth, anchor, pin);
      NamesEntered(lim, files, st, Arrive(w, lim, st1, m, depth, anchor, pin).value.0, m);
    }
  }

  // Splicing keeps all of it and leaves the stack as it found it.
  lemma {:induction false} SpliceNames(w: World, lim: Limits, files: nat, st: State, fr: Frame, k: nat)
    requires fr.At(lim, k) && Names(lim, files, st) && Height(files, st, fr)
    ensures match Splice(w, lim, st, fr, k)
            case Stop(_, _) => true
            case Done(st1) => Names(lim, files, st1) && st1.stack == st.stack
    decreases lim.maxDepth - fr.depth, |fr.order| - k
  {
    if k < |fr.order| {
      var r := fr.doc.resources[fr.order[k]];
      RoundNames(w, lim, files, st, fr, r);
      match OneRound(w, lim, st, fr, r) {
        case Halt(_, _) =>
        case Next(st1) => SpliceNames(w, lim, files, st1, fr, k + 1);
        case Into(st2, inner, id) =>
          SpliceNames(w, lim, files, st2, inner, 0);
          var nested := Splice(w, lim, st2, inner, 0);
          if nested.Done? {
            NamesLeave(lim, files, nested.st, st.stack, id);
            SpliceNames(w, lim, files, Leave(nested.st, id), fr, k + 1);
          }
      }
    }
  }

  // ----- the plan -----

  // Planned resources have pairwise different keys, exactly those suppressed from
  // then on; none is a container, and each belongs to a resolved manifest.
  ghost predicate PlanKept(lim: Limits, st: State) {
    && |st.plan| <= lim.maxTotalResources
    && KeysKept(st.plan, st.dedup)
    && (forall i :: 0 <= i < |st.plan| ==> EntryKept(st.nodes, st.plan[i]))
  }

  ghost predicate KeysKept(plan: seq<Planned>, dedup: set<Key>) {
    && |dedup| == |plan|
    && (forall i, j :: 0 <= i < j < |plan| ==> KeyOf(plan[i].resource) != KeyOf(plan[j].resource))
    && (forall key :: key in dedup <==> HasKey(plan, key))
  }

  predicate EntryKept(nodes: seq<Node>, p: Planned) {
    && !p.resource.kind.Nested?
    && p.node < |nodes| && p.resource in nodes[p.node].doc.resources
    && p.tier == Classify(p.resource.kind, p.resource.target)
    && p.decision == None
  }

  ghost predicate HasKey(plan: seq<Planned>, key: Key) {
    exists i :: 0 <= i < |plan| && KeyOf(plan[i].resource) == key
  }

  // The frame's own manifest is among the nodes.
  ghost predicate Rooted(st: State, fr: Frame) {
    fr.node < |st.nodes| && st.nodes[fr.node].doc == fr.doc
  }

  lemma HasKeyMore(plan: seq<Planned>, p: Planned, key: Key)
    ensures HasKey(plan + [p], key) <==> HasKey(plan, key) || key == KeyOf(p.resource)
  {
    var more := plan + [p];
    if i :| 0 <= i < |plan| && KeyOf(plan[i].resource) == key {
      assert more[i] == plan[i];
    }
    assert more[|plan|] == p;
  }

  lemma KeysKeptMore(plan: seq<Planned>, dedup: set<Key>, p: Planned)
    requires KeysKept(plan, dedup) && KeyOf(p.resource) !in dedup
    ensures KeysKept(plan + [p], dedup + {KeyOf(p.resource)})
  {
    forall key ensures key in dedup + {KeyOf(p.resource)} <==> HasKey(plan + [p], key) {
      HasKeyMore(plan, p, key);
    }
    forall i | 0 <= i < |plan| ensures KeyOf(plan[i].resource) != KeyOf(p.resource) {
      assert HasKey(plan, KeyOf(plan[i].resource));
    }
  }

  lemma PlanLeafKept(lim: Limits, st: State, fr: Frame, r: Resource)
    requires PlanKept(lim, st) && Rooted(st, fr) && r in fr.doc.resources && !r.kind.Nested?
    requires PlanLeaf(lim, st, fr, r).Ok?
    ensures PlanKept(lim, PlanLeaf(lim, st, fr, r).value)
    ensures PlanLeaf(lim, st, fr, r).value.nodes == st.nodes
  {
    if KeyOf(r) !in st.dedup {
      var p := PlannedOf(fr, r);
      KeysKeptMore(st.plan, st.dedup, p);
      assert EntryKept(st.nodes, p);
    }
  }

  // More nodes change nothing for the plan.
  lemma PlanKeptMoreNodes(lim: Limits, st: State, st1: State)
    requires PlanKept(lim, st) && st1.plan == st.plan && st1.dedup == st.dedup && st.nodes <= st1.nodes
    ensures PlanKept(lim, st1)
  {
  }

  lemma RoundPlan(w: World, lim: Limits, st: State, fr: Frame, r: Resource)
    requires fr.Valid(lim) && PlanKept(lim, st) && Rooted(st, fr) && r in fr.doc.resources
    ensures match OneRound(w, lim, st, fr, r)
            case Halt(_, _) => true
            case Next(st1) => PlanKept(lim, st1) && st.nodes == st1.nodes
            case Into(st2, inner, _) => PlanKept(lim, st2) && st.nodes <= st2.nodes && Rooted(st2, inner)
  {
    if r.kind.Nested? {
      var admitted, depth := Admit(lim, st, fr, r, r.kind.child), fr.depth + 1;
      AdmitNames(lim, st, fr, r, r.kind.child);
      if admitted.Skip? {
        PlanKeptMoreNodes(lim, st, admitted.st);
      } else if admitted.Descend? {
        DescendRound(w, lim, st, fr, r, admitted.st, depth);
        DescendPlan(w, lim, st, admitted.st, r.kind.child, depth, Some(fr.Anchor(r)), r.integrity);
      }
    } else if PlanLeaf(lim, st, fr, r).Ok? {
      PlanLeafKept(lim, st, fr, r);
    }
  }

  lemma DescendPlan(w: World, lim: Limits, st: State, st1: State, m: Murl, depth: nat, anchor: Option<string>,
                    pin: Option<string>)
    requires depth <= lim.maxDepth && PlanKept(lim, st)
    requires st1.nodes == st.nodes && st1.plan == st.plan && st1.dedup == st.dedup
    ensures match Arrive(w, lim, st1, m, depth, anchor, pin)
            case Err(_) => true
            case Ok((st2, inner)) => PlanKept(lim, st2) && st.nodes <= st2.nodes && Rooted(st2, inner)
  {
    if Arrive(w, lim, st1, m, depth, anchor, pin).Ok? {
      ArriveNames(w, lim, 0, st1, m, depth, anchor, pin);
      ArriveRooted(w, lim, st1, m, depth, anchor, pin);
      PlanKeptMoreNodes(lim, st, Arrive(w, lim, st1, m, depth, anchor, pin).value.0);
    }
  }

  lemma ArriveRooted(w: World, lim: Limits, st: State, m: Murl, depth: nat, anchor: Option<string>,
                     pin: Option<string>)
    requires depth <= lim.maxDepth && Arrive(w, lim, st, m, depth, anchor, pin).Ok?
    ensures var (st1, fr) := Arrive(w, lim, st, m, depth, anchor, pin).value; Rooted(st1, fr) && st.nodes <= st1.nodes
  {
  }

  lemma PrefixNodes(a: seq<Node>, b: seq<Node>, c: seq<Node>)
    requires a <= b && b <= c
    ensures a <= c
  {
  }

  lemma RootedLater(st: State, later: State, fr: Frame)
    requires Rooted(st, fr) && st.nodes <= later.nodes
    ensures Rooted(later, fr)
  {
  }

  // An outcome that keeps the plan and only adds nodes.
  ghost predicate KeepsPlan(lim: Limits, st: State, o: Outcome) {
    o.Done? ==> PlanKept(lim, o.st) && st.nodes <= o.st.nodes
  }

  lemma {:induction false} SplicePlanKept(w: World, lim: Limits, st: State, fr: Frame, k: nat)
    requires fr.At(lim, k) && PlanKept(lim, st) && Rooted(st, fr)
    ensures KeepsPlan(lim, st, Splice(w, lim, st, fr, k))
    decreases lim.maxDepth - fr.depth, |fr.order| - k, 1
  {
    if k < |fr.order| {
      var r, next := fr.doc.resources[fr.order[k]], k + 1;
      RoundPlan(w, lim, st, fr, r);
      var round := OneRound(w, lim, st, fr, r);
      if round.Next? {
        RootedLater(st, round.st, fr);
        SpliceNext(w, lim, st, fr, k, round.st);
        SplicePlanKept(w, lim, round.st, fr, next);
      } else if round.Into? {
        NestedPlanKept(w, lim, st, fr, k, next, round.st, round.inner, round.id);
      }
    }
  }

  lemma {:induction false} NestedPlanKept(w: World, lim: Limits, st: State, fr: Frame, k: nat, next: nat,
                                          st2: State, inner: Frame, id: string)
    requires fr.At(lim, k) && k < |fr.order| && next == k + 1 && inner.At(lim, 0) && inner.depth == fr.depth + 1
    requires OneRound(w, lim, st, fr, fr.doc.resources[fr.order[k]]) == Into(st2, inner, id)
    requires PlanKept(lim, st2) && Rooted(st2, inner) && Rooted(st, fr) && st.nodes <= st2.nodes
    ensures KeepsPlan(lim, st, Splice(w, lim, st, fr, k))
    decreases lim.maxDepth - fr.depth, |fr.order| - k, 0
  {
    var nested := Splice(w, lim, st2, inner, 0);
    SpliceInto(w, lim, st, fr, k, st2, inner, id);
    SplicePlanKept(w, lim, st2, inner, 0);
    if nested.Done? {
      var st4 := Leave(nested.st, id);
      PlanKeptMoreNodes(lim, nested.st, st4);
      PrefixNodes(st.nodes, st2.nodes, st4.nodes);
      RootedLater(st, st4, fr);
      var rest := Splice(w, lim, st4, fr, next);
      SplicePlanKept(w, lim, st4, fr, next);
      if rest.Done? {
        PrefixNodes(st.nodes, st4.nodes, rest.st.nodes);
      }
    }
  }

  // Nothing is passed over in silence: a round either plans its resource, or goes into it, or
  // leaves a warning that names what was skipped.
  lemma RoundNotSilent(w: World, lim: Limits, st: State, fr: Frame, r: Resource)
    requires fr.Valid(lim) && OneRound(w, lim, st, fr, r).Next?
    ensures var st1 := OneRound(w, lim, st, fr, r).st;
      || (st1.plan == st.plan + [PlannedOf(fr, r)] && st1.warnings == st.warnings && !r.kind.Nested?)
      || (&& st1.plan == st.plan && st.warnings < st1.warnings
          && st1.warnings[|st1.warnings| - 1] ==
             if r.kind.Nested? then AlreadyResolved(fr.about, Identity(r.kind.child))
             else DuplicateResource(fr.about, r.kind, r.target))
  {
  }

  // ----- whole resolutions -----

  // A name resolved within the limits: no identity looked up twice, as many nodes as
  // counted manifests, the stack back to the root alone.
  lemma ResolveNameKeeps(w: World, lim: Limits, m: Murl)
    requires ResolveName(w, lim, m).Done?
    ensures var st := ResolveName(w, lim, m).st;
      && Names(lim, 0, st) && PlanKept(lim, st) && st.stack == [Identity(m)]
      && 1 <= |st.nodes| == st.manifests <= lim.maxNestedManifests
      && st.log[0] == m
  {
    var st0 := EMPTY_STATE.(stack := [Identity(m)]);
    ArriveNames(w, lim, 0, st0, m, 0, None, None);
    var (st1, fr) := Arrive(w, lim, st0, m, 0, None, None).value;
    NamesEntered(lim, 0, EMPTY_STATE, st1, m);
    SpliceNames(w, lim, 0, st1, fr, 0);
    PlanKeptMoreNodes(lim, EMPTY_STATE, st1);
    SplicePlanKept(w, lim, st1, fr, 0);
    SpliceLog(w, lim, st1, fr, 0);
  }

  // The same for a file, whose root is a node on top of the counted manifests.
  lemma ResolveFileKeeps(w: World, lim: Limits, path: string, bytes: string)
    requires ResolveFile(w, lim, path, bytes).Done?
    ensures var st := ResolveFile(w, lim, path, bytes).st;
      && Names(lim, 1, st) && PlanKept(lim, st) && st.stack == []
      && |st.nodes| == st.manifests + 1 <= lim.maxNestedManifests + 1
  {
    var (st1, fr) := Open(w, lim, EMPTY_STATE, None, bytes, FromFile(path), 0, None).value;
    SpliceNames(w, lim, 1, st1, fr, 0);
    PlanKeptMoreNodes(lim, EMPTY_STATE, st1);
    SplicePlanKept(w, lim, st1, fr, 0);
  }
}
