/** What every resolved manifest is: the one its name leads to, valid and bound to that name. */
module ResolverNodes {
  import opened Wrappers
  import opened MurlScheme
  import opened MurlRoundTrip
  import opened Manifest
  import opened Graph
  import opened Walks
  import opened Resolver
  import opened ResolverFrame
  import opened ResolverInvariants
  import opened ResolverPlan

  predicate NodeFound(w: World, lim: Limits, m: Murl, node: Node) {
    var located := Locate(w, lim, m);
    && located.Ok? && node.bytes == located.value.bytes && node.name == Some(m)
    && |node.bytes| <= lim.maxManifestBytes
    && w.decode(node.bytes) == Ok(node.doc)
    && (node.doc.id.Some? ==> Binds(node.doc.id.value, m))
    && (node.origin.FromRemote? <==> !m.authority.Local?)
    && (node.trust.IsTrusted() <==> m.authority.Local? || SignedByPinned(w, m, node.doc))
    && (node.trust.LocalTrust? <==> m.authority.Local?)
    && (node.trust.UnsignedRemote? <==> !m.authority.Local? && node.doc.keyId.None?)
    && (node.trust.SignedTrusted? ==> node.doc.keyId == Some(node.trust.keyId))
    && (node.trust.SignedUnknownKey? ==> node.doc.keyId == Some(node.trust.keyId))
    && (node.expired <==> node.doc.expires.Some? && node.doc.expires.value <= w.now)
    && (node.premature <==> node.doc.notBefore.Some? && w.now < node.doc.notBefore.value)
  }

  // Signed by a key pinned for the authority the manifest was asked from.
  predicate SignedByPinned(w: World, m: Murl, doc: Doc) {
    doc.keyId.Some? && w.trusted(m.authority.Text(), doc.keyId.value)
  }

  // ----- opening -----

  predicate NameBound(doc: Doc, name: Option<Murl>) {
    name.Some? && doc.id.Some? ==> Binds(doc.id.value, name.value)
  }

  predicate Pinned(w: World, name: Option<Murl>, doc: Doc) {
    doc.keyId.Some? && w.trusted(if name.Some? then name.value.authority.Text() else "", doc.keyId.value)
  }

  // A manifest opens exactly when it is small enough, decodes, declares no other name, and its
  // dependencies have no cycle.
  lemma OpensExactly(w: World, lim: Limits, st: State, name: Option<Murl>, bytes: string, origin: Origin,
                     depth: nat, anchor: Option<string>)
    requires depth <= lim.maxDepth
    ensures Open(w, lim, st, name, bytes, origin, depth, anchor).Ok? <==>
      && |bytes| <= lim.maxManifestBytes && w.decode(bytes).Ok?
      && NameBound(w.decode(bytes).value, name) && !HasCycle(Edges(w.decode(bytes).value.resources))
  {
    if w.decode(bytes).Ok? {
      FailsExactlyOnCycle(w.decode(bytes).value.resources);
    }
  }

  // It adds one node, trusted when it comes from this machine or is signed by a key pinned for the
  // authority asked, and its resources are gone through in their dispatch order.
  lemma OpenedAs(w: World, lim: Limits, st: State, name: Option<Murl>, bytes: string, origin: Origin,
                 depth: nat, anchor: Option<string>) returns (node: Node)
    requires depth <= lim.maxDepth && Open(w, lim, st, name, bytes, origin, depth, anchor).Ok?
    ensures var (st1, fr) := Open(w, lim, st, name, bytes, origin, depth, anchor).value;
      && st1.nodes == st.nodes + [node] && fr.node == |st.nodes|
      && fr.doc == node.doc && w.decode(bytes) == Ok(node.doc) && InOrder(fr.doc, fr.order)
      && st.warnings <= st1.warnings && st1.plan == st.plan && st1.log == st.log
    ensures node.bytes == bytes && node.name == name && node.origin == origin && node.depth == depth
    ensures node.trust.IsTrusted() <==> !origin.FromRemote? || Pinned(w, name, node.doc)
    ensures node.expired <==> node.doc.expires.Some? && node.doc.expires.value <= w.now
    ensures node.premature <==> node.doc.notBefore.Some? && w.now < node.doc.notBefore.value
  {
    node := Open(w, lim, st, name, bytes, origin, depth, anchor).value.0.nodes[|st.nodes|];
    OpenedNotes(w, lim, st, name, bytes, origin, depth, anchor);
  }

  lemma OpenedNotes(w: World, lim: Limits, st: State, name: Option<Murl>, bytes: string, origin: Origin,
                    depth: nat, anchor: Option<string>)
    requires depth <= lim.maxDepth && Open(w, lim, st, name, bytes, origin, depth, anchor).Ok?
    ensures st.warnings <= Open(w, lim, st, name, bytes, origin, depth, anchor).value.0.warnings
  {
  }

  // Node i + files is the manifest of the i-th name looked up.
  predicate NodesFound(w: World, lim: Limits, files: nat, nodes: seq<Node>, log: seq<Murl>) {
    && |nodes| == |log| + files
    && (forall i :: 0 <= i < |log| ==> Valid(log[i]))
    && (forall i :: 0 <= i < |log| ==> NodeFound(w, lim, log[i], nodes[i + files]))
  }

  lemma ArriveFound(w: World, lim: Limits, st: State, m: Murl, depth: nat, anchor: Option<string>, pin: Option<string>)
    returns (node: Node)
    requires depth <= lim.maxDepth && Arrive(w, lim, st, m, depth, anchor, pin).Ok?
    ensures var st1 := Arrive(w, lim, st, m, depth, anchor, pin).value.0;
      st1.nodes == st.nodes + [node] && st1.log == st.log + [m] && NodeFound(w, lim, m, node)
  {
    var st1 := Arrive(w, lim, st, m, depth, anchor, pin).value.0;
    node := st1.nodes[|st.nodes|];
  }

  lemma NodesFoundMore(w: World, lim: Limits, files: nat, nodes: seq<Node>, log: seq<Murl>, node: Node, m: Murl)
    requires NodesFound(w, lim, files, nodes, log) && Valid(m) && NodeFound(w, lim, m, node)
    ensures NodesFound(w, lim, files, nodes + [node], log + [m])
  {
    var more, longer := nodes + [node], log + [m];
    forall i | 0 <= i < |longer| ensures Valid(longer[i]) && NodeFound(w, lim, longer[i], more[i + files]) {
      if i < |log| {
        assert longer[i] == log[i] && more[i + files] == nodes[i + files];
      } else {
        assert longer[i] == m && more[i + files] == node;
      }
    }
  }

  lemma ArriveFoundAll(w: World, lim: Limits, files: nat, st: State, m: Murl, depth: nat, anchor: Option<string>,
                       pin: Option<string>)
    requires depth <= lim.maxDepth && NodesFound(w, lim, files, st.nodes, st.log) && Valid(m)
    ensures match Arrive(w, lim, st, m, depth, anchor, pin)
            case Err(_) => true
            case Ok((st1, _)) => NodesFound(w, lim, files, st1.nodes, st1.log)
  {
    if Arrive(w, lim, st, m, depth, anchor, pin).Ok? {
      var node := ArriveFound(w, lim, st, m, depth, anchor, pin);
      NodesFoundMore(w, lim, files, st.nodes, st.log, node, m);
    }
  }

  lemma RoundFound(w: World, lim: Limits, files: nat, st: State, fr: Frame, r: Resource)
    requires fr.Valid(lim) && NodesFound(w, lim, files, st.nodes, st.log)
    requires r.kind.Nested? ==> Valid(r.kind.child)
    ensures match OneRound(w, lim, st, fr, r)
            case Halt(_, _) => true
            case Next(st1) => st1.nodes == st.nodes && st1.log == st.log
            case Into(st2, inner, id) => NodesFound(w, lim, files, st2.nodes, st2.log)
  {
    if r.kind.Nested? {
      var admitted, depth := Admit(lim, st, fr, r, r.kind.child), fr.depth + 1;
      if admitted.Descend? {
        DescendRound(w, lim, st, fr, r, admitted.st, depth);
        ArriveFoundAll(w, lim, files, admitted.st, r.kind.child, depth, Some(fr.Anchor(r)), r.integrity);
      }
    }
  }

  // A nested manifest is gone into only if its bytes fit the pin of the resource that nests it.
  lemma PinsHold(w: World, lim: Limits, st: State, fr: Frame, r: Resource)
    requires fr.Valid(lim) && OneRound(w, lim, st, fr, r).Into? && r.integrity.Some?
    ensures var located := Locate(w, lim, r.kind.child);
      located.Ok? && w.intact(located.value.bytes, r.integrity.value)
  {
  }

  lemma {:induction false} SpliceFound(w: World, lim: Limits, files: nat, st: State, fr: Frame, k: nat)
    requires Sound(w) && fr.At(lim, k) && FrameKept(fr) && NodesFound(w, lim, files, st.nodes, st.log)
    requires Splice(w, lim, st, fr, k).Done?
    ensures var st1 := Splice(w, lim, st, fr, k).st; NodesFound(w, lim, files, st1.nodes, st1.log)
    decreases lim.maxDepth - fr.depth, |fr.order| - k
  {
    if k < |fr.order| {
      var r, next := fr.doc.resources[fr.order[k]], k + 1;
      RoundFound(w, lim, files, st, fr, r);
      match OneRound(w, lim, st, fr, r) {
        case Halt(_, _) =>
        case Next(st1) => SpliceFound(w, lim, files, st1, fr, next);
        case Into(st2, inner, id) =>
          InnerKept(w, lim, st, fr, r);
          SpliceFound(w, lim, files, st2, inner, 0);
          var st4 := Leave(Splice(w, lim, st2, inner, 0).st, id);
          SpliceFound(w, lim, files, st4, fr, next);
      }
    }
  }

  // Every node of a named resolution is the manifest its name leads to.
  lemma ResolvedNodes(w: World, lim: Limits, m: Murl)
    requires Sound(w) && Valid(m) && ResolveName(w, lim, m).Done?
    ensures var st := ResolveName(w, lim, m).st; NodesFound(w, lim, 0, st.nodes, st.log)
  {
    var st0 := EMPTY_STATE.(stack := [Identity(m)]);
    var node := ArriveFound(w, lim, st0, m, 0, None, None);
    var (st, fr) := Arrive(w, lim, st0, m, 0, None, None).value;
    NodesFoundMore(w, lim, 0, [], [], node, m);
    assert w.decode(Locate(w, lim, m).value.bytes).value.WellFormed();
    SpliceFound(w, lim, 0, st, fr, 0);
  }
}
