/**
 A destination of local names, exported, imported elsewhere and resolved there,
 gives the same outcome.
 */
module BundleRoundTrip {
  import opened Wrappers
  import opened MurlScheme
  import opened MurlRoundTrip
  import opened Manifest
  import opened Store
  import opened Resolver
  import opened ResolverFrame
  import opened ResolverInvariants
  import opened ResolverNodes
  import opened ResolverFamily
  import B = Bundle

  // Resolved manifests that are all local names, one per name.
  predicate AllLocal(log: seq<Murl>) {
    forall i :: 0 <= i < |log| ==> log[i].authority.Local?
  }

  ghost predicate Exportable(w: World, lim: Limits, nodes: seq<Node>, log: seq<Murl>) {
    && |nodes| > 0 && |nodes| <= B.MAX_BUNDLE_ENTRIES
    && NodesFound(w, lim, 0, nodes, log) && OncePerName(log) && AllLocal(log)
  }

  function Exported(t: B.Tools, nodes: seq<Node>): B.Bundle
    requires 0 < |nodes| <= B.MAX_BUNDLE_ENTRIES
  {
    B.Export(t, nodes).value
  }

  // The plan an import makes of it.
  function Expected(nodes: seq<Node>, log: seq<Murl>, n: nat): seq<B.Install>
    requires n <= |nodes| == |log|
  {
    seq(n, i requires 0 <= i < n => (log[i].Bare(), nodes[i].bytes))
  }

  lemma EntryRoundTrip(t: B.Tools, w: World, lim: Limits, m: Murl, node: Node)
    requires B.Faithful(t, w) && Valid(m) && NodeFound(w, lim, m, node)
    ensures var e := B.EntryOf(t, node);
      && B.EntrySound(t, lim, e) && e.identity == Some(Identity(m)) && Parse(e.identity.value) == Ok(m.Bare())
      && t.decode(e.bytes) == Some(node.bytes) && t.inspect(node.bytes) == Some(node.doc.id)
  {
    IdentityFixpoint(m);
  }

  // What is exported is accepted exactly when the file is small enough.
  lemma ExportAccepted(t: B.Tools, w: World, lim: Limits, nodes: seq<Node>, log: seq<Murl>, size: nat)
    requires B.Faithful(t, w) && Exportable(w, lim, nodes, log)
    ensures B.CheckBundle(t, lim, size, Exported(t, nodes)) ==
      if size > B.Cap(lim) then Some(B.BundleTooLarge) else None
  {
    var b := Exported(t, nodes);
    forall k | 0 <= k < |nodes|
      ensures B.EntrySound(t, lim, b.entries[k]) && b.entries[k].identity == Some(Identity(log[k]))
    {
      EntryRoundTrip(t, w, lim, log[k], nodes[k + 0]);
    }
    B.AcceptedExactly(t, lim, size, b);
    assert b.entries[0].identity == b.root;
  }

  lemma EntryPlanned(t: B.Tools, w: World, lim: Limits, nodes: seq<Node>, log: seq<Murl>, i: nat)
    requires B.Faithful(t, w) && Exportable(w, lim, nodes, log) && i < |nodes|
    ensures B.PlanEntry(t, lim, Exported(t, nodes), None, i) == Ok((log[i].Bare(), nodes[i].bytes))
  {
    var b := Exported(t, nodes);
    assert NodeFound(w, lim, log[i], nodes[i + 0]);
    EntryRoundTrip(t, w, lim, log[i], nodes[i]);
    assert b.entries[i] == B.EntryOf(t, nodes[i]);
    assert B.NameFor(b, None, i) == Ok(log[i].Bare());
  }

  lemma NotClaimed(nodes: seq<Node>, log: seq<Murl>, i: nat)
    requires OncePerName(log) && i < |log| == |nodes|
    ensures !B.Claimed(Expected(nodes, log, i), Identity(log[i].Bare()))
  {
    assert forall m: Murl :: Identity(m.Bare()) == Identity(m);
  }

  lemma ExpectedMore(nodes: seq<Node>, log: seq<Murl>, i: nat)
    requires i < |nodes| == |log|
    ensures Expected(nodes, log, i) + [(log[i].Bare(), nodes[i].bytes)] == Expected(nodes, log, i + 1)
  {
  }

  lemma {:induction false} PlanRoundTrip(t: B.Tools, w: World, lim: Limits, nodes: seq<Node>, log: seq<Murl>, i: nat)
    requires B.Faithful(t, w) && Exportable(w, lim, nodes, log) && i <= |nodes|
    ensures B.PlanFrom(t, lim, Exported(t, nodes), None, i, Expected(nodes, log, i)) ==
      Ok(Expected(nodes, log, |nodes|))
    decreases |nodes| - i
  {
    if i < |nodes| {
      var next := i + 1;
      PlanStep(t, w, lim, nodes, log, i, next);
      PlanRoundTrip(t, w, lim, nodes, log, next);
    }
  }

  lemma PlanStep(t: B.Tools, w: World, lim: Limits, nodes: seq<Node>, log: seq<Murl>, i: nat, next: nat)
    requires B.Faithful(t, w) && Exportable(w, lim, nodes, log) && i < |nodes| && next == i + 1
    ensures B.PlanFrom(t, lim, Exported(t, nodes), None, i, Expected(nodes, log, i)) ==
      B.PlanFrom(t, lim, Exported(t, nodes), None, next, Expected(nodes, log, next))
  {
    EntryPlanned(t, w, lim, nodes, log, i);
    NotClaimed(nodes, log, i);
    ExpectedMore(nodes, log, i);
  }

  // The installed names lead to the same manifests as before.
  lemma SameLocated(t: B.Tools, w: World, v: World, lim: Limits, nodes: seq<Node>, log: seq<Murl>,
                    files: map<FilePath, string>)
    requires Exportable(w, lim, nodes, log)
    requires v.store == files && B.HoldsAll(files, Expected(nodes, log, |nodes|))
    ensures AgreeOn(w, v, lim, log, 0)
  {
    var plan := Expected(nodes, log, |nodes|);
    forall i | 0 <= i < |log| ensures Locate(w, lim, log[i]) == Locate(v, lim, log[i]) {
      assert NodeFound(w, lim, log[i], nodes[i + 0]);
      assert B.Holds(files, plan[i].0, plan[i].1);
      assert ManifestPath(log[i].Bare()) == ManifestPath(log[i]);
    }
  }

  // Importing an exported destination makes this plan, into any store without those names.
  lemma ImportPlanned(t: B.Tools, w: World, lim: Limits, nodes: seq<Node>, log: seq<Murl>, size: nat,
                      files: map<FilePath, string>, force: bool)
    requires B.Faithful(t, w) && Exportable(w, lim, nodes, log) && size <= B.Cap(lim)
    requires force || forall i :: 0 <= i < |log| ==> ManifestPath(log[i]) !in files
    ensures B.PlanImport(t, lim, files, size, Exported(t, nodes), None, force) == Ok(Expected(nodes, log, |nodes|))
  {
    ExportAccepted(t, w, lim, nodes, log, size);
    PlanRoundTrip(t, w, lim, nodes, log, 0);
    assert Expected(nodes, log, 0) == [];
    if !force {
      NothingTaken(nodes, log, files);
    }
  }

  lemma NothingTaken(nodes: seq<Node>, log: seq<Murl>, files: map<FilePath, string>)
    requires |nodes| == |log| && forall i :: 0 <= i < |log| ==> ManifestPath(log[i]) !in files
    ensures B.FirstInstalled(files, Expected(nodes, log, |nodes|)).None?
  {
    var plan := Expected(nodes, log, |nodes|);
    forall i | 0 <= i < |plan| ensures ManifestPath(plan[i].0) == ManifestPath(log[i]) {
    }
  }

  lemma ResolvedExportable(w: World, lim: Limits, m: Murl)
    requires Sound(w) && Valid(m) && ResolveName(w, lim, m).Done?
    requires |ResolveName(w, lim, m).st.nodes| <= B.MAX_BUNDLE_ENTRIES && AllLocal(ResolveName(w, lim, m).st.log)
    ensures Exportable(w, lim, ResolveName(w, lim, m).st.nodes, ResolveName(w, lim, m).st.log)
  {
    ResolveNameKeeps(w, lim, m);
    ResolvedNodes(w, lim, m);
  }

  // Export, import and resolve: for a destination whose manifests are all local names, imported
  // into a store that has none of these names, or by force, on a machine with the same rules,
  // the resolution has the same outcome, its plan and warnings included.
  lemma ExportImportResolve(t: B.Tools, w: World, v: World, lim: Limits, m: Murl, size: nat,
                            files: map<FilePath, string>, force: bool)
    requires Sound(w) && B.Faithful(t, w) && Valid(m) && ResolveName(w, lim, m).Done?
    requires |ResolveName(w, lim, m).st.nodes| <= B.MAX_BUNDLE_ENTRIES && AllLocal(ResolveName(w, lim, m).st.log)
    requires size <= B.Cap(lim)
    requires force || forall i :: 0 <= i < |ResolveName(w, lim, m).st.log| ==>
               ManifestPath(ResolveName(w, lim, m).st.log[i]) !in files
    requires |ResolveName(w, lim, m).st.nodes| > 0
    requires SameRules(w, v)
    ensures var exported := B.Export(t, ResolveName(w, lim, m).st.nodes);
      && exported.Ok? && B.PlanImport(t, lim, files, size, exported.value, None, force).Ok?
      && (v.store == B.Installed(files, B.PlanImport(t, lim, files, size, exported.value, None, force).value) ==>
            ResolveName(v, lim, m) == ResolveName(w, lim, m))
  {
    var st := ResolveName(w, lim, m).st;
    ResolvedExportable(w, lim, m);
    ImportPlanned(t, w, lim, st.nodes, st.log, size, files, force);
    B.ImportInstalls(t, lim, files, size, Exported(t, st.nodes), None, force);
    var plan := Expected(st.nodes, st.log, |st.nodes|);
    if v.store == B.Installed(files, plan) {
      SameLocated(t, w, v, lim, st.nodes, st.log, v.store);
      ResolveFrame(w, v, lim, m);
    }
  }

  // ----- when a bundle is too large to come back -----

  function TotalLength(texts: seq<string>): nat {
    if texts == [] then 0 else TotalLength(texts[..|texts| - 1]) + |texts[|texts| - 1]|
  }

  function Payloads(b: B.Bundle): seq<string> {
    seq(|b.entries|, i requires 0 <= i < |b.entries| => b.entries[i].bytes)
  }

  function Raws(nodes: seq<Node>): seq<string> {
    seq(|nodes|, i requires 0 <= i < |nodes| => nodes[i].bytes)
  }

  // Base64 writes four characters for every three bytes.
  ghost predicate Base64(t: B.Tools) {
    forall b: string :: 3 * |t.encode(b)| >= 4 * |b|
  }

  lemma {:induction false} PayloadsGrow(t: B.Tools, raws: seq<string>, texts: seq<string>)
    requires Base64(t) && |raws| == |texts| && forall i :: 0 <= i < |raws| ==> texts[i] == t.encode(raws[i])
    ensures 3 * TotalLength(texts) >= 4 * TotalLength(raws)
  {
    if raws != [] {
      PayloadsGrow(t, raws[..|raws| - 1], texts[..|texts| - 1]);
      assert texts[|texts| - 1] == t.encode(raws[|raws| - 1]);
    }
  }

  // A file holds at least its payloads, so a destination whose manifests add up to more than
  // three quarters of the cap is exported into a bundle no import accepts.
  lemma LargeExportRefused(t: B.Tools, w: World, lim: Limits, nodes: seq<Node>, log: seq<Murl>, size: nat)
    requires B.Faithful(t, w) && Base64(t) && Exportable(w, lim, nodes, log)
    requires size >= TotalLength(Payloads(Exported(t, nodes)))
    requires 4 * TotalLength(Raws(nodes)) > 3 * B.Cap(lim)
    ensures B.CheckBundle(t, lim, size, Exported(t, nodes)) == Some(B.BundleTooLarge)
  {
    var raws, texts := Raws(nodes), Payloads(Exported(t, nodes));
    assert forall i :: 0 <= i < |raws| ==> texts[i] == t.encode(raws[i]);
    PayloadsGrow(t, raws, texts);
    ExportAccepted(t, w, lim, nodes, log, size);
  }

  lemma {:induction false} FullLength(texts: seq<string>, n: nat)
    requires forall i :: 0 <= i < |texts| ==> |texts[i]| == n
    ensures TotalLength(texts) == |texts| * n
  {
    if texts != [] {
      FullLength(texts[..|texts| - 1], n);
      assert |texts| * n == (|texts| - 1) * n + n;
    }
  }

  lemma OverThreeQuarters(count: nat, n: nat)
    requires count >= 7 && n > 0
    ensures 4 * (count * n) > 3 * (n * 8)
  {
    assert count * n >= 7 * n;
  }

  // Seven manifests of the maximal size, one fewer than may be resolved by default, already are.
  lemma SevenFullManifests(t: B.Tools, w: World, lim: Limits, nodes: seq<Node>, log: seq<Murl>, size: nat)
    requires B.Faithful(t, w) && Base64(t) && Exportable(w, lim, nodes, log)
    requires size >= TotalLength(Payloads(Exported(t, nodes))) && lim.maxManifestBytes > 0
    requires |nodes| >= 7 && forall i :: 0 <= i < |nodes| ==> |nodes[i].bytes| == lim.maxManifestBytes
    ensures B.CheckBundle(t, lim, size, Exported(t, nodes)) == Some(B.BundleTooLarge)
  {
    FullLength(Raws(nodes), lim.maxManifestBytes);
    OverThreeQuarters(|nodes|, lim.maxManifestBytes);
    LargeExportRefused(t, w, lim, nodes, log, size);
  }

  // There is such a destination: under the default limits a name resolves to seven local
  // manifests of the maximal size, can be exported, and no import accepts the export.
  lemma SevenFullExist() returns (t: B.Tools)
    ensures var w := FamilyWorld(6, DEFAULT_LIMITS.maxManifestBytes);
      var o := ResolveName(w, DEFAULT_LIMITS, ROOT);
      && B.Faithful(t, w) && Base64(t) && o.Done? && |o.st.nodes| == 7
      && Exportable(w, DEFAULT_LIMITS, o.st.nodes, o.st.log)
      && (forall size: nat :: size >= TotalLength(Payloads(Exported(t, o.st.nodes))) ==>
            B.CheckBundle(t, DEFAULT_LIMITS, size, Exported(t, o.st.nodes)) == Some(B.BundleTooLarge))
  {
    var w, lim := FamilyWorld(6, DEFAULT_LIMITS.maxManifestBytes), DEFAULT_LIMITS;
    t := B.FaithfulToolsExist(w);
    FamilyResolves(lim, 6, lim.maxManifestBytes);
    FamilySound(6, lim.maxManifestBytes);
    LetterValid('r');
    ResolvedExportable(w, lim, ROOT);
    var st := ResolveName(w, lim, ROOT).st;
    forall size: nat | size >= TotalLength(Payloads(Exported(t, st.nodes)))
      ensures B.CheckBundle(t, lim, size, Exported(t, st.nodes)) == Some(B.BundleTooLarge)
    {
      SevenFullManifests(t, w, lim, st.nodes, st.log, size);
    }
  }
}
