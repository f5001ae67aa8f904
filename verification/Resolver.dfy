/**
 The resolver: from a name to a flat plan of resources, splicing nested
 manifests under limits. `Splice` is the resource loop of `ingest_bytes` with
 its recursion; what happens before the loop and at one resource is in
 functions of its own. The class in module ResolverSession runs the same
 steps on a mutable state.
 */
module Resolver {
  import opened Wrappers
  import opened Text
  import opened MurlScheme
  import opened MurlRoundTrip
  import opened Manifest
  import opened Policy
  import opened Graph
  import opened Store
  import Cache

  // ----- the world a resolution runs in -----

  datatype Limits = Limits(
    maxDepth: nat,
    maxTotalResources: nat,
    maxNestedManifests: nat,
    maxManifestBytes: nat,
    cacheTtlSecs: nat)

  datatype World = World(
    store: map<FilePath, string>,
    cache: Option<map<string, Cache.Entry>>,
    remote: Option<string -> Result<string, string>>,
    decode: string -> Result<Doc, string>,
    intact: (string, string) -> bool,
    trusted: (string, string) -> bool,
    now: nat)

  // Decoding returns validated documents only.
  ghost predicate Sound(w: World) {
    forall b: string :: w.decode(b).Ok? ==> w.decode(b).value.WellFormed()
  }

  // Decoding returns documents with a dispatch order only.
  ghost predicate Orderable(w: World) {
    forall b: string :: w.decode(b).Ok? ==> ExecutionOrder(w.decode(b).value.resources).Ok?
  }

  datatype Origin =
    | FromStore(path: FilePath)
    | FromFile(file: string)
    | FromRemote(url: string, cached: bool)

  // How far from this machine a manifest, or a name, lives.
  datatype Locality = ThisDevice | Loopback | Network {

    function Distance(): nat {
      match this
      case ThisDevice => 0
      case Loopback => 1
      case Network => 2
    }
  }

  function LocalityOf(a: Authority): Locality {
    if a.Local? then ThisDevice else if a.IsLoopback() then Loopback else Network
  }

  function SourceLocality(origin: Origin, name: Option<Murl>): Locality {
    match origin
    case FromRemote(_, _) => if name.Some? then LocalityOf(name.value.authority) else Network
    case _ => ThisDevice
  }

  datatype Error =
    | UnreadableFile
    | NotInStore(identity: string)
    | FetchFailed(reason: string)
    | Offline(identity: string)
    | ManifestTooLarge(size: nat)
    | IntegrityMismatch
    | BadManifest(reason: string)
    | Relabeled(declared: string, requested: string)
    | DependencyCycle(stuck: seq<string>)
    | NearerName(identity: string)
    | TooDeep(identity: string)
    | TooManyManifests
    | TooManyResources
    | Cycle(stack: seq<string>, identity: string)
    | UnmatchedSelector(item: SelectorItem)

  datatype Warning =
    | FromManifest(about: string, text: string)
    | UnboundSignature(about: string)
    | Expired(about: string)
    | NotYetValid(about: string)
    | IgnoredSelector(about: string, target: string)
    | AlreadyResolved(about: string, identity: string)
    | CrossesAuthority(about: string, identity: string)
    | DuplicateResource(about: string, kind: Kind, target: string)
    | StaleCache(identity: string, url: string, reason: string)
    | OfflineCopy(identity: string, url: string)

  // ----- locating a manifest -----

  function WellKnownUrl(m: Murl): string {
    (if m.authority.IsLoopback() then "http" else "https") + "://" + m.authority.Text()
    + "/.well-known/murl/" + NamePath(EncodeAll(m.name), m.version) + EXTENSION
  }

  datatype Found = Found(bytes: string, origin: Origin, warnings: seq<Warning>)

  function Ttl(lim: Limits, m: Murl): nat {
    if m.version.Latest? then lim.cacheTtlSecs else Cache.U64_MAX
  }

  function CachedEntry(w: World, id: string): Option<Cache.Entry> {
    if w.cache.Some? && id in w.cache.value then Some(w.cache.value[id]) else None
  }

  // Local store, else fresh cache, else network, else a stale copy.
  function Locate(w: World, lim: Limits, m: Murl): Result<Found, Error> {
    if m.authority.Local? then
      var path := ManifestPath(m);
      if path in w.store then Ok(Found(w.store[path], FromStore(path), [])) else Err(NotInStore(Identity(m)))
    else
      var id := Identity(m);
      var cached := CachedEntry(w, id);
      if cached.Some? && Cache.Fresh(Ttl(lim, m), cached.value.fetchedAt, w.now) then
        Ok(Found(cached.value.bytes, FromRemote(cached.value.url, true), []))
      else
        match w.remote
        case Some(fetch) =>
          (match fetch(WellKnownUrl(m))
           case Ok(bytes) =>
             if |bytes| > lim.maxManifestBytes then Err(ManifestTooLarge(|bytes|))
             else Ok(Found(bytes, FromRemote(WellKnownUrl(m), false), []))
           case Err(reason) =>
             if cached.Some? then
               Ok(Found(cached.value.bytes, FromRemote(cached.value.url, true),
                        [StaleCache(id, cached.value.url, reason)]))
             else Err(FetchFailed(reason)))
        case None =>
          if cached.Some? then
            Ok(Found(cached.value.bytes, FromRemote(cached.value.url, true),
                     [OfflineCopy(id, cached.value.url)]))
          else Err(Offline(id))
  }

  // ----- the state of a resolution -----

  // A resolved manifest. `name` is what it was requested as, absent for a file.
  datatype Node = Node(
    name: Option<Murl>,
    origin: Origin,
    doc: Doc,
    bytes: string,
    trust: Trust,
    depth: nat,
    expired: bool,
    premature: bool)

  datatype Planned = Planned(
    resource: Resource,
    tier: Tier,
    node: nat,
    anchor: string,
    decision: Option<Decision>)

  type Key = (Kind, string)

  function KeyOf(r: Resource): Key {
    (r.kind, r.target)
  }

  // `log` records the names looked up, in order; resolver.rs keeps no such list.
  datatype State = State(
    nodes: seq<Node>,
    plan: seq<Planned>,
    warnings: seq<Warning>,
    stack: seq<string>,
    visited: set<string>,
    dedup: set<Key>,
    manifests: nat,
    log: seq<Murl>)

  const EMPTY_STATE := State([], [], [], [], {}, {}, 0, [])

  // One manifest whose resources are being spliced.
  datatype Frame = Frame(
    name: Option<Murl>,
    about: string,
    doc: Doc,
    order: seq<nat>,
    node: nat,
    depth: nat,
    anchor: Option<string>,
    source: Locality)
  {
    predicate Valid(lim: Limits) {
      && depth <= lim.maxDepth
      && Indices(doc.resources, order)
    }

    predicate At(lim: Limits, k: nat) {
      Valid(lim) && k <= |order|
    }

    // The id a resource of this frame is addressed by in a selector.
    function Anchor(r: Resource): string {
      if anchor.Some? then anchor.value else r.id
    }
  }

  datatype Outcome = Done(st: State) | Stop(error: Error, log: seq<Murl>)

  // ----- entering a manifest -----

  // Same authority and name, and no two different pinned versions.
  predicate Binds(declared: Murl, requested: Murl) {
    && declared.authority == requested.authority
    && declared.name == requested.name
    && (declared.version.Pinned? && requested.version.Pinned? ==> declared.version == requested.version)
  }

  function TrustOf(w: World, origin: Origin, name: Option<Murl>, doc: Doc): Trust {
    if !origin.FromRemote? then LocalTrust
    else
      match doc.keyId
      case None => UnsignedRemote
      case Some(k) =>
        var authority := if name.Some? then name.value.authority.Text() else "";
        if w.trusted(authority, k) then SignedTrusted(k) else SignedUnknownKey(k)
  }

  function About(origin: Origin, name: Option<Murl>): string {
    if name.Some? then Identity(name.value)
    else if origin.FromFile? then "file (" + origin.file + ")"
    else ""
  }

  predicate IsExpired(w: World, doc: Doc) {
    doc.expires.Some? && doc.expires.value <= w.now
  }

  predicate IsPremature(w: World, doc: Doc) {
    doc.notBefore.Some? && w.now < doc.notBefore.value
  }

  function ManifestWarnings(about: string, texts: seq<string>): seq<Warning> {
    seq(|texts|, i requires 0 <= i < |texts| => FromManifest(about, texts[i]))
  }

  function OpenWarnings(w: World, about: string, doc: Doc): seq<Warning> {
    ManifestWarnings(about, doc.warnings) +
    (if doc.keyId.Some? && doc.id.None? then [UnboundSignature(about)] else []) +
    (if IsExpired(w, doc) then [Expired(about)] else []) +
    (if IsPremature(w, doc) then [NotYetValid(about)] else [])
  }

  function MakeNode(w: World, name: Option<Murl>, bytes: string, origin: Origin, doc: Doc, depth: nat): Node {
    Node(name, origin, doc, bytes, TrustOf(w, origin, name, doc), depth, IsExpired(w, doc), IsPremature(w, doc))
  }

  // `ingest_bytes` up to its loop.
  function Open(w: World, lim: Limits, st: State, name: Option<Murl>, bytes: string, origin: Origin,
                depth: nat, anchor: Option<string>): (r: Result<(State, Frame), Error>)
    requires depth <= lim.maxDepth
    ensures r.Ok? ==> r.value.1.Valid(lim) && r.value.1.depth == depth && r.value.1.name == name
  {
    if |bytes| > lim.maxManifestBytes then Err(ManifestTooLarge(|bytes|))
    else
      match w.decode(bytes)
      case Err(reason) => Err(BadManifest(reason))
      case Ok(doc) =>
        if name.Some? && doc.id.Some? && !Binds(doc.id.value, name.value) then
          Err(Relabeled(Identity(doc.id.value), Identity(name.value)))
        else
          match ExecutionOrder(doc.resources)
          case Err(placed) => Err(DependencyCycle(StuckIds(doc.resources, placed, |doc.resources|)))
          case Ok(order) =>
            OrderIndices(doc.resources);
            var about := About(origin, name);
            Ok((st.(nodes := st.nodes + [MakeNode(w, name, bytes, origin, doc, depth)],
                    warnings := st.warnings + OpenWarnings(w, about, doc)),
                Frame(name, about, doc, order, |st.nodes|, depth, anchor, SourceLocality(origin, name))))
  }

  // `ingest_named` up to that loop; the log comes back with an error too.
  function Arrive(w: World, lim: Limits, st: State, m: Murl, depth: nat, anchor: Option<string>,
                  pin: Option<string>): (r: Result<(State, Frame), (Error, seq<Murl>)>)
    requires depth <= lim.maxDepth
    ensures r.Ok? ==> r.value.1.Valid(lim) && r.value.1.depth == depth && r.value.1.name == Some(m)
  {
    if st.manifests + 1 > lim.maxNestedManifests then Err((TooManyManifests, st.log))
    else
      var log := st.log + [m];
      match Locate(w, lim, m)
      case Err(e) => Err((e, log))
      case Ok(found) =>
        if pin.Some? && !w.intact(found.bytes, pin.value) then Err((IntegrityMismatch, log))
        else
          var st1 := st.(manifests := st.manifests + 1, log := log, warnings := st.warnings + found.warnings);
          match Open(w, lim, st1, Some(m), found.bytes, found.origin, depth, anchor)
          case Err(e) => Err((e, log))
          case Ok(entered) => Ok(entered)
  }

  // ----- one resource -----

  datatype Verdict = Refuse(error: Error) | Skip(st: State) | Descend(st: State)

  function SelectorNote(fr: Frame, r: Resource, child: Murl): seq<Warning> {
    if child.selector.Some? then [IgnoredSelector(fr.about, r.target)] else []
  }

  function CrossingNote(fr: Frame, child: Murl): seq<Warning> {
    if fr.name.Some? && fr.name.value.authority != child.authority
    then [CrossesAuthority(fr.about, Identity(child))] else []
  }

  // What to do with a nested mURL, before anything is looked up for it.
  function Admit(lim: Limits, st: State, fr: Frame, r: Resource, child: Murl): Verdict {
    var id := Identity(child);
    if LocalityOf(child.authority).Distance() < fr.source.Distance() then Refuse(NearerName(id))
    else if fr.depth + 1 > lim.maxDepth then Refuse(TooDeep(id))
    else if id in st.stack then Refuse(Cycle(st.stack, id))
    else
      var noted := st.warnings + SelectorNote(fr, r, child);
      if id in st.visited then Skip(st.(warnings := noted + [AlreadyResolved(fr.about, id)]))
      else Descend(st.(warnings := noted + CrossingNote(fr, child), stack := st.stack + [id]))
  }

  // Back from a nested manifest.
  function Leave(st: State, id: string): State {
    st.(stack := if st.stack == [] then [] else st.stack[..|st.stack| - 1], visited := st.visited + {id})
  }

  function PlannedOf(fr: Frame, r: Resource): Planned {
    Planned(r, Classify(r.kind, r.target), fr.node, fr.Anchor(r), None)
  }

  // A dispatchable resource: the total is checked before duplicates are dropped.
  function PlanLeaf(lim: Limits, st: State, fr: Frame, r: Resource): Result<State, Error> {
    if |st.plan| + 1 > lim.maxTotalResources then Err(TooManyResources)
    else if KeyOf(r) in st.dedup then
      Ok(st.(warnings := st.warnings + [DuplicateResource(fr.about, r.kind, r.target)]))
    else Ok(st.(plan := st.plan + [PlannedOf(fr, r)], dedup := st.dedup + {KeyOf(r)}))
  }

  // ----- the loop -----

  // One round of the loop: it ends the resolution, or goes on to the next
  // resource, or first into a nested manifest.
  datatype Round = Halt(error: Error, log: seq<Murl>) | Next(st: State) | Into(st: State, inner: Frame, id: string)

  function OneRound(w: World, lim: Limits, st: State, fr: Frame, r: Resource): (round: Round)
    requires fr.Valid(lim)
    ensures round.Into? ==>
      && r.kind.Nested? && round.inner.Valid(lim)
      && round.inner.depth == fr.depth + 1 && round.inner.name == Some(r.kind.child)
      && round.id == Identity(r.kind.child)
  {
    if r.kind.Nested? then
      match Admit(lim, st, fr, r, r.kind.child)
      case Refuse(e) => Halt(e, st.log)
      case Skip(st1) => Next(st1)
      case Descend(st1) =>
        match Arrive(w, lim, st1, r.kind.child, fr.depth + 1, Some(fr.Anchor(r)), r.integrity)
        case Err((e, log)) => Halt(e, log)
        case Ok((st2, inner)) => Into(st2, inner, Identity(r.kind.child))
    else
      match PlanLeaf(lim, st, fr, r)
      case Err(e) => Halt(e, st.log)
      case Ok(st1) => Next(st1)
  }

  // Only what is not too deep is admitted.
  lemma DescendDepth(lim: Limits, st: State, fr: Frame, r: Resource, child: Murl)
    requires Admit(lim, st, fr, r, child).Descend?
    ensures fr.depth + 1 <= lim.maxDepth
  {
  }

  // Once admitted, a nested name is arrived at.
  lemma DescendRound(w: World, lim: Limits, st: State, fr: Frame, r: Resource, st1: State, depth: nat)
    requires fr.Valid(lim) && r.kind.Nested? && Admit(lim, st, fr, r, r.kind.child) == Descend(st1)
    requires depth == fr.depth + 1
    ensures depth <= lim.maxDepth
    ensures OneRound(w, lim, st, fr, r) ==
      match Arrive(w, lim, st1, r.kind.child, depth, Some(fr.Anchor(r)), r.integrity)
      case Err((e, log)) => Halt(e, log)
      case Ok((st2, inner)) => Into(st2, inner, Identity(r.kind.child))
  {
    DescendDepth(lim, st, fr, r, r.kind.child);
  }

  // Resources order[k..] of a frame, with everything nested in them.
  function Splice(w: World, lim: Limits, st: State, fr: Frame, k: nat): Outcome
    requires fr.At(lim, k)
    decreases lim.maxDepth - fr.depth, |fr.order| - k
  {
    if k == |fr.order| then Done(st)
    else
      match OneRound(w, lim, st, fr, fr.doc.resources[fr.order[k]])
      case Halt(e, log) => Stop(e, log)
      case Next(st1) => Splice(w, lim, st1, fr, k + 1)
      case Into(st2, inner, id) =>
        match Splice(w, lim, st2, inner, 0)
        case Stop(e, log) => Stop(e, log)
        case Done(st3) => Splice(w, lim, Leave(st3, id), fr, k + 1)
  }

  // What splicing amounts to once a round goes on to the next resource.
  lemma SpliceNext(w: World, lim: Limits, st: State, fr: Frame, k: nat, st1: State)
    requires fr.At(lim, k) && k < |fr.order|
    requires OneRound(w, lim, st, fr, fr.doc.resources[fr.order[k]]) == Next(st1)
    ensures Splice(w, lim, st, fr, k) == Splice(w, lim, st1, fr, k + 1)
  {
  }

  // What splicing amounts to once a round goes into a nested manifest.
  lemma SpliceInto(w: World, lim: Limits, st: State, fr: Frame, k: nat, st2: State, inner: Frame, child: string)
    requires fr.At(lim, k) && k < |fr.order| && inner.At(lim, 0)
    requires OneRound(w, lim, st, fr, fr.doc.resources[fr.order[k]]) == Into(st2, inner, child)
    ensures inner.depth == fr.depth + 1
    ensures var nested := Splice(w, lim, st2, inner, 0);
      Splice(w, lim, st, fr, k) ==
      if nested.Stop? then nested else Splice(w, lim, Leave(nested.st, child), fr, k + 1)
  {
  }

  // ----- whole resolutions -----

  datatype Resolution = Resolution(
    nodes: seq<Node>,
    plan: seq<Planned>,
    warnings: seq<Warning>,
    selector: Option<seq<SelectorItem>>)

  predicate Claims(item: SelectorItem, p: Planned) {
    match item
    case Id(id) => p.anchor == id
    case Role(role) => p.resource.role == Some(role)
    case Tag(tag) => tag in p.resource.tags
  }

  predicate ClaimedByAny(items: seq<SelectorItem>, p: Planned) {
    exists i :: 0 <= i < |items| && Claims(items[i], p)
  }

  // An id item is looked for among the root's resources, the others in the plan.
  predicate Matches(item: SelectorItem, root: Doc, plan: seq<Planned>) {
    if item.Id? then exists i :: 0 <= i < |root.resources| && root.resources[i].id == item.value
    else exists i :: 0 <= i < |plan| && Claims(item, plan[i])
  }

  function FirstUnmatched(items: seq<SelectorItem>, root: Doc, plan: seq<Planned>): (r: Option<SelectorItem>)
    ensures r.None? <==> forall i :: 0 <= i < |items| ==> Matches(items[i], root, plan)
    ensures r.Some? ==> exists i :: 0 <= i < |items| && items[i] == r.value && !Matches(items[i], root, plan)
  {
    if items == [] then None
    else if !Matches(items[0], root, plan) then Some(items[0])
    else
      var rest := FirstUnmatched(items[1..], root, plan);
      assert rest.Some? ==>
        exists i :: 0 <= i < |items[1..]| && items[1..][i] == rest.value && items[i + 1] == rest.value;
      rest
  }

  function Retain(items: seq<SelectorItem>, plan: seq<Planned>): seq<Planned> {
    if plan == [] then []
    else
      var n := |plan| - 1;
      Retain(items, plan[..n]) + if ClaimedByAny(items, plan[n]) then [plan[n]] else []
  }

  function Finish(st: State, selector: Option<seq<SelectorItem>>): Result<Resolution, Error>
    requires |st.nodes| > 0
  {
    match selector
    case None => Ok(Resolution(st.nodes, st.plan, st.warnings, None))
    case Some(items) =>
      match FirstUnmatched(items, st.nodes[0].doc, st.plan)
      case Some(item) => Err(UnmatchedSelector(item))
      case None => Ok(Resolution(st.nodes, Retain(items, st.plan), st.warnings, selector))
  }

  // Everything spliced for a root requested by name.
  function ResolveName(w: World, lim: Limits, m: Murl): Outcome {
    var st0 := EMPTY_STATE.(stack := [Identity(m)]);
    match Arrive(w, lim, st0, m, 0, None, None)
    case Err((e, log)) => Stop(e, log)
    case Ok((st, fr)) => Splice(w, lim, st, fr, 0)
  }

  // The same for a manifest file the user opened.
  function ResolveFile(w: World, lim: Limits, path: string, bytes: string): Outcome {
    match Open(w, lim, EMPTY_STATE, None, bytes, FromFile(path), 0, None)
    case Err(e) => Stop(e, [])
    case Ok((st, fr)) => Splice(w, lim, st, fr, 0)
  }
}
