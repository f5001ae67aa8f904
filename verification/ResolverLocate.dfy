/** Where manifests are looked for: fetch addresses, and when a cached copy stands in. */
module ResolverLocate {
  import opened Wrappers
  import opened Text
  import opened MurlScheme
  import opened MurlRoundTrip
  import opened Manifest
  import opened Graph
  import opened Store
  import opened Resolver
  import Cache
  import MurlParser

  // ----- fetch addresses -----

  function UrlScheme(m: Murl): string {
    if m.authority.IsLoopback() then "http" else "https"
  }

  // `well_known_url`; a local name has none.
  method ComputeUrl(m: Murl) returns (url: Option<string>)
    requires MurlParser.ByteName(m.name) && |m.name| >= 1
    ensures url == if m.authority.Local? then None else Some(WellKnownUrl(m))
  {
    if m.authority.Local? {
      return None;
    }
    var path := MurlParser.AppendSegments("", m.name);
    MurlParser.SlashedIsJoin(EncodeAll(m.name));
    var suffix := if m.version.Pinned? then "@" + m.version.Text() else "";
    var hostport := m.authority.Text();
    url := Some(UrlScheme(m) + "://" + hostport + "/.well-known/murl" + path + suffix + EXTENSION);
    UrlSpelled(m, path);
  }

  lemma UrlSpelled(m: Murl, path: string)
    requires path == "/" + Join(EncodeAll(m.name), '/')
    ensures UrlScheme(m) + "://" + m.authority.Text() + "/.well-known/murl" + path
            + VersionSuffix(m.version) + EXTENSION == WellKnownUrl(m)
  {
    assert "/.well-known/murl/" == "/.well-known/murl" + "/";
  }

  lemma SplitHead(a: string, b: string, x: string, y: string)
    requires '/' !in a && '/' !in b && a + ['/'] + x == b + ['/'] + y
    ensures a == b && x == y
  {
    SplitOnceAt(a, x, '/');
    SplitOnceAt(b, y, '/');
  }

  lemma SameSuffix(a: string, b: string, tail: string)
    requires a + tail == b + tail
    ensures a == b
  {
    assert |a| == |b|;
    assert (a + tail)[..|a|] == a && (b + tail)[..|b|] == b;
  }

  // The address after the scheme: authority, fixed path, name path, extension.
  function Place(m: Murl): string {
    m.authority.Text() + ['/'] + (".well-known/murl/" + (NamePath(EncodeAll(m.name), m.version) + EXTENSION))
  }

  lemma UrlIsPlace(m: Murl)
    ensures WellKnownUrl(m) == UrlScheme(m) + "://" + Place(m)
  {
    assert "/.well-known/murl/" == ['/'] + ".well-known/murl/";
  }

  // Manifests are fetched over https, but from loopback servers.
  lemma FetchedSecurely(m: Murl)
    ensures StartsWith(WellKnownUrl(m), "https://") <==> !m.authority.IsLoopback()
    ensures StartsWith(WellKnownUrl(m), "http://") <==> m.authority.IsLoopback()
  {
    UrlIsPlace(m);
    var url := WellKnownUrl(m);
    if m.authority.IsLoopback() {
      assert url[..7] == "http://" && url[4] == ':';
    } else {
      assert url[..8] == "https://" && url[4] == 's';
    }
  }

  lemma SchemeIsApart(a: string, b: string)
    ensures "http" + "://" + a != "https" + "://" + b
  {
    assert ("http" + "://" + a)[4] == ':';
    assert ("https" + "://" + b)[4] == 's';
  }

  lemma PlaceInjective(a: Murl, b: Murl)
    requires Valid(a) && Valid(b) && Place(a) == Place(b)
    ensures Identity(a) == Identity(b)
  {
    AuthorityChars(a.authority);
    AuthorityChars(b.authority);
    NoReserved(a.authority.Text());
    NoReserved(b.authority.Text());
    var p, q := NamePath(EncodeAll(a.name), a.version), NamePath(EncodeAll(b.name), b.version);
    SplitHead(a.authority.Text(), b.authority.Text(),
              ".well-known/murl/" + (p + EXTENSION), ".well-known/murl/" + (q + EXTENSION));
    assert (".well-known/murl/" + (p + EXTENSION))[17..] == p + EXTENSION;
    assert (".well-known/murl/" + (q + EXTENSION))[17..] == q + EXTENSION;
    SameSuffix(p, q, EXTENSION);
  }

  // Two names share a fetch address only when they are one name, selector and query aside.
  lemma UrlInjective(a: Murl, b: Murl)
    requires Valid(a) && Valid(b)
    ensures WellKnownUrl(a) == WellKnownUrl(b) <==> a.Bare() == b.Bare()
  {
    UrlIsPlace(a);
    UrlIsPlace(b);
    if WellKnownUrl(a) == WellKnownUrl(b) {
      SchemeIsApart(Place(a), Place(b));
      SchemeIsApart(Place(b), Place(a));
      assert (UrlScheme(a) + "://" + Place(a))[|UrlScheme(a)| + 3..] == Place(a);
      assert (UrlScheme(b) + "://" + Place(b))[|UrlScheme(b)| + 3..] == Place(b);
      PlaceInjective(a, b);
      IdentityInjective(a, b);
    }
  }

  // ----- cached copies -----

  // A copy of a pinned version never ages; one of the latest does when its time to live is over,
  // unless that is unlimited, or when the clock is at its end.
  predicate Current(lim: Limits, version: Version, fetchedAt: nat, now: nat) {
    || version.Pinned? || lim.cacheTtlSecs == Cache.U64_MAX
    || (now < fetchedAt + lim.cacheTtlSecs && now < Cache.U64_MAX)
  }

  predicate FreshCopy(w: World, lim: Limits, m: Murl) {
    var cached := CachedEntry(w, Identity(m));
    cached.Some? && Current(lim, m.version, cached.value.fetchedAt, w.now)
  }

  predicate Fetched(w: World, m: Murl) {
    w.remote.Some? && w.remote.value(WellKnownUrl(m)).Ok?
  }

  // A local name is located exactly when it is stored; any other when there is a fresh copy, or
  // what is fetched is within the size limit, or nothing is fetched and there is any copy.
  lemma LocatesExactly(w: World, lim: Limits, m: Murl)
    ensures var located := Locate(w, lim, m);
      located.Ok? <==>
      if m.authority.Local? then ManifestPath(m) in w.store
      else
        || FreshCopy(w, lim, m)
        || (if Fetched(w, m) then |w.remote.value(WellKnownUrl(m)).value| <= lim.maxManifestBytes
            else CachedEntry(w, Identity(m)).Some?)
    ensures m.authority.Local? && Locate(w, lim, m).Ok? ==>
      Locate(w, lim, m).value.bytes == w.store[ManifestPath(m)] && Locate(w, lim, m).value.origin.FromStore?
    ensures Locate(w, lim, m).Err? ==>
      var e := Locate(w, lim, m).error;
      if m.authority.Local? then e == NotInStore(Identity(m))
      else if Fetched(w, m) then e == ManifestTooLarge(|w.remote.value(WellKnownUrl(m)).value|)
      else if w.remote.Some? then e == FetchFailed(w.remote.value(WellKnownUrl(m)).error)
      else e == Offline(Identity(m))
  {
  }

  // The warning that an old copy stands in.
  predicate SaysOldCopy(warning: Warning, id: string) {
    (warning.StaleCache? || warning.OfflineCopy?) && warning.identity == id
  }

  // A cached copy is used silently exactly when it is fresh; a stale one stands in only when
  // there is no fetcher or the fetch failed, and then with a warning that says so.
  lemma CacheStandsIn(w: World, lim: Limits, m: Murl)
    requires !m.authority.Local? && Locate(w, lim, m).Ok?
    ensures var found := Locate(w, lim, m).value;
      var cached := CachedEntry(w, Identity(m));
      var fetched := Fetched(w, m);
      && found.origin.FromRemote?
      && (found.origin.cached ==>
            cached.Some? && found.bytes == cached.value.bytes && found.origin.url == cached.value.url)
      && (found.origin.cached <==> FreshCopy(w, lim, m) || !fetched)
      && (found.warnings == [] <==> FreshCopy(w, lim, m) || fetched)
      && (found.warnings != [] ==> SaysOldCopy(found.warnings[0], Identity(m)))
      && (!found.origin.cached ==>
            fetched && w.remote.value(WellKnownUrl(m)).value == found.bytes && |found.bytes| <= lim.maxManifestBytes)
  {
  }

  // ----- arriving at a local name -----

  // What a stored manifest without a declared id needs to be arrived at.
  ghost predicate Stored(w: World, lim: Limits, m: Murl, bytes: string, doc: Doc, order: seq<nat>) {
    && m.authority.Local? && ManifestPath(m) in w.store && w.store[ManifestPath(m)] == bytes
    && |bytes| <= lim.maxManifestBytes
    && w.decode(bytes) == Ok(doc) && doc.id.None? && ExecutionOrder(doc.resources) == Ok(order)
  }

  lemma LocalArrives(w: World, lim: Limits, st: State, m: Murl, depth: nat, anchor: Option<string>,
                     bytes: string, doc: Doc, order: seq<nat>) returns (st1: State, fr: Frame)
    requires Stored(w, lim, m, bytes, doc, order)
    requires depth <= lim.maxDepth && st.manifests + 1 <= lim.maxNestedManifests
    ensures Arrive(w, lim, st, m, depth, anchor, None) == Ok((st1, fr)) && fr.At(lim, 0)
    ensures fr == Frame(Some(m), Identity(m), doc, order, |st.nodes|, depth, anchor, ThisDevice)
    ensures |st1.nodes| == |st.nodes| + 1 && st.nodes <= st1.nodes
    ensures st1.nodes[|st.nodes|].doc == doc && st1.nodes[|st.nodes|].bytes == bytes
    ensures st1.plan == st.plan && st1.dedup == st.dedup && st1.stack == st.stack && st1.visited == st.visited
    ensures st1.manifests == st.manifests + 1 && st1.log == st.log + [m]
  {
    OrderIndices(doc.resources);
    st1 := Arrive(w, lim, st, m, depth, anchor, None).value.0;
    fr := Arrive(w, lim, st, m, depth, anchor, None).value.1;
  }

  // A round that goes into a stored manifest not met before.
  lemma LocalInto(w: World, lim: Limits, st: State, fr: Frame, r: Resource, child: Murl,
                  bytes: string, doc: Doc, order: seq<nat>, depth: nat) returns (st2: State, inner: Frame)
    requires fr.Valid(lim) && fr.source == ThisDevice && r.kind == Nested(child) && r.integrity == None
    requires Identity(child) !in st.stack && Identity(child) !in st.visited
    requires Stored(w, lim, child, bytes, doc, order)
    requires depth == fr.depth + 1 <= lim.maxDepth && st.manifests + 1 <= lim.maxNestedManifests
    ensures OneRound(w, lim, st, fr, r) == Into(st2, inner, Identity(child)) && inner.At(lim, 0)
    ensures inner == Frame(Some(child), Identity(child), doc, order, |st.nodes|, depth, Some(fr.Anchor(r)), ThisDevice)
    ensures |st2.nodes| == |st.nodes| + 1 && st.nodes <= st2.nodes
    ensures st2.nodes[|st.nodes|].doc == doc && st2.nodes[|st.nodes|].bytes == bytes
    ensures st2.plan == st.plan && st2.dedup == st.dedup && st2.visited == st.visited
    ensures st2.stack == st.stack + [Identity(child)] && st2.manifests == st.manifests + 1
    ensures st2.log == st.log + [child]
  {
    var st1 := Admit(lim, st, fr, r, child).st;
    DescendRound(w, lim, st, fr, r, st1, depth);
    st2, inner := LocalArrives(w, lim, st1, child, depth, Some(fr.Anchor(r)), bytes, doc, order);
  }

  // A round that passes over a name resolved before.
  lemma LocalSkipped(w: World, lim: Limits, st: State, fr: Frame, r: Resource, child: Murl) returns (st1: State)
    requires fr.Valid(lim) && fr.source == ThisDevice && r.kind == Nested(child) && fr.depth + 1 <= lim.maxDepth
    requires Identity(child) !in st.stack && Identity(child) in st.visited
    ensures OneRound(w, lim, st, fr, r) == Next(st1) && st1.nodes == st.nodes && st1.plan == st.plan
  {
    st1 := OneRound(w, lim, st, fr, r).st;
  }

  // A manifest that is one page.
  lemma LeafAlone(w: World, lim: Limits, st: State, fr: Frame, r: Resource) returns (st1: State)
    requires fr.At(lim, 0) && fr.order == [0] && fr.doc.resources == [r] && !r.kind.Nested?
    requires |st.plan| + 1 <= lim.maxTotalResources && KeyOf(r) !in st.dedup
    ensures Splice(w, lim, st, fr, 0) == Done(st1) && st1.nodes == st.nodes && st1.stack == st.stack
    ensures st1.visited == st.visited && st1.manifests == st.manifests && st1.plan == st.plan + [PlannedOf(fr, r)]
    ensures st1.dedup == st.dedup + {KeyOf(r)}
  {
    st1 := OneRound(w, lim, st, fr, r).st;
    assert Splice(w, lim, st1, fr, 1) == Done(st1);
  }
}
