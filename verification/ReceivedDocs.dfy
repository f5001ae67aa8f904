/**
 The documents of the examples are documents the resolver can receive: each is read
 from a manifest that the validator accepts.
 */
module ReceivedDocs {
  import opened Wrappers
  import opened Text
  import opened Grammar
  import opened MurlScheme
  import opened MurlRoundTrip
  import opened Manifest
  import opened Graph
  import opened Validation
  import BundleReadable
  import ResolverCycles
  import ResolverFamily
  import ResolverPins
  import ResolverSelection

  const URL := "https://example.org/"

  // The checks that are not modelled pass printable text, and this web page.
  ghost predicate Lenient(c: Checks) {
    (forall t: string :: AllPrintable(t) ==> c.cleanText(t)) && c.otherTarget("https", URL)
  }

  predicate PageTarget(c: Checks, t: string) {
    1 <= |t| <= MAX_TARGET_LEN && c.cleanText(t) && c.otherTarget("https", t)
  }

  // A web page or a nested name written canonically, and no more than a pin besides.
  predicate PlainResource(c: Checks, r: Resource) {
    && IsValidResourceId(r.id) && r.role == None && r.order == 0 && r.dependsOn == [] && r.tags == []
    && (r.integrity.Some? ==> ValidIntegrity(r.integrity.value))
    && ((r.kind == Https && PageTarget(c, r.target)) ||
        (r.kind.Nested? && Valid(r.kind.child) && r.target == Print(r.kind.child)))
  }

  predicate PlainDoc(c: Checks, d: Doc) {
    && 1 <= |d.resources| <= MAX_RESOURCES && d.UniqueIds()
    && (forall i :: 0 <= i < |d.resources| ==> PlainResource(c, d.resources[i]))
    && (d.id.Some? ==> Valid(d.id.value) && d.id.value == d.id.value.Bare())
    && d.notBefore == None && d.expires == None
  }

  // ----- the manifest of a plain document -----

  function RawOf(r: Resource): RawResource {
    RawResource(r.id, KindText(r.kind), r.target, r.role, r.required, r.order, r.dependsOn, r.tags, r.integrity)
  }

  function RawAll(rs: seq<Resource>): seq<RawResource> {
    seq(|rs|, i requires 0 <= i < |rs| => RawOf(rs[i]))
  }

  function ManifestText(d: Doc): RawDoc {
    RawDoc(d.name, if d.id.Some? then Some(Print(d.id.value)) else None, None, None, None, RawAll(d.resources))
  }

  lemma PrintIsPrintable(m: Murl)
    requires Valid(m)
    ensures AllPrintable(Print(m)) && 1 <= |Print(m)| <= MAX_TARGET_LEN
  {
    CanonicalSpells(m.name);
    WrittenPrintable(m, EncodeAll(m.name));
    PrintWritten(m);
    SchemePrintable(WrittenPath(m, EncodeAll(m.name)) + Decoration(m));
  }

  predicate TargetSound(c: Checks, r: RawResource) {
    && 1 <= |r.target| <= MAX_TARGET_LEN && c.cleanText(r.target)
    && KnownKind(r.kind) && ValidTarget(c, r.kind, r.target)
  }

  lemma NestedKnown(c: Checks, r: RawResource)
    requires r.kind == "murl" && Parse(r.target).Ok?
    ensures KnownKind(r.kind) && ValidTarget(c, r.kind, r.target)
  {
  }

  lemma NestedAccepted(c: Checks, r: RawResource, child: Murl)
    requires Lenient(c) && r.kind == "murl" && Valid(child) && r.target == Print(child)
    ensures TargetSound(c, r)
  {
    PrintIsPrintable(child);
    PrintParse(child);
    NestedKnown(c, r);
  }

  lemma PageAccepted(c: Checks, r: RawResource)
    requires r.kind == "https" && PageTarget(c, r.target)
    ensures TargetSound(c, r)
  {
  }

  lemma TargetAccepted(c: Checks, r: Resource)
    requires Lenient(c) && PlainResource(c, r)
    ensures TargetSound(c, RawOf(r))
  {
    if r.kind.Nested? {
      NestedAccepted(c, RawOf(r), r.kind.child);
    } else {
      PageAccepted(c, RawOf(r));
    }
  }

  lemma PageReadBack(r: Resource)
    requires r.kind == Https
    ensures TypedResource(RawOf(r)) == Some(r)
  {
    var child := Parse(r.target);
    KindRoundTrip(Https, if child.Ok? then child.value else Murl(Local, [], Latest, None, None));
  }

  lemma NestedReadBack(r: Resource)
    requires r.kind.Nested? && Valid(r.kind.child) && r.target == Print(r.kind.child)
    ensures TypedResource(RawOf(r)) == Some(r)
  {
    PrintParse(r.kind.child);
    KindRoundTrip(r.kind, r.kind.child);
  }

  lemma ReadBack(c: Checks, r: Resource)
    requires PlainResource(c, r)
    ensures TypedResource(RawOf(r)) == Some(r)
  {
    if r.kind.Nested? {
      NestedReadBack(r);
    } else {
      PageReadBack(r);
    }
  }

  lemma ResourceAccepted(c: Checks, d: Doc, i: nat)
    requires Lenient(c) && PlainDoc(c, d) && i < |d.resources|
    ensures ResourceSound(c, RawAll(d.resources), i)
  {
    TargetAccepted(c, d.resources[i]);
    var rs := RawAll(d.resources);
    forall k | 0 <= k < i ensures rs[k].id != rs[i].id {
      assert d.resources[k].id != d.resources[i].id;
    }
  }

  lemma AllReadBack(c: Checks, d: Doc)
    requires PlainDoc(c, d)
    ensures AllTyped(RawAll(d.resources)) && TypedAll(RawAll(d.resources)) == d.resources
  {
    forall i | 0 <= i < |d.resources| ensures TypedResource(RawAll(d.resources)[i]) == Some(d.resources[i]) {
      ReadBack(c, d.resources[i]);
    }
  }

  lemma PlainOrder(c: Checks, d: Doc)
    requires PlainDoc(c, d)
    ensures ExecutionOrder(d.resources).Ok?
  {
    NoEdgesStableSort(d.resources);
  }

  // The validator accepts this manifest.
  predicate Received(c: Checks, d: Doc) {
    var raw := ManifestText(d);
    Issues(c, raw) == [] && AllTyped(raw.resources) && Typed(raw, d.keyId, d.warnings) == d
  }

  lemma HeaderAccepted(c: Checks, d: Doc)
    requires PlainDoc(c, d)
    ensures HeaderIssues(ManifestText(d)) == []
  {
    if d.id.Some? {
      PrintParse(d.id.value);
    }
  }

  lemma PlainReceived(c: Checks, d: Doc)
    requires Lenient(c) && PlainDoc(c, d)
    ensures Received(c, d)
  {
    var raw := ManifestText(d);
    HeaderAccepted(c, d);
    forall i | 0 <= i < |raw.resources| ensures ResourceSound(c, raw.resources, i) {
      ResourceAccepted(c, d, i);
    }
    AllReadBack(c, d);
    PlainOrder(c, d);
    NoIssuesExactly(c, raw);
    if d.id.Some? {
      PrintParse(d.id.value);
    }
  }

  // ----- the examples -----

  lemma PageIsPlain(c: Checks, id: string)
    requires Lenient(c) && IsValidResourceId(id)
    ensures PlainResource(c, ResolverSelection.Page(id))
  {
    assert AllPrintable(URL);
  }

  lemma NestIsPlain(c: Checks, id: string, child: Murl, pin: Option<string>)
    requires IsValidResourceId(id) && Valid(child) && (pin.Some? ==> ValidIntegrity(pin.value))
    ensures PlainResource(c, ResolverPins.Nest(id, child, pin))
  {
  }

  lemma PinIsWellFormed()
    ensures ValidIntegrity(ResolverPins.Pin())
  {
    var pin := ResolverPins.Pin();
    assert pin[..7] == "sha256-";
    assert forall i :: 7 <= i < |pin| ==> pin[i] == 'A';
  }

  // Two pages with one target.
  lemma TwinsReceived(c: Checks)
    requires Lenient(c)
    ensures Received(c, ResolverSelection.TWINS)
  {
    PageIsPlain(c, "a");
    PageIsPlain(c, "b");
    PlainReceived(c, ResolverSelection.TWINS);
  }

  // A page alone.
  lemma PageReceived(c: Checks)
    requires Lenient(c)
    ensures Received(c, ResolverPins.PAGE_DOC)
  {
    PageIsPlain(c, "page");
    PlainReceived(c, ResolverPins.PAGE_DOC);
  }

  // A name nested twice, the second time with a pin.
  lemma PinnedReceived(c: Checks, child: Murl)
    requires Lenient(c) && Valid(child)
    ensures Received(c, ResolverPins.PinnedDoc(child))
  {
    PinIsWellFormed();
    NestIsPlain(c, "a", child, None);
    NestIsPlain(c, "b", child, Some(ResolverPins.Pin()));
    PlainReceived(c, ResolverPins.PinnedDoc(child));
  }

  // A manifest that nests itself.
  lemma SelfReceived(c: Checks, m: Murl)
    requires Lenient(c) && Valid(m)
    ensures Received(c, ResolverCycles.SelfDoc(m))
  {
    PlainReceived(c, ResolverCycles.SelfDoc(m));
  }

  // A root that nests up to eight names.
  lemma FamilyReceived(c: Checks, n: nat)
    requires Lenient(c) && 1 <= n <= |ResolverFamily.LETTERS|
    ensures Received(c, ResolverFamily.RootDoc(n))
  {
    ResolverFamily.RootWellFormed(n);
    forall i | 0 <= i < n ensures PlainResource(c, ResolverFamily.Kids(n)[i]) {
      assert IsLower(ResolverFamily.LETTERS[i]);
    }
    PlainReceived(c, ResolverFamily.RootDoc(n));
  }

  // A page that declares a name, or none.
  lemma ToolReceived(c: Checks, declared: Option<Murl>)
    requires Lenient(c) && (declared.Some? ==> Valid(declared.value) && declared.value == declared.value.Bare())
    ensures Received(c, BundleReadable.ToolDoc(declared))
  {
    PageIsPlain(c, "page");
    PlainReceived(c, BundleReadable.ToolDoc(declared));
  }
}
