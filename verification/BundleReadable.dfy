/**
 Which of the manifests an import installs can be opened again. The import checks less
 than a lookup does: not whether the name it makes up is still short enough to be asked
 for, not signatures, and of two versions only that both belong to one name.
 */
module BundleReadable {
  import opened Wrappers
  import opened Text
  import opened MurlScheme
  import opened MurlRoundTrip
  import opened Manifest
  import opened Graph
  import opened Store
  import opened Resolver
  import opened ResolverNodes
  import opened B = Bundle
  import ResolverSelection
  import Utf8

  predicate VersionsClash(a: Murl, b: Murl) {
    a.version.Pinned? && b.version.Pinned? && a.version != b.version
  }

  // A text that asks for this file of the local store, and under which the manifest in it opens.
  ghost predicate OpensAs(w: World, lim: Limits, path: FilePath, text: string) {
    && Parse(text).Ok? && Parse(text).value.authority.Local? && ManifestPath(Parse(text).value) == path
    && Arrived(w, lim, Parse(text).value)
  }

  predicate Arrived(w: World, lim: Limits, m: Murl) {
    Arrive(w, lim, EMPTY_STATE.(stack := [Identity(m)]), m, 0, None, None).Ok?
  }

  ghost predicate Readable(w: World, lim: Limits, path: FilePath) {
    exists text :: OpensAs(w, lim, path, text)
  }

  // The name is short enough to be asked for, the manifest decodes, its signature included, and
  // it does not declare another version.
  ghost predicate Lasting(w: World, m: Murl, raw: string) {
    && Valid(m) && w.decode(raw).Ok?
    && (w.decode(raw).value.id.Some? ==> !VersionsClash(w.decode(raw).value.id.value, m))
  }

  lemma LocatedAt(w: World, lim: Limits, m: Murl)
    requires m.authority.Local? && ManifestPath(m) in w.store
    ensures Locate(w, lim, m) == Ok(Found(w.store[ManifestPath(m)], FromStore(ManifestPath(m)), []))
  {
  }

  // Arriving at a stored name is opening what is stored.
  lemma ArrivedExactly(w: World, lim: Limits, m: Murl, raw: string)
    requires m.authority.Local? && ManifestPath(m) in w.store && w.store[ManifestPath(m)] == raw
    requires lim.maxNestedManifests >= 1 && Orderable(w)
    ensures Arrived(w, lim, m) <==>
      |raw| <= lim.maxManifestBytes && w.decode(raw).Ok? && NameBound(w.decode(raw).value, Some(m))
  {
    LocatedAt(w, lim, m);
    var st0 := EMPTY_STATE.(stack := [Identity(m)]);
    var st1 := st0.(manifests := st0.manifests + 1, log := st0.log + [m], warnings := st0.warnings + []);
    OpensExactly(w, lim, st1, Some(m), raw, FromStore(ManifestPath(m)), 0, None);
    if w.decode(raw).Ok? {
      FailsExactlyOnCycle(w.decode(raw).value.resources);
    }
  }

  // What an import makes of a name has neither selector nor query.
  lemma PlannedBare(b: Bundle, asName: Option<string>, i: nat)
    requires i < |b.entries| && NameFor(b, asName, i).Ok?
    ensures NameFor(b, asName, i).value == NameFor(b, asName, i).value.Bare()
  {
  }

  // The names that ask for the file of m.
  lemma SameFile(m: Murl, q: Murl)
    requires Storable(m) && m.authority.Local? && m == m.Bare() && Valid(q) && q.authority.Local?
    requires ManifestPath(q) == ManifestPath(m)
    ensures q.Bare() == m
  {
    PathInjective(q, m);
  }

  lemma NameBoundBare(doc: Doc, m: Murl, q: Murl)
    requires q.Bare() == m
    ensures NameBound(doc, Some(q)) <==> NameBound(doc, Some(m))
  {
  }

  // The import has compared authority and name, so what is left of the binding is the version.
  lemma PlannedBound(t: Tools, w: World, lim: Limits, b: Bundle, asName: Option<string>, i: nat)
    requires i < |b.entries| && Faithful(t, w) && PlanEntry(t, lim, b, asName, i).Ok?
    requires w.decode(PlanEntry(t, lim, b, asName, i).value.1).Ok?
    ensures var (m, raw) := PlanEntry(t, lim, b, asName, i).value;
      var id := w.decode(raw).value.id;
      NameBound(w.decode(raw).value, Some(m)) <==> (id.Some? ==> !VersionsClash(id.value, m))
  {
    var raw := PlanEntry(t, lim, b, asName, i).value.1;
    assert t.inspect(raw) == Some(w.decode(raw).value.id);
  }

  lemma PlannedParts(t: Tools, lim: Limits, b: Bundle, asName: Option<string>, i: nat)
    requires i < |b.entries| && PlanEntry(t, lim, b, asName, i).Ok?
    ensures var (m, raw) := PlanEntry(t, lim, b, asName, i).value;
      && NameFor(b, asName, i) == Ok(m) && |raw| <= lim.maxManifestBytes
      && Storable(m) && m.authority.Local? && m == m.Bare()
  {
    EntryStorable(t, lim, b, asName, i);
    PlannedBare(b, asName, i);
  }

  // A planned entry, once stored, can be opened under some name that parses exactly when it lasts.
  lemma PlannedReadable(t: Tools, w: World, lim: Limits, b: Bundle, asName: Option<string>, i: nat)
    requires i < |b.entries| && Faithful(t, w) && Orderable(w) && lim.maxNestedManifests >= 1
    requires PlanEntry(t, lim, b, asName, i).Ok?
    requires var (m, raw) := PlanEntry(t, lim, b, asName, i).value;
      ManifestPath(m) in w.store && w.store[ManifestPath(m)] == raw
    ensures var (m, raw) := PlanEntry(t, lim, b, asName, i).value;
      Readable(w, lim, ManifestPath(m)) <==> Lasting(w, m, raw)
  {
    var (m, raw) := PlanEntry(t, lim, b, asName, i).value;
    PlannedParts(t, lim, b, asName, i);
    if w.decode(raw).Ok? {
      PlannedBound(t, w, lim, b, asName, i);
    }
    if Lasting(w, m, raw) {
      ArrivedExactly(w, lim, m, raw);
      PrintParse(m);
      assert OpensAs(w, lim, ManifestPath(m), Print(m));
    }
    if Readable(w, lim, ManifestPath(m)) {
      var text :| OpensAs(w, lim, ManifestPath(m), text);
      ReadableLasts(w, lim, m, raw, text);
    }
  }

  lemma ReadableLasts(w: World, lim: Limits, m: Murl, raw: string, text: string)
    requires Storable(m) && m.authority.Local? && m == m.Bare()
    requires ManifestPath(m) in w.store && w.store[ManifestPath(m)] == raw
    requires lim.maxNestedManifests >= 1 && Orderable(w) && OpensAs(w, lim, ManifestPath(m), text)
    ensures Valid(m) && w.decode(raw).Ok? && NameBound(w.decode(raw).value, Some(m))
  {
    var q := Parse(text).value;
    ParseSound(text);
    SameFile(m, q);
    BareValid(q);
    ArrivedExactly(w, lim, q, raw);
    NameBoundBare(w.decode(raw).value, m, q);
  }

  // After an import, what it installed for an entry can be opened exactly when it lasts.
  lemma ImportedReadable(t: Tools, w: World, lim: Limits, files: map<FilePath, string>, size: nat, b: Bundle,
                         asName: Option<string>, force: bool, k: nat)
    requires Faithful(t, w) && Orderable(w) && lim.maxNestedManifests >= 1 && k < |b.entries|
    requires PlanImport(t, lim, files, size, b, asName, force).Ok?
    requires w.store == Installed(files, PlanImport(t, lim, files, size, b, asName, force).value)
    ensures var plan := PlanImport(t, lim, files, size, b, asName, force).value;
      k < |plan| && (Readable(w, lim, ManifestPath(plan[k].0)) <==> Lasting(w, plan[k].0, plan[k].1))
  {
    var plan := PlanImport(t, lim, files, size, b, asName, force).value;
    ImportInstalls(t, lim, files, size, b, asName, force);
    ImportKeepsBytes(t, lim, files, size, b, asName, force, k);
    assert Holds(w.store, plan[k].0, plan[k].1);
    PlannedReadable(t, w, lim, b, asName, k);
  }

  // ----- installs no lookup can read -----

  const TOOL_BYTES := "tool"

  function ToolDoc(declared: Option<Murl>): Doc {
    Doc("tool", declared, [ResolverSelection.Page("page")], None, None, None, [])
  }

  // A machine on which the tool's bytes decode to this, or do not.
  function ToolWorld(answer: Result<Doc, string>, files: map<FilePath, string>): World {
    World(files, None, None, (b: string) => if b == TOOL_BYTES then answer else Err("not JSON"),
          (b: string, pin: string) => false, (authority: string, key: string) => false, 0)
  }

  lemma ToolOrderable(answer: Result<Doc, string>, files: map<FilePath, string>)
    requires answer.Ok? ==> answer.value.resources == [ResolverSelection.Page("page")]
    ensures Orderable(ToolWorld(answer, files))
  {
    NoEdgesStableSort([ResolverSelection.Page("page")]);
  }

  // The manifest exported under a name.
  function ToolBundle(t: Tools, exported: Murl): Bundle {
    var id := Some(Identity(exported));
    Bundle(BUNDLE_VERSION, id, [Entry(id, "tool", t.digest(TOOL_BYTES), t.encode(TOOL_BYTES))])
  }

  // Tools that read the bytes as a valid manifest that declares this.
  ghost predicate Reads(t: Tools, declared: Option<Murl>) {
    && t.decode(t.encode(TOOL_BYTES)) == Some(TOOL_BYTES) && t.intact(TOOL_BYTES, t.digest(TOOL_BYTES))
    && t.inspect(TOOL_BYTES) == Some(declared)
  }

  lemma ReadingTools(declared: Option<Murl>, files: map<FilePath, string>) returns (t: Tools)
    ensures Faithful(t, ToolWorld(Ok(ToolDoc(declared)), files)) && Reads(t, declared)
  {
    var w := ToolWorld(Ok(ToolDoc(declared)), files);
    t := FaithfulToolsExist(w);
    assert w.decode(TOOL_BYTES).Ok?;
  }

  lemma ToolAccepted(t: Tools, lim: Limits, exported: Murl, declared: Option<Murl>, size: nat)
    requires Valid(exported) && Reads(t, declared)
    requires lim.maxManifestBytes >= |TOOL_BYTES| && size <= Cap(lim)
    ensures CheckBundle(t, lim, size, ToolBundle(t, exported)) == None
  {
    var b := ToolBundle(t, exported);
    IdentityFixpoint(exported);
    assert EntrySound(t, lim, b.entries[0]);
    AcceptedExactly(t, lim, size, b);
  }

  lemma OnePlanned(t: Tools, lim: Limits, b: Bundle, asName: Option<string>, x: Install)
    requires |b.entries| == 1 && PlanEntry(t, lim, b, asName, 0) == Ok(x)
    ensures PlanFrom(t, lim, b, asName, 0, []) == Ok([x])
  {
    assert PlanFrom(t, lim, b, asName, 1, [x]) == Ok([x]);
    assert [] + [x] == [x];
  }

  // Installing the tool into an empty store, under the name the import makes of it.
  lemma ToolInstalled(t: Tools, lim: Limits, exported: Murl, declared: Option<Murl>, asName: Option<string>,
                      m: Murl, size: nat)
    requires Valid(exported) && Reads(t, declared) && lim.maxManifestBytes >= |TOOL_BYTES| && size <= Cap(lim)
    requires NameFor(ToolBundle(t, exported), asName, 0) == Ok(m)
    requires declared.Some? ==> declared.value.authority == m.authority && declared.value.name == m.name
    ensures PlanImport(t, lim, map[], size, ToolBundle(t, exported), asName, false) == Ok([(m, TOOL_BYTES)])
  {
    var b := ToolBundle(t, exported);
    ToolAccepted(t, lim, exported, declared, size);
    assert PlanEntry(t, lim, b, asName, 0) == Ok((m, TOOL_BYTES));
    OnePlanned(t, lim, b, asName, (m, TOOL_BYTES));
  }

  // What that leaves on a machine that decodes the tool to this.
  function After(answer: Result<Doc, string>, m: Murl): World {
    ToolWorld(answer, Installed(map[], [(m, TOOL_BYTES)]))
  }

  lemma ToolUnreadable(t: Tools, lim: Limits, exported: Murl, asName: Option<string>, m: Murl, size: nat,
                       answer: Result<Doc, string>)
    requires lim.maxNestedManifests >= 1 && Faithful(t, After(answer, m))
    requires answer.Ok? ==> answer.value.resources == [ResolverSelection.Page("page")]
    requires PlanImport(t, lim, map[], size, ToolBundle(t, exported), asName, false) == Ok([(m, TOOL_BYTES)])
    requires !Lasting(After(answer, m), m, TOOL_BYTES)
    ensures !Readable(After(answer, m), lim, ManifestPath(m))
  {
    ToolOrderable(answer, Installed(map[], [(m, TOOL_BYTES)]));
    ImportedReadable(t, After(answer, m), lim, map[], size, ToolBundle(t, exported), asName, false, 0);
  }

  predicate Fit(lim: Limits, size: nat) {
    lim.maxNestedManifests >= 1 && lim.maxManifestBytes >= |TOOL_BYTES| && size <= Cap(lim)
  }

  // Two versions of one local name.
  predicate OtherVersion(a: Murl, b: Murl) {
    && Valid(a) && Valid(b) && a.authority.Local? && b.authority.Local? && a.name == b.name
    && a == a.Bare() && b == b.Bare() && VersionsClash(a, b)
  }

  lemma LocalNameOf(m: Murl)
    requires Valid(m) && m.authority.Local? && m == m.Bare()
    ensures LocalName(Print(m)) == Ok(m)
  {
    PrintParse(m);
    PrintHead(m);
    assert Lowercase("murl:") == "murl:";
  }

  lemma PrintHead(m: Murl)
    ensures |Print(m)| >= 5 && Print(m)[..5] == "murl:"
  {
    var rest := WrittenPath(m, EncodeAll(m.name)) + Decoration(m);
    PrintWritten(m);
    assert (SCHEME + rest)[..5] == "murl:";
  }

  // A manifest that declares one version, installed under another when the import is told to rename it.
  lemma RenamedUnreadable(lim: Limits, declared: Murl, m: Murl, size: nat) returns (t: Tools)
    requires OtherVersion(declared, m) && Fit(lim, size)
    ensures Faithful(t, After(Ok(ToolDoc(Some(declared))), m))
    ensures PlanImport(t, lim, map[], size, ToolBundle(t, declared), Some(Print(m)), false) == Ok([(m, TOOL_BYTES)])
    ensures !Readable(After(Ok(ToolDoc(Some(declared))), m), lim, ManifestPath(m))
  {
    t := ReadingTools(Some(declared), Installed(map[], [(m, TOOL_BYTES)]));
    LocalNameOf(m);
    ToolInstalled(t, lim, declared, Some(declared), Some(Print(m)), m, size);
    ToolUnreadable(t, lim, declared, Some(Print(m)), m, size, Ok(ToolDoc(Some(declared))));
  }

  lemma KeptName(t: Tools, m: Murl)
    requires Valid(m)
    ensures NameFor(ToolBundle(t, m), None, 0) == Ok(Rehome(m))
  {
    IdentityFixpoint(m);
  }

  // A local manifest that validates and whose signature does not verify.
  lemma UnverifiedUnreadable(lim: Limits, m: Murl, size: nat, reason: string) returns (t: Tools)
    requires Valid(m) && m.authority.Local? && m == m.Bare() && Fit(lim, size)
    ensures Faithful(t, After(Err(reason), m)) && Reads(t, None)
    ensures PlanImport(t, lim, map[], size, ToolBundle(t, m), None, false) == Ok([(m, TOOL_BYTES)])
    ensures !Readable(After(Err(reason), m), lim, ManifestPath(m))
  {
    t := ReadingTools(None, map[]);
    KeptName(t, m);
    ToolInstalled(t, lim, m, None, None, m, size);
    ToolUnreadable(t, lim, m, None, m, size, Err(reason));
  }

  // ----- a name too long to come home -----

  function Bangs(n: nat): string {
    seq(n, i => '!')
  }

  // Its canonical text has as many bytes as a mURL may; that of the local name has four more.
  const FAR := Murl(Remote("a", None), seq(8, i => Bangs(42)), Latest, None, None)

  lemma {:induction false} BangsWritten(n: nat)
    ensures |EncodeSegment(Bangs(n))| == 3 * n && Utf8.Encode(Bangs(n)) == Bangs(n)
  {
    if n > 0 {
      BangsWritten(n - 1);
      assert Bangs(n)[1..] == Bangs(n - 1) && Bangs(n) == ['!'] + Bangs(n - 1);
      assert Utf8.EncodeChar('!') == ['!'];
    }
  }

  lemma BangsValid(n: nat)
    requires 1 <= n <= MAX_SEGMENT_BYTES
    ensures ValidSegment(Bangs(n))
  {
    BangsWritten(n);
    Utf8.DecodeEncode(Bangs(n));
    assert PlainText(Bangs(n)) && Bangs(n)[0] == '!';
  }

  lemma FarPath()
    ensures |Join(EncodeAll(FAR.name), '/')| == 1015 && ValidName(FAR.name)
  {
    BangsWritten(42);
    BangsValid(42);
    JoinLength(EncodeAll(FAR.name), '/', 126);
  }

  lemma FarHost()
    ensures ValidHost("a")
  {
    assert SplitOnce("a", '.') == None;
    assert Split("a", '.') == ["a"];
  }

  lemma FarValid()
    ensures Valid(FAR) && |Print(FAR)| == 1024 && |Print(Rehome(FAR))| == 1028
  {
    FarPath();
    FarHost();
    assert Decoration(FAR) == "" && Decoration(Rehome(FAR)) == "";
  }

  // A manifest of another authority, re-homed under a local name that no mURL can spell.
  lemma RehomedUnreadable(lim: Limits, size: nat) returns (t: Tools)
    requires Fit(lim, size)
    ensures Faithful(t, After(Ok(ToolDoc(None)), Rehome(FAR))) && Valid(FAR)
    ensures PlanImport(t, lim, map[], size, ToolBundle(t, FAR), None, false) == Ok([(Rehome(FAR), TOOL_BYTES)])
    ensures !Readable(After(Ok(ToolDoc(None)), Rehome(FAR)), lim, ManifestPath(Rehome(FAR)))
  {
    FarValid();
    t := ReadingTools(None, Installed(map[], [(Rehome(FAR), TOOL_BYTES)]));
    KeptName(t, FAR);
    ToolInstalled(t, lim, FAR, None, None, Rehome(FAR), size);
    ToolUnreadable(t, lim, FAR, None, Rehome(FAR), size, Ok(ToolDoc(None)));
  }
}
