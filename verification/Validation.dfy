/**
 Manifest validation: the findings it reports, and what a manifest without
 findings is. Such a manifest is what the resolver relies on, and nothing the
 resolver parses again in it can fail.
 */
module Validation {
  import opened Wrappers
  import opened Text
  import opened Grammar
  import opened MurlScheme
  import opened MurlRoundTrip
  import opened Manifest
  import opened Graph
  import Paths
  import Resolver
  import Timestamps

  const MAX_RESOURCES := 64
  const MAX_TARGET_LEN := 2048
  const MAX_ORDER := 10000
  const MAX_TAGS := 16
  const MAX_DEPENDS := 16
  const MAX_CUSTOM_NAME := 32

  // A manifest as its JSON has it.
  datatype RawResource = RawResource(
    id: string,
    kind: string,
    target: string,
    role: Option<string>,
    required: bool,
    order: int,
    dependsOn: seq<string>,
    tags: seq<string>,
    integrity: Option<string>)

  datatype RawDoc = RawDoc(
    name: string,
    id: Option<string>,
    version: Option<string>,
    notBefore: Option<string>,
    expires: Option<string>,
    resources: seq<RawResource>)

  // Checks that are not part of this model: control characters, and the targets of
  // the kinds that are neither paths nor mURLs.
  datatype Checks = Checks(cleanText: string -> bool, otherTarget: (string, string) -> bool)

  datatype Issue =
    | NoResources
    | TooManyResources
    | BadId(i: nat)
    | DuplicateId(i: nat)
    | BadKind(i: nat)
    | BadTarget(i: nat)
    | BadRole(i: nat)
    | BadOrder(i: nat)
    | TooManyTags(i: nat)
    | BadTag(i: nat)
    | TooManyDepends(i: nat)
    | SelfDependency(i: nat)
    | UnknownDependency(i: nat)
    | BadIntegrity(i: nat)
    | CyclicDependencies
    | BadManifestId
    | DecoratedManifestId
    | BadContentVersion
    | LatestContentVersion
    | BadExpires
    | BadNotBefore
    | EmptyWindow

  // ----- kinds -----

  const CUSTOM := "custom:"

  predicate ValidCustomName(name: string) {
    && 1 <= |name| <= MAX_CUSTOM_NAME && IsLowerAlnum(name[0])
    && forall i :: 0 <= i < |name| ==> IsLowerAlnum(name[i]) || name[i] == '-' || name[i] == '_'
  }

  // `Kind::parse`; a nested kind takes its mURL along.
  function ParseKind(s: string, child: Murl): Option<Kind> {
    if s == "https" then Some(Https)
    else if s == "file" then Some(File)
    else if s == "dir" then Some(Dir)
    else if s == "murl" then Some(Nested(child))
    else if s == "terminal" then Some(Terminal)
    else if s == "ssh" then Some(Ssh)
    else if s == "remote-desktop" then Some(RemoteDesktop)
    else if s == "geo" then Some(Geo)
    else if s == "mailto" then Some(Mailto)
    else if StartsWith(s, CUSTOM) && ValidCustomName(s[|CUSTOM|..]) then Some(Custom(s[|CUSTOM|..]))
    else None
  }

  function KindText(k: Kind): string {
    match k
    case Https => "https"
    case File => "file"
    case Dir => "dir"
    case Nested(_) => "murl"
    case Terminal => "terminal"
    case Ssh => "ssh"
    case RemoteDesktop => "remote-desktop"
    case Geo => "geo"
    case Mailto => "mailto"
    case Custom(name) => CUSTOM + name
  }

  lemma CustomApart(name: string)
    ensures StartsWith(CUSTOM + name, CUSTOM) && (CUSTOM + name)[|CUSTOM|..] == name
    ensures KindText(Custom(name)) !in
      {"https", "file", "dir", "murl", "terminal", "ssh", "remote-desktop", "geo", "mailto"}
  {
    var s := CUSTOM + name;
    assert s[..|CUSTOM|] == CUSTOM;
    assert s[0] == 'c';
  }

  // Parsing a kind's text gives the kind back, and a parsed kind has the text it was parsed from.
  lemma KindRoundTrip(k: Kind, child: Murl)
    requires k.Custom? ==> ValidCustomName(k.name)
    requires k.Nested? ==> k.child == child
    ensures ParseKind(KindText(k), child) == Some(k)
  {
    if k.Custom? {
      CustomApart(k.name);
    }
  }

  lemma ParsedKindText(s: string, child: Murl)
    requires ParseKind(s, child).Some?
    ensures KindText(ParseKind(s, child).value) == s
    ensures var k := ParseKind(s, child).value;
      && (k.IsFilesystem() <==> s in {"file", "dir", "terminal"})
      && (k.Nested? <==> s == "murl") && (k.Custom? <==> StartsWith(s, "custom:"))
      && (k.Https? || k.Geo? || k.Mailto? <==> s in {"https", "geo", "mailto"})
  {
    if StartsWith(s, CUSTOM) {
      assert s == CUSTOM + s[|CUSTOM|..];
    }
  }

  // So kinds that are not containers are told apart by their texts, as duplicate suppression does.
  lemma KindTextInjective(a: Kind, b: Kind)
    requires !a.Nested? && !b.Nested?
    ensures KindText(a) == KindText(b) <==> a == b
  {
    if a.Custom? {
      CustomApart(a.name);
    }
    if b.Custom? {
      CustomApart(b.name);
    }
  }

  // ----- findings -----

  predicate KnownKind(s: string) {
    ParseKind(s, Murl(Local, [], Latest, None, None)).Some?
  }

  predicate ValidTarget(c: Checks, kind: string, target: string) {
    if kind == "murl" then Parse(target).Ok?
    else if kind in {"file", "dir", "terminal"} then Paths.ValidatePath(target).None?
    else c.otherTarget(kind, target)
  }

  predicate ValidIntegrity(s: string) {
    && StartsWith(s, "sha256-") && |s| == 51
    && forall i :: 7 <= i < |s| ==> IsAlnum(s[i]) || s[i] == '+' || s[i] == '/' || s[i] == '='
  }

  function When(found: bool, issue: Issue): seq<Issue> {
    if found then [issue] else []
  }

  predicate HasId(rs: seq<RawResource>, id: string, n: nat)
    requires n <= |rs|
  {
    exists k :: 0 <= k < n && rs[k].id == id
  }

  function TargetIssues(c: Checks, r: RawResource, i: nat): seq<Issue> {
    if r.target == "" || |r.target| > MAX_TARGET_LEN || !c.cleanText(r.target) then [BadTarget(i)]
    else When(KnownKind(r.kind) && !ValidTarget(c, r.kind, r.target), BadTarget(i))
  }

  function TagIssues(tags: seq<string>, i: nat): seq<Issue> {
    if tags == [] then [] else TagIssues(tags[..|tags| - 1], i) + When(!IsValidTag(tags[|tags| - 1]), BadTag(i))
  }

  function DependIssues(rs: seq<RawResource>, id: string, names: seq<string>, i: nat): seq<Issue> {
    if names == [] then []
    else
      var name := names[|names| - 1];
      DependIssues(rs, id, names[..|names| - 1], i) +
      if name == id then [SelfDependency(i)] else When(!HasId(rs, name, |rs|), UnknownDependency(i))
  }

  function ResourceIssues(c: Checks, rs: seq<RawResource>, i: nat): seq<Issue>
    requires i < |rs|
  {
    var r := rs[i];
    When(!IsValidResourceId(r.id), BadId(i)) +
    When(HasId(rs, r.id, i), DuplicateId(i)) +
    When(!KnownKind(r.kind), BadKind(i)) +
    TargetIssues(c, r, i) +
    When(r.role.Some? && !IsValidRole(r.role.value), BadRole(i)) +
    When(!(0 <= r.order <= MAX_ORDER), BadOrder(i)) +
    When(|r.tags| > MAX_TAGS, TooManyTags(i)) +
    TagIssues(r.tags, i) +
    When(|r.dependsOn| > MAX_DEPENDS, TooManyDepends(i)) +
    DependIssues(rs, r.id, r.dependsOn, i) +
    When(r.integrity.Some? && !ValidIntegrity(r.integrity.value), BadIntegrity(i))
  }

  function Flatten(parts: seq<seq<Issue>>): seq<Issue> {
    if parts == [] then [] else Flatten(parts[..|parts| - 1]) + parts[|parts| - 1]
  }

  function PartsBelow(c: Checks, rs: seq<RawResource>, n: nat): seq<seq<Issue>>
    requires n <= |rs|
  {
    seq(n, i requires 0 <= i < n => ResourceIssues(c, rs, i))
  }

  // Findings of the first n resources.
  function ResourcesIssues(c: Checks, rs: seq<RawResource>, n: nat): seq<Issue>
    requires n <= |rs|
  {
    Flatten(PartsBelow(c, rs, n))
  }

  lemma PartsMore(c: Checks, rs: seq<RawResource>, n: nat)
    requires n < |rs|
    ensures ResourcesIssues(c, rs, n + 1) == ResourcesIssues(c, rs, n) + ResourceIssues(c, rs, n)
  {
    assert PartsBelow(c, rs, n + 1)[..n] == PartsBelow(c, rs, n);
  }

  // ----- the typed document -----

  // A resource as it is dispatched; a target that is no mURL gives a nested kind no child.
  function TypedResource(r: RawResource): Option<Resource> {
    var child := Parse(r.target);
    var kind := ParseKind(r.kind, if child.Ok? then child.value else Murl(Local, [], Latest, None, None));
    if kind.None? || (kind.value.Nested? && child.Err?) then None
    else Some(Resource(r.id, kind.value, r.target, r.role, r.required, r.order, r.dependsOn, r.tags, r.integrity))
  }

  predicate AllTyped(rs: seq<RawResource>) {
    forall i :: 0 <= i < |rs| ==> TypedResource(rs[i]).Some?
  }

  function TypedAll(rs: seq<RawResource>): (out: seq<Resource>)
    requires AllTyped(rs)
    ensures |out| == |rs|
  {
    seq(|rs|, i requires 0 <= i < |rs| => TypedResource(rs[i]).value)
  }

  // Findings about the manifest itself, before its resources.
  function HeaderIssues(d: RawDoc): seq<Issue> {
    (if d.id.None? then []
     else
       match Parse(d.id.value)
       case Err(_) => [BadManifestId]
       case Ok(m) => When(m.selector.Some? || m.query.Some?, DecoratedManifestId)) +
    (if d.version.None? then []
     else
       match ParseVersion(d.version.value)
       case Err(_) => [BadContentVersion]
       case Ok(v) => When(v.Latest?, LatestContentVersion)) +
    When(d.expires.Some? && Timestamps.ParseTime(d.expires.value).Err?, BadExpires) +
    When(d.notBefore.Some? && Timestamps.ParseTime(d.notBefore.value).Err?, BadNotBefore) +
    When(Timestamps.RustWindowRefused(d.notBefore, d.expires), EmptyWindow)
  }

  // The dependency order is only asked for once nothing else was found.
  function OrderIssues(found: seq<Issue>, rs: seq<RawResource>): seq<Issue> {
    if found == [] && AllTyped(rs) && ExecutionOrder(TypedAll(rs)).Err? then [CyclicDependencies] else []
  }

  function Issues(c: Checks, d: RawDoc): seq<Issue> {
    var found := HeaderIssues(d);
    if d.resources == [] then found + [NoResources]
    else
      var more := found + When(|d.resources| > MAX_RESOURCES, TooManyResources)
                  + ResourcesIssues(c, d.resources, |d.resources|);
      more + OrderIssues(more, d.resources)
  }

  function TypedTime(t: Option<string>): Option<nat> {
    if t.Some? && Timestamps.ParseTime(t.value).Ok? then Some(Timestamps.ParseTime(t.value).value) else None
  }

  // The document the resolver works on; signature and warnings come from elsewhere.
  function Typed(d: RawDoc, keyId: Option<string>, warnings: seq<string>): Doc
    requires AllTyped(d.resources)
  {
    Doc(d.name, if d.id.Some? && Parse(d.id.value).Ok? then Some(Parse(d.id.value).value) else None,
        TypedAll(d.resources), keyId, TypedTime(d.notBefore), TypedTime(d.expires), warnings)
  }

  // ----- the loops -----

  method CheckTags(tags: seq<string>, i: nat) returns (out: seq<Issue>)
    ensures out == TagIssues(tags, i)
  {
    out := [];
    for k := 0 to |tags|
      invariant out == TagIssues(tags[..k], i)
    {
      assert tags[..k + 1][..k] == tags[..k];
      if !IsValidTag(tags[k]) {
        out := out + [BadTag(i)];
      }
    }
    assert tags[..|tags|] == tags;
  }

  method CheckDepends(rs: seq<RawResource>, id: string, names: seq<string>, i: nat) returns (out: seq<Issue>)
    ensures out == DependIssues(rs, id, names, i)
  {
    out := [];
    for k := 0 to |names|
      invariant out == DependIssues(rs, id, names[..k], i)
    {
      assert names[..k + 1][..k] == names[..k];
      if names[k] == id {
        out := out + [SelfDependency(i)];
      } else if !HasId(rs, names[k], |rs|) {
        out := out + [UnknownDependency(i)];
      }
    }
    assert names[..|names|] == names;
  }

  method CheckResource(c: Checks, rs: seq<RawResource>, i: nat, seen: set<string>) returns (found: seq<Issue>)
    requires i < |rs| && (rs[i].id in seen <==> HasId(rs, rs[i].id, i))
    ensures found == ResourceIssues(c, rs, i)
  {
    var r := rs[i];
    var tags := CheckTags(r.tags, i);
    var depends := CheckDepends(rs, r.id, r.dependsOn, i);
    found :=
      When(!IsValidResourceId(r.id), BadId(i)) +
      When(r.id in seen, DuplicateId(i)) +
      When(!KnownKind(r.kind), BadKind(i)) +
      TargetIssues(c, r, i) +
      When(r.role.Some? && !IsValidRole(r.role.value), BadRole(i)) +
      When(!(0 <= r.order <= MAX_ORDER), BadOrder(i)) +
      When(|r.tags| > MAX_TAGS, TooManyTags(i)) +
      tags +
      When(|r.dependsOn| > MAX_DEPENDS, TooManyDepends(i)) +
      depends +
      When(r.integrity.Some? && !ValidIntegrity(r.integrity.value), BadIntegrity(i));
  }

  // `validate_resources`, with its set of ids seen so far.
  method ValidateResources(c: Checks, rs: seq<RawResource>) returns (out: seq<Issue>)
    ensures out == ResourcesIssues(c, rs, |rs|)
  {
    out := [];
    var seen: set<string> := {};
    for i := 0 to |rs|
      invariant out == ResourcesIssues(c, rs, i)
      invariant forall id :: id in seen <==> HasId(rs, id, i)
    {
      var found := CheckResource(c, rs, i, seen);
      PartsMore(c, rs, i);
      out := out + found;
      HasIdMore(rs, i);
      seen := seen + {rs[i].id};
    }
  }

  lemma HasIdMore(rs: seq<RawResource>, i: nat)
    requires i < |rs|
    ensures forall id :: HasId(rs, id, i + 1) <==> HasId(rs, id, i) || id == rs[i].id
  {
    forall id ensures HasId(rs, id, i + 1) <==> HasId(rs, id, i) || id == rs[i].id {
      if k :| 0 <= k < i && rs[k].id == id {
        assert rs[k].id == id && k < i + 1;
      }
    }
  }

  // ----- what no findings mean -----

  // One resource without findings.
  predicate ResourceSound(c: Checks, rs: seq<RawResource>, i: nat)
    requires i < |rs|
  {
    var r := rs[i];
    && IsValidResourceId(r.id) && !HasId(rs, r.id, i) && KnownKind(r.kind)
    && 1 <= |r.target| <= MAX_TARGET_LEN && c.cleanText(r.target) && ValidTarget(c, r.kind, r.target)
    && (r.role.Some? ==> IsValidRole(r.role.value)) && 0 <= r.order <= MAX_ORDER
    && |r.tags| <= MAX_TAGS && (forall k :: 0 <= k < |r.tags| ==> IsValidTag(r.tags[k]))
    && |r.dependsOn| <= MAX_DEPENDS
    && (forall k :: 0 <= k < |r.dependsOn| ==> r.dependsOn[k] != r.id && HasId(rs, r.dependsOn[k], |rs|))
    && (r.integrity.Some? ==> ValidIntegrity(r.integrity.value))
  }

  lemma {:induction false} NoTagIssues(tags: seq<string>, i: nat)
    ensures TagIssues(tags, i) == [] <==> forall k :: 0 <= k < |tags| ==> IsValidTag(tags[k])
  {
    if tags != [] {
      NoTagIssues(tags[..|tags| - 1], i);
    }
  }

  lemma {:induction false} NoDependIssues(rs: seq<RawResource>, id: string, names: seq<string>, i: nat)
    ensures DependIssues(rs, id, names, i) == [] <==>
      forall k :: 0 <= k < |names| ==> names[k] != id && HasId(rs, names[k], |rs|)
  {
    if names != [] {
      NoDependIssues(rs, id, names[..|names| - 1], i);
    }
  }

  lemma NoResourceIssues(c: Checks, rs: seq<RawResource>, i: nat)
    requires i < |rs|
    ensures ResourceIssues(c, rs, i) == [] <==> ResourceSound(c, rs, i)
  {
    NoTagIssues(rs[i].tags, i);
    NoDependIssues(rs, rs[i].id, rs[i].dependsOn, i);
  }

  lemma {:induction false} FlattenEmpty(parts: seq<seq<Issue>>)
    ensures Flatten(parts) == [] <==> forall i :: 0 <= i < |parts| ==> parts[i] == []
  {
    if parts != [] {
      FlattenEmpty(parts[..|parts| - 1]);
    }
  }

  predicate SoundBelow(c: Checks, rs: seq<RawResource>, n: nat)
    requires n <= |rs|
  {
    forall i :: 0 <= i < n ==> ResourceSound(c, rs, i)
  }

  lemma NoIssuesBelow(c: Checks, rs: seq<RawResource>, n: nat)
    requires n <= |rs|
    ensures ResourcesIssues(c, rs, n) == [] <==> SoundBelow(c, rs, n)
  {
    var parts := PartsBelow(c, rs, n);
    FlattenEmpty(parts);
    forall i | 0 <= i < n ensures parts[i] == [] <==> ResourceSound(c, rs, i) {
      NoResourceIssues(c, rs, i);
    }
  }

  // Which kind a text stands for does not depend on the mURL taken along.
  lemma KindShape(s: string, a: Murl, b: Murl)
    requires ParseKind(s, a).Some?
    ensures ParseKind(s, b).Some?
    ensures ParseKind(s, b).value.Nested? <==> s == "murl"
    ensures s == "murl" ==> ParseKind(s, b).value.child == b
    ensures ParseKind(s, b).value.IsFilesystem() <==> s in {"file", "dir", "terminal"}
  {
  }

  lemma SoundIsTyped(c: Checks, r: RawResource)
    requires KnownKind(r.kind) && ValidTarget(c, r.kind, r.target)
    ensures TypedResource(r).Some?
    ensures TypedResource(r).value.kind.Nested? ==> Valid(TypedResource(r).value.kind.child)
    ensures TypedResource(r).value.kind.IsFilesystem() ==> Paths.ValidatePath(r.target).None?
  {
    var none := Murl(Local, [], Latest, None, None);
    var child := if Parse(r.target).Ok? then Parse(r.target).value else none;
    KindShape(r.kind, none, child);
    if Parse(r.target).Ok? {
      ParseSound(r.target);
    }
  }

  lemma AllSoundTyped(c: Checks, rs: seq<RawResource>)
    requires SoundBelow(c, rs, |rs|)
    ensures AllTyped(rs)
  {
    forall i | 0 <= i < |rs| ensures TypedResource(rs[i]).Some? {
      assert ResourceSound(c, rs, i);
      SoundIsTyped(c, rs[i]);
    }
  }

  // A manifest is without findings exactly when its header is, it has 1 to 64 resources, each
  // sound, and their dependencies can be ordered.
  lemma NoIssuesExactly(c: Checks, d: RawDoc)
    ensures Issues(c, d) == [] <==>
      && HeaderIssues(d) == [] && 1 <= |d.resources| <= MAX_RESOURCES
      && SoundBelow(c, d.resources, |d.resources|)
      && AllTyped(d.resources) && ExecutionOrder(TypedAll(d.resources)).Ok?
  {
    var rs := d.resources;
    NoIssuesBelow(c, rs, |rs|);
    if SoundBelow(c, rs, |rs|) {
      AllSoundTyped(c, rs);
    }
  }

  // `validate`: the header, the resources, and their order once nothing else was found.
  method Validate(c: Checks, d: RawDoc) returns (report: seq<Issue>)
    ensures report == Issues(c, d)
  {
    report := HeaderIssues(d);
    if d.resources == [] {
      return report + [NoResources];
    }
    var found := ValidateResources(c, d.resources);
    report := report + When(|d.resources| > MAX_RESOURCES, TooManyResources) + found;
    if report == [] {
      NoIssuesBelow(c, d.resources, |d.resources|);
      AllSoundTyped(c, d.resources);
      var order := ComputeOrder(TypedAll(d.resources));
      if order.Err? {
        return [CyclicDependencies];
      }
    }
  }

  // What the resolver relies on and parses again: unique ids, a bare declared id, valid nested
  // mURLs, a dispatch order, and a window that is not empty.
  lemma ValidatedIsWellFormed(c: Checks, d: RawDoc, keyId: Option<string>, warnings: seq<string>)
    requires Issues(c, d) == []
    ensures AllTyped(d.resources)
    ensures var doc := Typed(d, keyId, warnings);
      && doc.WellFormed() && ExecutionOrder(doc.resources).Ok?
      && (d.id.Some? ==> doc.id.Some? && doc.id.value == doc.id.value.Bare())
      && (d.expires.Some? ==> doc.expires.Some?) && (d.notBefore.Some? ==> doc.notBefore.Some?)
      && (doc.notBefore.Some? && doc.expires.Some? ==> doc.notBefore.value < doc.expires.value)
  {
    NoIssuesExactly(c, d);
    var doc := Typed(d, keyId, warnings);
    if d.id.Some? {
      ParseSound(d.id.value);
    }
    forall i | 0 <= i < |doc.resources| && doc.resources[i].kind.Nested? ensures Valid(doc.resources[i].kind.child) {
      assert ResourceSound(c, d.resources, i);
      SoundIsTyped(c, d.resources[i]);
    }
    TypedDistinct(c, d.resources);
  }

  lemma TypedDistinct(c: Checks, rs: seq<RawResource>)
    requires AllTyped(rs) && SoundBelow(c, rs, |rs|)
    ensures DistinctIds(TypedAll(rs))
  {
    forall i, j | 0 <= i < j < |rs| ensures rs[i].id != rs[j].id {
      assert ResourceSound(c, rs, j);
      assert !HasId(rs, rs[j].id, j);
    }
  }

  // A world whose decoder returns only validated documents is one the resolver can rely on.
  lemma ValidatedWorldIsSound(c: Checks, w: Resolver.World, raw: string -> RawDoc, keyId: string -> Option<string>,
                              warnings: string -> seq<string>)
    requires forall b: string :: w.decode(b).Ok? ==>
      Issues(c, raw(b)) == [] && AllTyped(raw(b).resources)
      && w.decode(b).value == Typed(raw(b), keyId(b), warnings(b))
    ensures Resolver.Sound(w) && Resolver.Orderable(w)
  {
    forall b: string | w.decode(b).Ok?
      ensures w.decode(b).value.WellFormed() && ExecutionOrder(w.decode(b).value.resources).Ok?
    {
      ValidatedIsWellFormed(c, raw(b), keyId(b), warnings(b));
    }
  }

  // Every `~` path of a validated manifest expands under the home directory.
  lemma ValidatedPathsExpand(c: Checks, rs: seq<RawResource>, i: nat, home: string)
    requires i < |rs| && ResourceSound(c, rs, i) && StartsWith(rs[i].target, "~")
    requires rs[i].kind in {"file", "dir", "terminal"}
    ensures exists segs :: Paths.ExpandsTo(home, rs[i].target, segs)
  {
    Paths.HomeTargetsExpand(home, rs[i].target);
  }
}
