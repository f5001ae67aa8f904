/** What each finding of the validator says: a manifest has it exactly when that is so. */
module ValidationFindings {
  import opened Wrappers
  import opened Text
  import opened Grammar
  import opened MurlScheme
  import opened Manifest
  import opened Graph
  import opened Validation
  import Paths
  import Timestamps

  // ----- the header -----

  // The window is empty when it ends no later than it begins.
  predicate WindowEmpty(notBefore: Option<string>, expires: Option<string>) {
    && notBefore.Some? && expires.Some?
    && Timestamps.ParseTime(notBefore.value).Ok? && Timestamps.ParseTime(expires.value).Ok?
    && Timestamps.ParseTime(expires.value).value <= Timestamps.ParseTime(notBefore.value).value
  }

  predicate NoTime(t: Option<string>) {
    t.Some? && Timestamps.ParseTime(t.value).Err?
  }

  // The manifest's own findings.
  predicate HeaderHas(d: RawDoc, issue: Issue) {
    match issue
    case BadManifestId => d.id.Some? && Parse(d.id.value).Err?
    case DecoratedManifestId =>
      && d.id.Some? && Parse(d.id.value).Ok?
      && (Parse(d.id.value).value.selector.Some? || Parse(d.id.value).value.query.Some?)
    case BadContentVersion => d.version.Some? && ParseVersion(d.version.value).Err?
    case LatestContentVersion => d.version.Some? && ParseVersion(d.version.value) == Ok(Latest)
    case BadExpires => NoTime(d.expires)
    case BadNotBefore => NoTime(d.notBefore)
    case EmptyWindow => WindowEmpty(d.notBefore, d.expires)
    case _ => false
  }

  function IdIssues(d: RawDoc): seq<Issue> {
    if d.id.None? then []
    else
      match Parse(d.id.value)
      case Err(_) => [BadManifestId]
      case Ok(m) => When(m.selector.Some? || m.query.Some?, DecoratedManifestId)
  }

  function VersionIssues(d: RawDoc): seq<Issue> {
    if d.version.None? then []
    else
      match ParseVersion(d.version.value)
      case Err(_) => [BadContentVersion]
      case Ok(v) => When(v.Latest?, LatestContentVersion)
  }

  lemma InFive(a: seq<Issue>, b: seq<Issue>, c: seq<Issue>, d: seq<Issue>, e: seq<Issue>, x: Issue)
    ensures x in a + b + c + d + e <==> x in a || x in b || x in c || x in d || x in e
  {
  }

  lemma WhenHas(found: bool, issue: Issue, x: Issue)
    ensures x in When(found, issue) <==> found && x == issue
  {
  }

  lemma HeaderExactly(d: RawDoc, issue: Issue)
    ensures issue in HeaderIssues(d) <==> HeaderHas(d, issue)
  {
    var late, early := NoTime(d.expires), NoTime(d.notBefore);
    var refused := Timestamps.RustWindowRefused(d.notBefore, d.expires);
    InFive(IdIssues(d), VersionIssues(d), When(late, BadExpires), When(early, BadNotBefore), When(refused, EmptyWindow),
           issue);
    WhenHas(late, BadExpires, issue);
    WhenHas(early, BadNotBefore, issue);
    WhenHas(refused, EmptyWindow, issue);
    HeaderParts(d);
    IdHas(d, issue);
    VersionHas(d, issue);
  }

  lemma HeaderParts(d: RawDoc)
    ensures HeaderIssues(d) ==
      IdIssues(d) + VersionIssues(d) + When(NoTime(d.expires), BadExpires) + When(NoTime(d.notBefore), BadNotBefore)
      + When(Timestamps.RustWindowRefused(d.notBefore, d.expires), EmptyWindow)
    ensures Timestamps.RustWindowRefused(d.notBefore, d.expires) <==> WindowEmpty(d.notBefore, d.expires)
  {
  }

  lemma IdHas(d: RawDoc, issue: Issue)
    ensures issue in IdIssues(d) <==> (issue.BadManifestId? || issue.DecoratedManifestId?) && HeaderHas(d, issue)
  {
  }

  lemma VersionHas(d: RawDoc, issue: Issue)
    ensures issue in VersionIssues(d) <==>
      (issue.BadContentVersion? || issue.LatestContentVersion?) && HeaderHas(d, issue)
  {
  }

  // ----- kinds, targets and pins -----

  predicate CustomShaped(name: string) {
    && 1 <= |name| <= 32 && name[0] != '-' && name[0] != '_'
    && forall i :: 0 <= i < |name| ==> IsLower(name[i]) || IsDigit(name[i]) || name[i] == '-' || name[i] == '_'
  }

  // The nine kinds, and the custom ones.
  predicate KindShaped(s: string) {
    || s in {"https", "file", "dir", "murl", "terminal", "ssh", "remote-desktop", "geo", "mailto"}
    || (|s| > 7 && s[..7] == "custom:" && CustomShaped(s[7..]))
  }

  lemma KnownExactly(s: string)
    ensures KnownKind(s) <==> KindShaped(s)
  {
    if |s| > 7 {
      assert ValidCustomName(s[7..]) <==> CustomShaped(s[7..]);
    }
  }

  // A mURL parses, a path is one the expander takes, and the rest is one abstract check.
  predicate TargetFits(c: Checks, kind: string, target: string) {
    if kind == "murl" then Parse(target).Ok?
    else if kind == "file" || kind == "dir" || kind == "terminal" then Paths.ValidatePath(target).None?
    else c.otherTarget(kind, target)
  }

  // `sha256-` and the 44 characters of a base64 digest.
  predicate PinShaped(s: string) {
    && |s| == 51 && s[..7] == "sha256-"
    && forall i :: 7 <= i < 51 ==> IsLower(s[i]) || IsUpper(s[i]) || IsDigit(s[i]) || s[i] in {'+', '/', '='}
  }

  // ----- one resource -----

  predicate WrongTarget(c: Checks, r: RawResource) {
    || r.target == "" || |r.target| > 2048 || !c.cleanText(r.target)
    || (KindShaped(r.kind) && !TargetFits(c, r.kind, r.target))
  }

  predicate HasBadTag(r: RawResource) {
    exists k :: 0 <= k < |r.tags| && !IsValidTag(r.tags[k])
  }

  predicate DependsUnknown(rs: seq<RawResource>, r: RawResource) {
    exists k :: 0 <= k < |r.dependsOn| && r.dependsOn[k] != r.id && !HasId(rs, r.dependsOn[k], |rs|)
  }

  // The findings about resource i.
  predicate ResourceHas(c: Checks, rs: seq<RawResource>, i: nat, issue: Issue)
    requires i < |rs|
  {
    var r := rs[i];
    match issue
    case BadId(j) => j == i && !IsValidResourceId(r.id)
    case DuplicateId(j) => j == i && HasId(rs, r.id, i)
    case BadKind(j) => j == i && !KindShaped(r.kind)
    case BadTarget(j) => j == i && WrongTarget(c, r)
    case BadRole(j) => j == i && r.role.Some? && !IsValidRole(r.role.value)
    case BadOrder(j) => j == i && !(0 <= r.order <= 10000)
    case TooManyTags(j) => j == i && |r.tags| > 16
    case BadTag(j) => j == i && HasBadTag(r)
    case TooManyDepends(j) => j == i && |r.dependsOn| > 16
    case SelfDependency(j) => j == i && r.id in r.dependsOn
    case UnknownDependency(j) => j == i && DependsUnknown(rs, r)
    case BadIntegrity(j) => j == i && r.integrity.Some? && !PinShaped(r.integrity.value)
    case _ => false
  }

  lemma TargetHas(c: Checks, r: RawResource, i: nat, issue: Issue)
    ensures issue in TargetIssues(c, r, i) <==> issue == BadTarget(i) && WrongTarget(c, r)
  {
    KnownExactly(r.kind);
  }

  lemma {:induction false} TagHas(tags: seq<string>, i: nat, issue: Issue)
    ensures issue in TagIssues(tags, i) <==>
      issue == BadTag(i) && exists k :: 0 <= k < |tags| && !IsValidTag(tags[k])
  {
    if tags != [] {
      var n := |tags| - 1;
      TagHas(tags[..n], i, issue);
      assert forall k :: 0 <= k < n ==> tags[k] == tags[..n][k];
    }
  }

  predicate Strange(rs: seq<RawResource>, id: string, name: string) {
    name != id && !HasId(rs, name, |rs|)
  }

  lemma {:induction false} DependHas(rs: seq<RawResource>, id: string, names: seq<string>, i: nat, issue: Issue)
    ensures issue in DependIssues(rs, id, names, i) <==>
      || (issue == SelfDependency(i) && id in names)
      || (issue == UnknownDependency(i) && exists k :: 0 <= k < |names| && Strange(rs, id, names[k]))
  {
    if names != [] {
      var n := |names| - 1;
      DependHas(rs, id, names[..n], i, issue);
      assert forall k :: 0 <= k < n ==> names[k] == names[..n][k];
      assert names == names[..n] + [names[n]];
    }
  }

  lemma InFour(a: seq<Issue>, b: seq<Issue>, c: seq<Issue>, d: seq<Issue>, x: Issue)
    ensures x in a + b + c + d <==> x in a || x in b || x in c || x in d
  {
  }

  // Findings about who a resource is, what it is like, and what it leans on.
  function WhoIssues(c: Checks, rs: seq<RawResource>, i: nat): seq<Issue>
    requires i < |rs|
  {
    var r := rs[i];
    When(!IsValidResourceId(r.id), BadId(i)) + When(HasId(rs, r.id, i), DuplicateId(i)) +
    When(!KnownKind(r.kind), BadKind(i)) + TargetIssues(c, r, i)
  }

  function LikeIssues(rs: seq<RawResource>, i: nat): seq<Issue>
    requires i < |rs|
  {
    var r := rs[i];
    When(r.role.Some? && !IsValidRole(r.role.value), BadRole(i)) + When(!(0 <= r.order <= MAX_ORDER), BadOrder(i)) +
    When(|r.tags| > MAX_TAGS, TooManyTags(i)) + TagIssues(r.tags, i)
  }

  function LeanIssues(rs: seq<RawResource>, i: nat): seq<Issue>
    requires i < |rs|
  {
    var r := rs[i];
    When(|r.dependsOn| > MAX_DEPENDS, TooManyDepends(i)) + DependIssues(rs, r.id, r.dependsOn, i) +
    When(r.integrity.Some? && !ValidIntegrity(r.integrity.value), BadIntegrity(i)) + []
  }

  lemma WhoHas(c: Checks, rs: seq<RawResource>, i: nat, issue: Issue)
    requires i < |rs|
    ensures issue in WhoIssues(c, rs, i) <==>
      && (issue.BadId? || issue.DuplicateId? || issue.BadKind? || issue.BadTarget?)
      && ResourceHas(c, rs, i, issue)
  {
    var r := rs[i];
    var id, dup, kind := !IsValidResourceId(r.id), HasId(rs, r.id, i), !KnownKind(r.kind);
    InFour(When(id, BadId(i)), When(dup, DuplicateId(i)), When(kind, BadKind(i)), TargetIssues(c, r, i), issue);
    WhenHas(id, BadId(i), issue);
    WhenHas(dup, DuplicateId(i), issue);
    WhenHas(kind, BadKind(i), issue);
    KnownExactly(r.kind);
    TargetHas(c, r, i, issue);
  }

  lemma LikeHas(c: Checks, rs: seq<RawResource>, i: nat, issue: Issue)
    requires i < |rs|
    ensures issue in LikeIssues(rs, i) <==>
      && (issue.BadRole? || issue.BadOrder? || issue.TooManyTags? || issue.BadTag?)
      && ResourceHas(c, rs, i, issue)
  {
    var r := rs[i];
    var role, order := r.role.Some? && !IsValidRole(r.role.value), !(0 <= r.order <= MAX_ORDER);
    var tags := |r.tags| > MAX_TAGS;
    InFour(When(role, BadRole(i)), When(order, BadOrder(i)), When(tags, TooManyTags(i)), TagIssues(r.tags, i), issue);
    WhenHas(role, BadRole(i), issue);
    WhenHas(order, BadOrder(i), issue);
    WhenHas(tags, TooManyTags(i), issue);
    TagHas(r.tags, i, issue);
  }

  lemma LeanHas(c: Checks, rs: seq<RawResource>, i: nat, issue: Issue)
    requires i < |rs|
    ensures issue in LeanIssues(rs, i) <==>
      && (issue.TooManyDepends? || issue.SelfDependency? || issue.UnknownDependency? || issue.BadIntegrity?)
      && ResourceHas(c, rs, i, issue)
  {
    var r := rs[i];
    var depends, pin := |r.dependsOn| > MAX_DEPENDS, r.integrity.Some? && !ValidIntegrity(r.integrity.value);
    InFour(When(depends, TooManyDepends(i)), DependIssues(rs, r.id, r.dependsOn, i), When(pin, BadIntegrity(i)), [],
           issue);
    WhenHas(depends, TooManyDepends(i), issue);
    DependHas(rs, r.id, r.dependsOn, i, issue);
    StrangeMeans(rs, r);
    WhenHas(pin, BadIntegrity(i), issue);
  }

  lemma StrangeMeans(rs: seq<RawResource>, r: RawResource)
    ensures DependsUnknown(rs, r) <==> exists k :: 0 <= k < |r.dependsOn| && Strange(rs, r.id, r.dependsOn[k])
  {
  }

  lemma FourMore(p: seq<Issue>, a: seq<Issue>, b: seq<Issue>, c: seq<Issue>, d: seq<Issue>)
    ensures p + a + b + c + d == p + (a + b + c + d)
  {
  }

  lemma ThreeMore(p: seq<Issue>, a: seq<Issue>, b: seq<Issue>, c: seq<Issue>)
    ensures p + a + b + c == p + (a + b + c + [])
  {
  }

  lemma Thirds(c: Checks, rs: seq<RawResource>, i: nat)
    requires i < |rs|
    ensures ResourceIssues(c, rs, i) == WhoIssues(c, rs, i) + LikeIssues(rs, i) + LeanIssues(rs, i)
  {
    var r, who := rs[i], WhoIssues(c, rs, i);
    var role := When(r.role.Some? && !IsValidRole(r.role.value), BadRole(i));
    var order, many := When(!(0 <= r.order <= MAX_ORDER), BadOrder(i)), When(|r.tags| > MAX_TAGS, TooManyTags(i));
    FourMore(who, role, order, many, TagIssues(r.tags, i));
    ThreeMore(who + LikeIssues(rs, i), When(|r.dependsOn| > MAX_DEPENDS, TooManyDepends(i)),
              DependIssues(rs, r.id, r.dependsOn, i),
              When(r.integrity.Some? && !ValidIntegrity(r.integrity.value), BadIntegrity(i)));
  }

  lemma ResourceExactly(c: Checks, rs: seq<RawResource>, i: nat, issue: Issue)
    requires i < |rs|
    ensures issue in ResourceIssues(c, rs, i) <==> ResourceHas(c, rs, i, issue)
  {
    Thirds(c, rs, i);
    WhoHas(c, rs, i, issue);
    LikeHas(c, rs, i, issue);
    LeanHas(c, rs, i, issue);
  }

  ghost predicate SomeResourceHas(c: Checks, rs: seq<RawResource>, n: nat, issue: Issue)
    requires n <= |rs|
  {
    exists i: nat :: i < n && ResourceHas(c, rs, i, issue)
  }

  lemma SomeMore(c: Checks, rs: seq<RawResource>, n: nat, next: nat, issue: Issue)
    requires n < |rs| && next == n + 1
    ensures SomeResourceHas(c, rs, next, issue) <==> SomeResourceHas(c, rs, n, issue) || ResourceHas(c, rs, n, issue)
  {
  }

  lemma {:induction false} ResourcesExactly(c: Checks, rs: seq<RawResource>, n: nat, issue: Issue)
    requires n <= |rs|
    ensures issue in ResourcesIssues(c, rs, n) <==> SomeResourceHas(c, rs, n, issue)
  {
    if n > 0 {
      var last := n - 1;
      PartsMore(c, rs, last);
      ResourcesExactly(c, rs, last, issue);
      ResourceExactly(c, rs, last, issue);
      SomeMore(c, rs, last, n, issue);
    }
  }

  // ----- all findings -----

  // No finding of the header or a resource, and dependencies that have a cycle.
  ghost predicate OnlyCyclic(c: Checks, d: RawDoc) {
    NothingElse(c, d) && AllTyped(d.resources) && ExecutionOrder(TypedAll(d.resources)).Err?
  }

  ghost predicate NothingElse(c: Checks, d: RawDoc) {
    && 1 <= |d.resources| <= 64 && (forall issue :: !HeaderHas(d, issue))
    && (forall issue :: !SomeResourceHas(c, d.resources, |d.resources|, issue))
  }

  // A finding is reported exactly when what it says is so.
  lemma IssuesExactly(c: Checks, d: RawDoc, issue: Issue)
    ensures issue in Issues(c, d) <==>
      || HeaderHas(d, issue)
      || SomeResourceHas(c, d.resources, |d.resources|, issue)
      || (issue == NoResources && d.resources == [])
      || (issue == TooManyResources && |d.resources| > 64)
      || (issue == CyclicDependencies && OnlyCyclic(c, d))
  {
    HeaderExactly(d, issue);
    if d.resources != [] {
      ResourcesExactly(c, d.resources, |d.resources|, issue);
      WhenHas(|d.resources| > MAX_RESOURCES, TooManyResources, issue);
      NothingFound(c, d);
      InFour(HeaderIssues(d), When(|d.resources| > MAX_RESOURCES, TooManyResources),
             ResourcesIssues(c, d.resources, |d.resources|), OrderIssues(Found(c, d), d.resources), issue);
    }
  }

  // What is found before the order is asked for.
  function Found(c: Checks, d: RawDoc): seq<Issue> {
    HeaderIssues(d) + When(|d.resources| > MAX_RESOURCES, TooManyResources)
    + ResourcesIssues(c, d.resources, |d.resources|)
  }

  lemma HeaderEmpty(d: RawDoc)
    ensures HeaderIssues(d) == [] <==> forall issue :: !HeaderHas(d, issue)
  {
    var found := HeaderIssues(d);
    forall issue ensures issue in found <==> HeaderHas(d, issue) {
      HeaderExactly(d, issue);
    }
    if found != [] {
      assert found[0] in found;
    }
  }

  lemma ResourcesEmpty(c: Checks, rs: seq<RawResource>)
    ensures ResourcesIssues(c, rs, |rs|) == [] <==> forall issue :: !SomeResourceHas(c, rs, |rs|, issue)
  {
    var found := ResourcesIssues(c, rs, |rs|);
    forall issue ensures issue in found <==> SomeResourceHas(c, rs, |rs|, issue) {
      ResourcesExactly(c, rs, |rs|, issue);
    }
    if found != [] {
      assert found[0] in found;
    }
  }

  lemma NothingFound(c: Checks, d: RawDoc)
    requires d.resources != []
    ensures Found(c, d) == [] <==> NothingElse(c, d)
  {
    HeaderEmpty(d);
    ResourcesEmpty(c, d.resources);
  }
}
