/** Risk tiers, trust, and the local policy that decides what each resource needs. */
module Policy {
  import opened Wrappers
  import opened Text
  import opened Manifest

  datatype Tier = Safe | Sensitive | Dangerous

  const EXECUTABLE_EXTENSIONS: set<string> := {
    "desktop", "exe", "bat", "cmd", "com", "scr", "msi", "ps1", "vbs", "vbe", "js", "jse", "wsf",
    "wsh", "hta", "sh", "run", "appimage", "jar", "lnk", "url", "reg", "app"}

  // Text after the last character that is one of `seps`.
  function AfterLast(s: string, seps: set<char>): string {
    if s == [] || s[|s| - 1] in seps then []
    else AfterLast(s[..|s| - 1], seps) + [s[|s| - 1]]
  }

  // Trailing dots and spaces, which Windows drops from a file name.
  function TrimEnd(s: string): string {
    if s != [] && (s[|s| - 1] == '.' || s[|s| - 1] == ' ') then TrimEnd(s[..|s| - 1]) else s
  }

  predicate HasExecutableExtension(target: string) {
    var name := TrimEnd(AfterLast(Lowercase(target), {'/', '\\'}));
    '.' in name && AfterLast(name, {'.'}) in EXECUTABLE_EXTENSIONS
  }

  lemma {:induction false} LowercaseMore(s: string, c: char)
    ensures Lowercase(s + [c]) == Lowercase(s) + [ToLower(c)]
  {
    if s == [] {
      assert s + [c] == [c];
    } else {
      assert (s + [c])[1..] == s[1..] + [c];
      LowercaseMore(s[1..], c);
    }
  }

  // A trailing dot or space, which Windows ignores, changes nothing.
  lemma TrailingIgnored(target: string, c: char)
    requires c == '.' || c == ' '
    ensures HasExecutableExtension(target + [c]) == HasExecutableExtension(target)
  {
    LowercaseMore(target, c);
    AfterLastMore(Lowercase(target), c, {'/', '\\'});
    TrimEndMore(AfterLast(Lowercase(target), {'/', '\\'}), c);
  }

  lemma AfterLastMore(s: string, c: char, seps: set<char>)
    requires c !in seps
    ensures AfterLast(s + [c], seps) == AfterLast(s, seps) + [c]
  {
    assert (s + [c])[..|s|] == s;
  }

  lemma TrimEndMore(s: string, c: char)
    requires c == '.' || c == ' '
    ensures TrimEnd(s + [c]) == TrimEnd(s)
  {
    assert (s + [c])[..|s|] == s;
  }

  lemma CaseIgnored(a: string, b: string)
    requires Lowercase(a) == Lowercase(b)
    ensures HasExecutableExtension(a) == HasExecutableExtension(b)
  {
  }

  predicate Ignored(c: char) {
    c == '.' || c == ' '
  }

  predicate IgnoredTail(tail: string) {
    forall i :: 0 <= i < |tail| ==> Ignored(tail[i])
  }

  // No change of case and no dots and spaces at the end hide an executable extension, or feign one.
  lemma {:induction false} DisguiseIgnored(target: string, disguised: string, tail: string)
    requires Lowercase(disguised) == Lowercase(target) && IgnoredTail(tail)
    ensures HasExecutableExtension(disguised + tail) == HasExecutableExtension(target)
  {
    if tail == "" {
      assert disguised + tail == disguised;
      CaseIgnored(disguised, target);
    } else {
      var n := |tail| - 1;
      DisguiseIgnored(target, disguised, tail[..n]);
      TrailingIgnored(disguised + tail[..n], tail[n]);
      assert disguised + tail == disguised + tail[..n] + [tail[n]];
    }
  }

  // ----- which names are executable -----

  const SEPARATORS: set<char> := {'/', '\\'}

  predicate FreeOf(s: string, seps: set<char>) {
    forall i :: 0 <= i < |s| ==> s[i] !in seps
  }

  // Nothing, or what a separator ends.
  predicate EndsDir(dir: string) {
    dir == "" || dir[|dir| - 1] in SEPARATORS
  }

  // A directory, a last component with a known extension in any case, and dots and spaces.
  predicate Executable(target: string, dir: string, stem: string, ext: string, tail: string) {
    && target == dir + (stem + ("." + (ext + tail)))
    && EndsDir(dir) && FreeOf(stem, SEPARATORS)
    && Lowercase(ext) in EXECUTABLE_EXTENSIONS && IgnoredTail(tail)
  }

  ghost predicate IsExecutable(target: string) {
    exists dir, stem, ext, tail :: Executable(target, dir, stem, ext, tail)
  }

  lemma {:induction false} AfterLastAt(front: string, s: string, seps: set<char>)
    requires FreeOf(s, seps) && (front == "" || front[|front| - 1] in seps)
    ensures AfterLast(front + s, seps) == s
    decreases |s|
  {
    if s == "" {
      assert front + s == front;
    } else {
      var n := |s| - 1;
      AfterLastAt(front, s[..n], seps);
      assert front + s == (front + s[..n]) + [s[n]];
      AfterLastMore(front + s[..n], s[n], seps);
      assert s == s[..n] + [s[n]];
    }
  }

  lemma {:induction false} AfterLastSplits(s: string, seps: set<char>) returns (front: string)
    ensures s == front + AfterLast(s, seps) && FreeOf(AfterLast(s, seps), seps)
    ensures front == "" || front[|front| - 1] in seps
  {
    if s == "" || s[|s| - 1] in seps {
      front := s;
      assert s == front + [];
    } else {
      var n := |s| - 1;
      front := AfterLastSplits(s[..n], seps);
      assert s == s[..n] + [s[n]];
      assert s == front + (AfterLast(s[..n], seps) + [s[n]]);
    }
  }

  lemma {:induction false} TrimEndAt(s: string, tail: string)
    requires IgnoredTail(tail) && (s == "" || !Ignored(s[|s| - 1]))
    ensures TrimEnd(s + tail) == s
    decreases |tail|
  {
    if tail == "" {
      assert s + tail == s;
    } else {
      var n := |tail| - 1;
      TrimEndAt(s, tail[..n]);
      assert s + tail == (s + tail[..n]) + [tail[n]];
      TrimEndMore(s + tail[..n], tail[n]);
    }
  }

  lemma {:induction false} TrimEndSplits(s: string) returns (tail: string)
    ensures s == TrimEnd(s) + tail && IgnoredTail(tail)
  {
    if s != "" && Ignored(s[|s| - 1]) {
      var n := |s| - 1;
      var rest := TrimEndSplits(s[..n]);
      tail := rest + [s[n]];
      assert s == s[..n] + [s[n]];
    } else {
      tail := "";
      assert s == s + "";
    }
  }

  lemma LowercaseParts(a: string, b: string)
    ensures Lowercase(a + b) == Lowercase(a) + Lowercase(b)
  {
    var s := Lowercase(a) + Lowercase(b);
    assert |Lowercase(a + b)| == |s|;
    forall i | 0 <= i < |s| ensures Lowercase(a + b)[i] == s[i] {
    }
  }

  lemma LowercaseFree(s: string)
    ensures FreeOf(Lowercase(s), SEPARATORS) <==> FreeOf(s, SEPARATORS)
    ensures EndsDir(Lowercase(s)) <==> EndsDir(s)
    ensures IgnoredTail(Lowercase(s)) <==> IgnoredTail(s)
  {
    forall i | 0 <= i < |s| ensures (Lowercase(s)[i] in SEPARATORS <==> s[i] in SEPARATORS)
                                    && (Ignored(Lowercase(s)[i]) <==> Ignored(s[i])) {
      assert Lowercase(s)[i] == ToLower(s[i]);
    }
  }

  // Extensions end in a letter or digit and hold neither dots nor separators.
  predicate PlainExtension(ext: string) {
    ext != "" && !Ignored(ext[|ext| - 1]) && FreeOf(ext, SEPARATORS) && FreeOf(ext, {'.'})
  }

  lemma ExtensionsPlain(ext: string)
    requires ext in EXECUTABLE_EXTENSIONS
    ensures PlainExtension(ext)
  {
  }

  lemma PlainInAnyCase(ext: string)
    ensures PlainExtension(Lowercase(ext)) <==> PlainExtension(ext)
  {
    forall i | 0 <= i < |ext|
      ensures Lowercase(ext)[i] == ToLower(ext[i])
      ensures Ignored(Lowercase(ext)[i]) <==> Ignored(ext[i])
      ensures (Lowercase(ext)[i] in SEPARATORS <==> ext[i] in SEPARATORS)
      ensures Lowercase(ext)[i] == '.' <==> ext[i] == '.'
    {
    }
  }

  lemma FreeParts(stem: string, ext: string, tail: string)
    requires FreeOf(stem, SEPARATORS) && FreeOf(ext, SEPARATORS) && IgnoredTail(tail)
    ensures FreeOf(stem + ("." + (ext + tail)), SEPARATORS)
    ensures stem + ("." + (ext + tail)) == (stem + ("." + ext)) + tail
  {
  }

  lemma NamedExtension(stem: string, ext: string)
    requires PlainExtension(ext)
    ensures var name := stem + ("." + ext);
      '.' in name && AfterLast(name, {'.'}) == ext && !Ignored(name[|name| - 1])
  {
    var name := stem + ("." + ext);
    assert name == (stem + ".") + ext && name[|stem|] == '.';
    AfterLastAt(stem + ".", ext, {'.'});
  }

  // A last component, its extension and what is ignored.
  lemma LastExtension(dir: string, stem: string, ext: string, tail: string)
    requires EndsDir(dir) && FreeOf(stem, SEPARATORS) && PlainExtension(ext) && IgnoredTail(tail)
    ensures var name := TrimEnd(AfterLast(dir + (stem + ("." + (ext + tail))), SEPARATORS));
      '.' in name && AfterLast(name, {'.'}) == ext
  {
    FreeParts(stem, ext, tail);
    AfterLastAt(dir, stem + ("." + (ext + tail)), SEPARATORS);
    NamedExtension(stem, ext);
    TrimEndAt(stem + ("." + ext), tail);
  }

  lemma LowercaseTarget(dir: string, stem: string, ext: string, tail: string)
    ensures Lowercase(dir + (stem + ("." + (ext + tail)))) ==
            Lowercase(dir) + (Lowercase(stem) + ("." + (Lowercase(ext) + Lowercase(tail))))
  {
    LowercaseParts(dir, stem + ("." + (ext + tail)));
    LowercaseParts(stem, "." + (ext + tail));
    LowercaseParts(".", ext + tail);
    LowercaseParts(ext, tail);
    assert Lowercase(".") == ".";
  }

  // What a name ends in decides, whatever comes before it.
  lemma ExtensionDecides(dir: string, stem: string, ext: string, tail: string)
    requires EndsDir(dir) && FreeOf(stem, SEPARATORS) && PlainExtension(ext) && IgnoredTail(tail)
    ensures HasExecutableExtension(dir + (stem + ("." + (ext + tail)))) <==> Lowercase(ext) in EXECUTABLE_EXTENSIONS
  {
    LowercaseTarget(dir, stem, ext, tail);
    LowercaseFree(dir);
    LowercaseFree(stem);
    LowercaseFree(tail);
    PlainInAnyCase(ext);
    LastExtension(Lowercase(dir), Lowercase(stem), Lowercase(ext), Lowercase(tail));
  }

  // A text cut in two where its lower-case form is.
  lemma CutLowercase(s: string, a: string, b: string) returns (x: string, y: string)
    requires Lowercase(s) == a + b
    ensures s == x + y && Lowercase(x) == a && Lowercase(y) == b
  {
    x, y := s[..|a|], s[|a|..];
    LowercaseParts(x, y);
    assert s == x + y;
    assert a == (a + b)[..|a|] && b == (a + b)[|a|..];
  }

  // The executable names are exactly those of the form.
  lemma ExecutableExactly(target: string)
    ensures HasExecutableExtension(target) <==> IsExecutable(target)
  {
    if HasExecutableExtension(target) {
      HasForm(target);
    }
    forall dir, stem, ext, tail | Executable(target, dir, stem, ext, tail) ensures HasExecutableExtension(target) {
      ExtensionsPlain(Lowercase(ext));
      PlainInAnyCase(ext);
      ExtensionDecides(dir, stem, ext, tail);
    }
  }

  // The parts of a lower-case name with an executable extension.
  lemma LowForm(low: string) returns (dir: string, stem: string, ext: string, tail: string)
    requires var name := TrimEnd(AfterLast(low, SEPARATORS));
      '.' in name && AfterLast(name, {'.'}) in EXECUTABLE_EXTENSIONS
    ensures low == dir + (stem + ("." + (ext + tail))) && EndsDir(dir) && FreeOf(stem, SEPARATORS)
    ensures ext in EXECUTABLE_EXTENSIONS && IgnoredTail(tail)
  {
    var last := AfterLast(low, SEPARATORS);
    var name := TrimEnd(last);
    dir := AfterLastSplits(low, SEPARATORS);
    tail := TrimEndSplits(last);
    stem, ext := LastDot(name);
    NameWithTail(stem, ext, tail);
    FreePrefix(stem, "." + (ext + tail));
  }

  lemma NameWithTail(stem: string, ext: string, tail: string)
    ensures (stem + ("." + ext)) + tail == stem + ("." + (ext + tail))
  {
  }

  lemma FreePrefix(a: string, b: string)
    requires FreeOf(a + b, SEPARATORS)
    ensures FreeOf(a, SEPARATORS)
  {
    assert forall i :: 0 <= i < |a| ==> a[i] == (a + b)[i];
  }

  lemma LastDot(name: string) returns (stem: string, ext: string)
    requires '.' in name
    ensures ext == AfterLast(name, {'.'}) && name == stem + ("." + ext)
  {
    ext := AfterLast(name, {'.'});
    var dotted := AfterLastSplits(name, {'.'});
    assert forall j :: 0 <= j < |ext| ==> name[|dotted| + j] == ext[j] && ext[j] != '.';
    stem := dotted[..|dotted| - 1];
    assert dotted == stem + ".";
  }

  lemma HasForm(target: string)
    requires HasExecutableExtension(target)
    ensures IsExecutable(target)
  {
    var low1, low2, low3, low4 := LowForm(Lowercase(target));
    var dir, r1 := CutLowercase(target, low1, low2 + ("." + (low3 + low4)));
    var stem, r2 := CutLowercase(r1, low2, "." + (low3 + low4));
    var dot, r3 := CutLowercase(r2, ".", low3 + low4);
    var ext, tail := CutLowercase(r3, low3, low4);
    DotAlone(dot);
    LowercaseFree(dir);
    LowercaseFree(stem);
    LowercaseFree(tail);
    assert Executable(target, dir, stem, ext, tail);
  }

  lemma DotAlone(dot: string)
    requires Lowercase(dot) == "."
    ensures dot == "."
  {
    assert Lowercase(dot)[0] == ToLower(dot[0]);
  }

  function Classify(kind: Kind, target: string): Tier {
    match kind
    case Https => Safe
    case Nested(_) => Safe
    case Dir => Sensitive
    case File => if HasExecutableExtension(target) then Dangerous else Sensitive
    case Terminal => Dangerous
    case Ssh => Dangerous
    case RemoteDesktop => Dangerous
    case Geo => Safe
    case Mailto => Safe
    case Custom(_) => Dangerous
  }

  datatype Trust = LocalTrust | UnsignedRemote | SignedUnknownKey(keyId: string) | SignedTrusted(keyId: string) {

    predicate IsTrusted() {
      LocalTrust? || SignedTrusted?
    }
  }

  datatype ConsentMode = AllowMode | PromptMode | DenyMode {

    function Strictness(): nat {
      match this
      case AllowMode => 0
      case PromptMode => 1
      case DenyMode => 2
    }
  }

  datatype Context = Context(trust: Trust, expired: bool, premature: bool, remote: bool)

  datatype Reason =
    | TierNeedsConsent(tier: Tier)
    | ManifestExpired
    | ManifestNotYetValid
    | RemoteTouchesFilesystem
    | DangerousUntrusted
    | TierDisabled(tier: Tier)

  datatype Decision = Allow | Prompt(reasons: seq<Reason>) | Deny(reason: Reason) {

    function Strictness(): nat {
      match this
      case Allow => 0
      case Prompt(_) => 1
      case Deny(_) => 2
    }
  }

  datatype Rules = Rules(
    safe: ConsentMode,
    sensitive: ConsentMode,
    dangerous: ConsentMode,
    dangerousRequiresTrust: bool,
    remoteFilesystemRefs: ConsentMode)
  {
    function Mode(tier: Tier): ConsentMode {
      match tier
      case Safe => safe
      case Sensitive => sensitive
      case Dangerous => dangerous
    }

    // Hard gates first, then the tier's mode, then the reasons to ask.
    function Evaluate(kind: Kind, tier: Tier, ctx: Context): Decision {
      if tier.Dangerous? && dangerousRequiresTrust && !ctx.trust.IsTrusted() then Deny(DangerousUntrusted)
      else if ctx.expired && !tier.Safe? then Deny(ManifestExpired)
      else if ctx.premature && !tier.Safe? then Deny(ManifestNotYetValid)
      else if Mode(tier).DenyMode? then Deny(TierDisabled(tier))
      else if ctx.remote && kind.IsFilesystem() && remoteFilesystemRefs.DenyMode? then
        Deny(RemoteTouchesFilesystem)
      else
        var reasons :=
          (if Mode(tier).PromptMode? then [TierNeedsConsent(tier)] else []) +
          (if ctx.expired then [ManifestExpired] else []) +
          (if ctx.premature then [ManifestNotYetValid] else []) +
          (if ctx.remote && kind.IsFilesystem() && remoteFilesystemRefs.PromptMode?
           then [RemoteTouchesFilesystem] else []) +
          (if tier.Dangerous? && !ctx.trust.IsTrusted() then [DangerousUntrusted] else []);
        if reasons == [] then Allow else Prompt(reasons)
    }
  }

  // Less trusted, or out of its window, or from further away.
  predicate Worse(good: Context, bad: Context) {
    && (bad.trust.IsTrusted() ==> good.trust.IsTrusted())
    && (good.expired ==> bad.expired)
    && (good.premature ==> bad.premature)
    && (good.remote ==> bad.remote)
  }

  predicate Stricter(lax: Rules, strict: Rules) {
    && lax.safe.Strictness() <= strict.safe.Strictness()
    && lax.sensitive.Strictness() <= strict.sensitive.Strictness()
    && lax.dangerous.Strictness() <= strict.dangerous.Strictness()
    && (lax.dangerousRequiresTrust ==> strict.dangerousRequiresTrust)
    && lax.remoteFilesystemRefs.Strictness() <= strict.remoteFilesystemRefs.Strictness()
  }

  // The mode the rules give a tier.
  function TierMode(rules: Rules, tier: Tier): ConsentMode {
    if tier == Dangerous then rules.dangerous else if tier == Sensitive then rules.sensitive else rules.safe
  }

  // Barred whatever the user says: dangerous and untrusted, out of its window unless safe, or
  // of a tier that is switched off.
  predicate Barred(rules: Rules, tier: Tier, ctx: Context) {
    || (tier.Dangerous? && rules.dangerousRequiresTrust && !ctx.trust.IsTrusted())
    || (!tier.Safe? && (ctx.expired || ctx.premature))
    || TierMode(rules, tier).DenyMode?
  }

  // A remote manifest that reaches into the file system.
  predicate ReachesIn(kind: Kind, ctx: Context) {
    ctx.remote && kind.IsFilesystem()
  }

  // Denied exactly when barred, or reaching in against the policy.
  lemma DeniesExactly(rules: Rules, kind: Kind, tier: Tier, ctx: Context)
    ensures rules.Evaluate(kind, tier, ctx).Deny? <==>
      Barred(rules, tier, ctx) || (ReachesIn(kind, ctx) && rules.remoteFilesystemRefs.DenyMode?)
  {
  }

  // Allowed without asking exactly when the tier's mode allows it, the manifest is in its
  // window, reaching in is allowed, and a dangerous resource comes from a trusted manifest.
  lemma AllowsExactly(rules: Rules, kind: Kind, tier: Tier, ctx: Context)
    ensures rules.Evaluate(kind, tier, ctx).Allow? <==>
      && TierMode(rules, tier).AllowMode? && !ctx.expired && !ctx.premature
      && (ReachesIn(kind, ctx) ==> rules.remoteFilesystemRefs.AllowMode?)
      && (tier.Dangerous? ==> ctx.trust.IsTrusted())
  {
    var d := rules.Evaluate(kind, tier, ctx);
    if d.Prompt? {
      assert d.reasons != [];
    }
  }

  // What a reason to deny says is so.
  predicate Bars(rules: Rules, kind: Kind, tier: Tier, ctx: Context, reason: Reason) {
    match reason
    case DangerousUntrusted => tier.Dangerous? && rules.dangerousRequiresTrust && !ctx.trust.IsTrusted()
    case ManifestExpired => ctx.expired && !tier.Safe?
    case ManifestNotYetValid => ctx.premature && !tier.Safe?
    case TierDisabled(t) => t == tier && TierMode(rules, tier).DenyMode?
    case RemoteTouchesFilesystem => ReachesIn(kind, ctx) && rules.remoteFilesystemRefs.DenyMode?
    case TierNeedsConsent(_) => false
  }

  // What a reason to ask says is so.
  predicate CallsFor(rules: Rules, kind: Kind, tier: Tier, ctx: Context, reason: Reason) {
    match reason
    case TierNeedsConsent(t) => t == tier && TierMode(rules, tier).PromptMode?
    case ManifestExpired => ctx.expired
    case ManifestNotYetValid => ctx.premature
    case RemoteTouchesFilesystem => ReachesIn(kind, ctx) && rules.remoteFilesystemRefs.PromptMode?
    case DangerousUntrusted => tier.Dangerous? && !ctx.trust.IsTrusted()
    case TierDisabled(_) => false
  }

  // A denial gives a reason that bars; a prompt gives exactly the reasons to ask.
  lemma ReasonsExactly(rules: Rules, kind: Kind, tier: Tier, ctx: Context)
    ensures var d := rules.Evaluate(kind, tier, ctx);
      && (d.Deny? ==> Bars(rules, kind, tier, ctx, d.reason))
      && (d.Prompt? ==> forall reason :: reason in d.reasons <==> CallsFor(rules, kind, tier, ctx, reason))
  {
    if rules.Evaluate(kind, tier, ctx).Prompt? {
      forall reason
        ensures reason in rules.Evaluate(kind, tier, ctx).reasons <==> CallsFor(rules, kind, tier, ctx, reason)
      {
        ReasonToAsk(rules, kind, tier, ctx, reason);
      }
    }
  }

  lemma ReasonToAsk(rules: Rules, kind: Kind, tier: Tier, ctx: Context, reason: Reason)
    requires rules.Evaluate(kind, tier, ctx).Prompt?
    ensures reason in rules.Evaluate(kind, tier, ctx).reasons <==> CallsFor(rules, kind, tier, ctx, reason)
  {
    var a := if rules.Mode(tier).PromptMode? then [TierNeedsConsent(tier)] else [];
    var b := if ctx.expired then [ManifestExpired] else [];
    var c := if ctx.premature then [ManifestNotYetValid] else [];
    var d := if ReachesIn(kind, ctx) && rules.remoteFilesystemRefs.PromptMode? then [RemoteTouchesFilesystem] else [];
    var e := if tier.Dangerous? && !ctx.trust.IsTrusted() then [DangerousUntrusted] else [];
    assert rules.Evaluate(kind, tier, ctx).reasons == a + b + c + d + e;
    InParts(a, b, c, d, e, reason);
  }

  lemma InParts(a: seq<Reason>, b: seq<Reason>, c: seq<Reason>, d: seq<Reason>, e: seq<Reason>, x: Reason)
    ensures x in a + b + c + d + e <==> x in a || x in b || x in c || x in d || x in e
  {
  }

  // Neither a worse manifest nor a stricter policy ever gains a resource permission.
  lemma EvaluateMonotone(lax: Rules, strict: Rules, kind: Kind, tier: Tier, good: Context, bad: Context)
    requires Stricter(lax, strict) && Worse(good, bad)
    ensures lax.Evaluate(kind, tier, good).Strictness() <= strict.Evaluate(kind, tier, bad).Strictness()
  {
    AllowsExactly(lax, kind, tier, good);
    AllowsExactly(strict, kind, tier, bad);
    DeniesExactly(lax, kind, tier, good);
    DeniesExactly(strict, kind, tier, bad);
  }
}
