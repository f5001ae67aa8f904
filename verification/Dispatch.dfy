/** Dispatch: from approvals to launch attempts, outcomes and one aggregate status. */
module Dispatch {
  import opened Wrappers
  import opened Text
  import opened Manifest
  import opened MurlScheme
  import opened Policy
  import opened Resolver
  import opened ResolverInvariants
  import opened Consent
  import Paths

  // ----- handlers -----

  const PLACEHOLDER := "{target}"

  // How each kind maps to a program and its arguments.
  datatype Opener = Opener(
    openArgv: seq<string>,
    terminalArgv: Option<seq<string>>,
    sshArgv: Option<seq<string>>,
    remoteDesktopArgv: Option<seq<string>>,
    custom: map<string, seq<string>>,
    home: Option<string>)

  predicate Contains(s: string, part: string) {
    StartsWith(s, part) || (s != "" && Contains(s[1..], part))
  }

  function ReplaceAll(s: string, part: string, value: string): string
    requires part != ""
    decreases |s|
  {
    if StartsWith(s, part) then value + ReplaceAll(s[|part|..], part, value)
    else if s == "" then ""
    else [s[0]] + ReplaceAll(s[1..], part, value)
  }

  function SubstituteIn(part: string, target: string): string {
    if Contains(part, PLACEHOLDER) then ReplaceAll(part, PLACEHOLDER, target) else part
  }

  predicate Mentions(template: seq<string>) {
    exists i :: 0 <= i < |template| && Contains(template[i], PLACEHOLDER)
  }

  // The handler's own arguments with the target filled in, or put at the end.
  function Substitute(template: seq<string>, target: string): seq<string> {
    if template == [] then []
    else
      seq(|template|, i requires 0 <= i < |template| => SubstituteIn(template[i], target))
      + if Mentions(template) then [] else [target]
  }

  method SubstituteTarget(template: seq<string>, target: string) returns (argv: seq<string>)
    ensures argv == Substitute(template, target)
  {
    if template == [] {
      return [];
    }
    argv := [];
    var used := false;
    for i := 0 to |template|
      invariant |argv| == i && forall k :: 0 <= k < i ==> argv[k] == SubstituteIn(template[k], target)
      invariant used == Mentions(template[..i])
    {
      assert template[..i + 1][..i] == template[..i];
      MentionsMore(template[..i], template[i]);
      assert template[..i + 1] == template[..i] + [template[i]];
      if Contains(template[i], PLACEHOLDER) {
        argv := argv + [ReplaceAll(template[i], PLACEHOLDER, target)];
        used := true;
      } else {
        argv := argv + [template[i]];
      }
    }
    assert template[..|template|] == template;
    if !used {
      argv := argv + [target];
    }
  }

  lemma MentionsMore(template: seq<string>, part: string)
    ensures Mentions(template + [part]) <==> Mentions(template) || Contains(part, PLACEHOLDER)
  {
    var more := template + [part];
    if i :| 0 <= i < |template| && Contains(template[i], PLACEHOLDER) {
      assert more[i] == template[i];
    }
    assert more[|template|] == part;
  }

  // The target never adds an argument, and changes only those that ask for it: two targets
  // give argument lists of one length that differ at most where the template has the
  // placeholder, or in the last place when it has none.
  lemma TargetIsOneArgument(template: seq<string>, x: string, y: string, i: nat)
    requires i < |template|
    ensures |Substitute(template, x)| == |Substitute(template, y)| == |template| + if Mentions(template) then 0 else 1
    ensures !Contains(template[i], PLACEHOLDER) ==>
      Substitute(template, x)[i] == Substitute(template, y)[i] == template[i]
  {
  }

  function JoinBy(pieces: seq<string>, between: string): string {
    if pieces == [] then ""
    else if |pieces| == 1 then pieces[0]
    else pieces[0] + between + JoinBy(pieces[1..], between)
  }

  lemma JoinByHead(c: char, first: string, rest: seq<string>, between: string)
    ensures JoinBy([[c] + first] + rest, between) == [c] + JoinBy([first] + rest, between)
  {
    assert ([[c] + first] + rest)[1..] == rest && ([first] + rest)[1..] == rest;
    if rest != [] {
      Assoc([c] + first, between, JoinBy(rest, between));
      Assoc([c], first, between + JoinBy(rest, between));
      Assoc(first, between, JoinBy(rest, between));
    }
  }

  lemma JoinByEmpty(rest: seq<string>, between: string)
    requires rest != []
    ensures JoinBy([""] + rest, between) == between + JoinBy(rest, between)
  {
    assert ([""] + rest)[1..] == rest;
    assert "" + between == between;
  }

  // What is between the occurrences of a part, from the left, is kept; each occurrence becomes the value.
  lemma {:induction false} ReplacesEach(s: string, part: string, value: string) returns (pieces: seq<string>)
    requires part != ""
    ensures pieces != [] && s == JoinBy(pieces, part) && ReplaceAll(s, part, value) == JoinBy(pieces, value)
    ensures pieces[0] <= s && forall i :: 0 <= i < |pieces| ==> !Contains(pieces[i], part)
    decreases |s|
  {
    if StartsWith(s, part) {
      var rest := ReplacesEach(s[|part|..], part, value);
      pieces := [""] + rest;
      JoinByEmpty(rest, part);
      JoinByEmpty(rest, value);
      assert s == part + s[|part|..];
    } else if s == "" {
      pieces := [""];
    } else {
      var more := ReplacesEach(s[1..], part, value);
      pieces := [[s[0]] + more[0]] + more[1..];
      assert more == [more[0]] + more[1..];
      JoinByHead(s[0], more[0], more[1..], part);
      JoinByHead(s[0], more[0], more[1..], value);
      assert s == [s[0]] + s[1..];
      StillWithout(s, more[0], part);
    }
  }

  lemma StillWithout(s: string, piece: string, part: string)
    requires s != "" && !StartsWith(s, part) && piece <= s[1..] && !Contains(piece, part)
    ensures [s[0]] + piece <= s && !Contains([s[0]] + piece, part)
  {
    var longer := [s[0]] + piece;
    assert longer[1..] == piece;
    StartsToo(longer, s, part);
  }

  lemma StartsToo(a: string, b: string, part: string)
    requires a <= b
    ensures StartsWith(a, part) ==> StartsWith(b, part)
  {
    if StartsWith(a, part) {
      assert b[..|part|] == a[..|part|];
    }
  }

  // The program is the handler's own unless the handler itself asks to run the target.
  lemma ProgramIsHandlers(template: seq<string>, target: string)
    requires template != [] && !Contains(template[0], PLACEHOLDER)
    ensures Substitute(template, target) != [] && Substitute(template, target)[0] == template[0]
  {
  }

  // ----- one resource -----

  datatype Status = Opened | WasSkipped | WasDenied | LaunchFailed | Unavailable

  datatype Attempt = Attempt(argv: seq<string>, cwd: Option<string>)

  // Whether paths exist and spawns succeed, by the number of attempts made before.
  datatype Machine = Machine(present: (nat, string) -> bool, spawns: (nat, Attempt) -> bool)

  predicate IsSpace(c: char) {
    '\t' <= c <= '\r' || c == ' ' || c == '\U{0085}' || c == '\U{00A0}' || c == '\U{1680}'
    || '\U{2000}' <= c <= '\U{200A}' || c == '\U{2028}' || c == '\U{2029}' || c == '\U{202F}'
    || c == '\U{205F}' || c == '\U{3000}'
  }

  predicate IsBlank(s: string) {
    forall i :: 0 <= i < |s| ==> IsSpace(s[i])
  }

  datatype Dispatched = Dispatched(status: Status, attempt: Option<Attempt>)

  // An empty argument list or a blank program is refused; anything else is one attempt.
  function LaunchOf(machine: Machine, made: nat, argv: seq<string>, cwd: Option<string>): Dispatched {
    if argv == [] || IsBlank(argv[0]) then Dispatched(LaunchFailed, None)
    else
      var attempt := Attempt(argv, cwd);
      Dispatched(if machine.spawns(made, attempt) then Opened else LaunchFailed, Some(attempt))
  }

  function OpenWith(opener: Opener, target: string): seq<string> {
    if opener.openArgv == [] then [] else opener.openArgv + [target]
  }

  function WithHandler(machine: Machine, made: nat, template: Option<seq<string>>, target: string,
                       cwd: Option<string>): Dispatched
  {
    if template.None? then Dispatched(LaunchFailed, None)
    else LaunchOf(machine, made, Substitute(template.value, target), cwd)
  }

  function DispatchOne(opener: Opener, machine: Machine, made: nat, r: Resource): Dispatched {
    match r.kind
    case Https => LaunchOf(machine, made, OpenWith(opener, r.target), None)
    case Geo => LaunchOf(machine, made, OpenWith(opener, r.target), None)
    case Mailto => LaunchOf(machine, made, OpenWith(opener, r.target), None)
    case Nested(_) => Dispatched(WasSkipped, None)
    case Ssh => WithHandler(machine, made, opener.sshArgv, r.target, None)
    case RemoteDesktop => WithHandler(machine, made, opener.remoteDesktopArgv, r.target, None)
    case Custom(name) =>
      WithHandler(machine, made, if name in opener.custom then Some(opener.custom[name]) else None, r.target, None)
    case _ =>
      match Paths.Expand(opener.home, r.target)
      case Err(_) => Dispatched(LaunchFailed, None)
      case Ok(path) =>
        if !machine.present(made, path) then Dispatched(Unavailable, None)
        else if r.kind.Terminal? then WithHandler(machine, made, opener.terminalArgv, path, Some(path))
        else LaunchOf(machine, made, OpenWith(opener, path), None)
  }

  // The template configured for a kind; web pages, places, mail and files go to the opener.
  function HandlerFor(opener: Opener, kind: Kind): Option<seq<string>> {
    match kind
    case Terminal => opener.terminalArgv
    case Ssh => opener.sshArgv
    case RemoteDesktop => opener.remoteDesktopArgv
    case Custom(name) => if name in opener.custom then Some(opener.custom[name]) else None
    case Nested(_) => None
    case _ => Some(opener.openArgv)
  }

  // What is handed to the handler: the target, or for paths its expansion.
  function Operand(opener: Opener, r: Resource): Option<string> {
    if !r.kind.IsFilesystem() then Some(r.target)
    else
      match Paths.Expand(opener.home, r.target)
      case Ok(path) => Some(path)
      case Err(_) => None
  }

  predicate UsesOpener(kind: Kind) {
    kind.Https? || kind.File? || kind.Dir? || kind.Geo? || kind.Mailto?
  }

  // An attempt at a resource, the made-th of a run: the handler configured for its kind, on its
  // operand. Nothing is guessed where there is no handler, no path is tried that is not there,
  // and only a terminal gets a directory to start in.
  predicate Configured(opener: Opener, machine: Machine, made: nat, r: Resource, attempt: Attempt) {
    && HandlerFor(opener, r.kind).Some? && HandlerFor(opener, r.kind).value != []
    && Operand(opener, r).Some?
    && attempt.argv != [] && !IsBlank(attempt.argv[0])
    && attempt.argv == (if UsesOpener(r.kind) then opener.openArgv + [Operand(opener, r).value]
                        else Substitute(HandlerFor(opener, r.kind).value, Operand(opener, r).value))
    && attempt.cwd == (if r.kind.Terminal? then Operand(opener, r) else None)
    && (r.kind.IsFilesystem() ==> machine.present(made, Operand(opener, r).value))
  }

  // An attempt is made exactly when there is a configured one.
  lemma AttemptExactly(opener: Opener, machine: Machine, made: nat, r: Resource, attempt: Attempt)
    ensures DispatchOne(opener, machine, made, r).attempt == Some(attempt) <==>
            Configured(opener, machine, made, r, attempt)
  {
    if r.kind.IsFilesystem() {
      PathAttempt(opener, machine, made, r, attempt);
    } else {
      PlainAttempt(opener, machine, made, r, attempt);
    }
  }

  lemma PathAttempt(opener: Opener, machine: Machine, made: nat, r: Resource, attempt: Attempt)
    requires r.kind.IsFilesystem()
    ensures DispatchOne(opener, machine, made, r).attempt == Some(attempt) <==>
            Configured(opener, machine, made, r, attempt)
  {
  }

  lemma PlainAttempt(opener: Opener, machine: Machine, made: nat, r: Resource, attempt: Attempt)
    requires !r.kind.IsFilesystem()
    ensures DispatchOne(opener, machine, made, r).attempt == Some(attempt) <==>
            Configured(opener, machine, made, r, attempt)
  {
  }

  ghost predicate CanAttempt(opener: Opener, machine: Machine, made: nat, r: Resource) {
    exists attempt :: Configured(opener, machine, made, r, attempt)
  }

  // A path that expands and is not there.
  predicate Absent(opener: Opener, machine: Machine, made: nat, r: Resource) {
    && r.kind.IsFilesystem() && Operand(opener, r).Some? && !machine.present(made, Operand(opener, r).value)
  }

  // What becomes of an approved resource: opened when its attempt succeeds, unavailable when its
  // path is not there, passed over when it is a container, and otherwise failed.
  lemma StatusExactly(opener: Opener, machine: Machine, made: nat, r: Resource)
    ensures var d := DispatchOne(opener, machine, made, r);
      && (d.attempt.Some? <==> CanAttempt(opener, machine, made, r))
      && (d.status.Opened? <==> exists a :: Configured(opener, machine, made, r, a) && machine.spawns(made, a))
      && (d.status.Unavailable? <==> Absent(opener, machine, made, r))
      && (d.status.WasSkipped? <==> r.kind.Nested?)
      && !d.status.WasDenied?
  {
    var d := DispatchOne(opener, machine, made, r);
    forall a ensures d.attempt == Some(a) <==> Configured(opener, machine, made, r, a) {
      AttemptExactly(opener, machine, made, r, a);
    }
    if d.attempt.Some? {
      assert Configured(opener, machine, made, r, d.attempt.value);
    }
  }

  // ----- risk -----

  // A resource is dangerous exactly when it goes to a handler of its own, or is a file that
  // opening would run; any other file or directory is sensitive.
  lemma TierExactly(kind: Kind, target: string)
    requires !kind.Nested?
    ensures Classify(kind, target).Dangerous? <==> !UsesOpener(kind) || (kind.File? && IsExecutable(target))
    ensures Classify(kind, target).Sensitive? <==> kind.Dir? || (kind.File? && !IsExecutable(target))
  {
    ExecutableExactly(target);
  }

  // So are the resources of every plan.
  lemma PlannedTiers(w: World, lim: Limits, m: Murl, i: nat)
    requires ResolveName(w, lim, m).Done? && i < |ResolveName(w, lim, m).st.plan|
    ensures var p := ResolveName(w, lim, m).st.plan[i];
      && !p.resource.kind.Nested?
      && (p.tier.Dangerous? <==>
            !UsesOpener(p.resource.kind) || (p.resource.kind.File? && IsExecutable(p.resource.target)))
      && (p.tier.Sensitive? <==>
            p.resource.kind.Dir? || (p.resource.kind.File? && !IsExecutable(p.resource.target)))
  {
    ResolveNameKeeps(w, lim, m);
    var p := ResolveName(w, lim, m).st.plan[i];
    assert EntryKept(ResolveName(w, lim, m).st.nodes, p);
    TierExactly(p.resource.kind, p.resource.target);
  }

  // ----- the whole plan -----

  datatype Launch = Launch(index: nat, attempt: Attempt)

  datatype Run = Run(statuses: seq<Status>, launches: seq<Launch>, sleeps: nat)

  function OneOutcome(opener: Opener, machine: Machine, made: nat, p: Planned, approval: Approval): Dispatched {
    match approval
    case Denied(_) => Dispatched(WasDenied, None)
    case Skipped(_) => Dispatched(WasSkipped, None)
    case Approved => DispatchOne(opener, machine, made, p.resource)
  }

  predicate AnyOpened(statuses: seq<Status>) {
    Opened in statuses
  }

  // The first n resources, in plan order.
  function Executed(opener: Opener, machine: Machine, stagger: bool, plan: seq<Planned>, approvals: seq<Approval>,
                    n: nat): Run
    requires n <= |plan| == |approvals|
  {
    if n == 0 then Run([], [], 0)
    else
      var before := Executed(opener, machine, stagger, plan, approvals, n - 1);
      var d := OneOutcome(opener, machine, |before.launches|, plan[n - 1], approvals[n - 1]);
      Run(before.statuses + [d.status],
          before.launches + (if d.attempt.Some? then [Launch(n - 1, d.attempt.value)] else []),
          before.sleeps + if approvals[n - 1].Approved? && AnyOpened(before.statuses) && stagger then 1 else 0)
  }

  function Attempts(launches: seq<Launch>): seq<Attempt> {
    seq(|launches|, i requires 0 <= i < |launches| => launches[i].attempt)
  }

  // The process launcher; what it was asked to do is recorded.
  class Launcher {
    const machine: Machine
    var attempts: seq<Attempt>
    var sleeps: nat

    constructor (machine: Machine)
      ensures this.machine == machine && attempts == [] && sleeps == 0
    {
      this.machine, attempts, sleeps := machine, [], 0;
    }

    method Start(argv: seq<string>, cwd: Option<string>) returns (ok: bool)
      modifies this`attempts
      ensures attempts == old(attempts) + [Attempt(argv, cwd)]
      ensures ok == machine.spawns(|old(attempts)|, Attempt(argv, cwd))
    {
      ok := machine.spawns(|attempts|, Attempt(argv, cwd));
      attempts := attempts + [Attempt(argv, cwd)];
    }

    method PathExists(path: string) returns (r: bool)
      ensures r == machine.present(|attempts|, path)
    {
      r := machine.present(|attempts|, path);
    }

    method Sleep()
      modifies this`sleeps
      ensures sleeps == old(sleeps) + 1
    {
      sleeps := sleeps + 1;
    }
  }

  // What an attempt adds to the record.
  function Recorded(attempts: seq<Attempt>, d: Dispatched): seq<Attempt> {
    attempts + if d.attempt.Some? then [d.attempt.value] else []
  }

  method LaunchArgv(launcher: Launcher, argv: seq<string>, cwd: Option<string>) returns (status: Status)
    modifies launcher`attempts
    ensures var d := LaunchOf(launcher.machine, |old(launcher.attempts)|, argv, cwd);
      status == d.status && launcher.attempts == Recorded(old(launcher.attempts), d)
  {
    if argv == [] || IsBlank(argv[0]) {
      return LaunchFailed;
    }
    var ok := launcher.Start(argv, cwd);
    return if ok then Opened else LaunchFailed;
  }

  method RunHandler(launcher: Launcher, template: Option<seq<string>>, target: string, cwd: Option<string>)
    returns (status: Status)
    modifies launcher`attempts
    ensures var d := WithHandler(launcher.machine, |old(launcher.attempts)|, template, target, cwd);
      status == d.status && launcher.attempts == Recorded(old(launcher.attempts), d)
  {
    if template.None? {
      return LaunchFailed;
    }
    var argv := SubstituteTarget(template.value, target);
    status := LaunchArgv(launcher, argv, cwd);
  }

  method DispatchPath(launcher: Launcher, opener: Opener, r: Resource) returns (status: Status)
    requires r.kind.IsFilesystem()
    modifies launcher`attempts
    ensures var d := DispatchOne(opener, launcher.machine, |old(launcher.attempts)|, r);
      status == d.status && launcher.attempts == Recorded(old(launcher.attempts), d)
  {
    var expanded := Paths.ExpandPath(opener.home, r.target);
    if expanded.Err? {
      return LaunchFailed;
    }
    var path := expanded.value;
    var there := launcher.PathExists(path);
    if !there {
      return Unavailable;
    }
    if r.kind.Terminal? {
      status := RunHandler(launcher, opener.terminalArgv, path, Some(path));
    } else {
      status := LaunchArgv(launcher, OpenWith(opener, path), None);
    }
  }

  // `dispatch_one`.
  method DispatchResource(launcher: Launcher, opener: Opener, r: Resource) returns (status: Status)
    modifies launcher`attempts
    ensures var d := DispatchOne(opener, launcher.machine, |old(launcher.attempts)|, r);
      status == d.status && launcher.attempts == Recorded(old(launcher.attempts), d)
  {
    match r.kind {
      case Https => status := LaunchArgv(launcher, OpenWith(opener, r.target), None);
      case Geo => status := LaunchArgv(launcher, OpenWith(opener, r.target), None);
      case Mailto => status := LaunchArgv(launcher, OpenWith(opener, r.target), None);
      case Nested(_) => status := WasSkipped;
      case Ssh => status := RunHandler(launcher, opener.sshArgv, r.target, None);
      case RemoteDesktop => status := RunHandler(launcher, opener.remoteDesktopArgv, r.target, None);
      case Custom(name) =>
        var template := if name in opener.custom then Some(opener.custom[name]) else None;
        status := RunHandler(launcher, template, r.target, None);
      case _ => status := DispatchPath(launcher, opener, r);
    }
  }

  datatype Report = Report(statuses: seq<Status>, aggregate: Aggregate)

  // `execute`: refuses approvals that do not match the plan, and otherwise goes through it in order.
  method Execute(launcher: Launcher, opener: Opener, stagger: bool, plan: seq<Planned>, approvals: seq<Approval>)
    returns (r: Option<Report>)
    requires launcher.attempts == [] && launcher.sleeps == 0
    modifies launcher
    ensures |plan| != |approvals| ==> r == None && launcher.attempts == []
    ensures |plan| == |approvals| ==>
      var run := Executed(opener, launcher.machine, stagger, plan, approvals, |plan|);
      && r == Some(Report(run.statuses, AggregateOf(plan, run.statuses)))
      && launcher.attempts == Attempts(run.launches) && launcher.sleeps == run.sleeps
  {
    if |plan| != |approvals| {
      return None;
    }
    var statuses: seq<Status> := [];
    var launchedAny := false;
    for i := 0 to |plan|
      invariant statuses == Executed(opener, launcher.machine, stagger, plan, approvals, i).statuses
      invariant launcher.attempts == Attempts(Executed(opener, launcher.machine, stagger, plan, approvals, i).launches)
      invariant launcher.sleeps == Executed(opener, launcher.machine, stagger, plan, approvals, i).sleeps
      invariant |statuses| == i && launchedAny == AnyOpened(statuses)
    {
      var status;
      match approvals[i] {
        case Denied(_) => status := WasDenied;
        case Skipped(_) => status := WasSkipped;
        case Approved =>
          if launchedAny && stagger {
            launcher.Sleep();
          }
          status := DispatchResource(launcher, opener, plan[i].resource);
          if status == Opened {
            launchedAny := true;
          }
      }
      statuses := statuses + [status];
    }
    var total := ComputeAggregate(plan, statuses);
    return Some(Report(statuses, total));
  }

  // ----- the aggregate -----

  datatype Aggregate = Success | Partial | Failed | DeniedAll

  predicate IsMiss(s: Status) {
    s.WasDenied? || s.LaunchFailed? || s.Unavailable?
  }

  predicate RequiredMissed(plan: seq<Planned>, statuses: seq<Status>) {
    exists i :: 0 <= i < |plan| && i < |statuses| && plan[i].resource.required && IsMiss(statuses[i])
  }

  function AggregateOf(plan: seq<Planned>, statuses: seq<Status>): Aggregate {
    if RequiredMissed(plan, statuses) then Failed
    else if Opened in statuses && LaunchFailed !in statuses && Unavailable !in statuses && WasDenied !in statuses
    then Success
    else if Opened in statuses then Partial
    else if LaunchFailed in statuses || Unavailable in statuses then Failed
    else if WasDenied in statuses then DeniedAll
    else Success
  }

  method ComputeAggregate(plan: seq<Planned>, statuses: seq<Status>) returns (total: Aggregate)
    requires |plan| == |statuses|
    ensures total == AggregateOf(plan, statuses)
  {
    var anyOpened, anyBad, anyDenied, requiredMissed := false, false, false, false;
    for i := 0 to |plan|
      invariant anyOpened == (Opened in statuses[..i])
      invariant anyBad == (LaunchFailed in statuses[..i] || Unavailable in statuses[..i])
      invariant anyDenied == (WasDenied in statuses[..i])
      invariant requiredMissed == RequiredMissed(plan, statuses[..i])
    {
      assert statuses[..i + 1] == statuses[..i] + [statuses[i]];
      MissMore(plan, statuses, i);
      match statuses[i] {
        case Opened => anyOpened := true;
        case WasSkipped =>
        case WasDenied =>
          anyDenied := true;
          if plan[i].resource.required {
            requiredMissed := true;
          }
        case _ =>
          anyBad := true;
          if plan[i].resource.required {
            requiredMissed := true;
          }
      }
    }
    assert statuses[..|plan|] == statuses;
    if requiredMissed {
      return Failed;
    } else if anyOpened && !anyBad && !anyDenied {
      return Success;
    } else if anyOpened {
      return Partial;
    } else if anyBad {
      return Failed;
    } else if anyDenied {
      return DeniedAll;
    } else {
      return Success;
    }
  }

  lemma MissMore(plan: seq<Planned>, statuses: seq<Status>, i: nat)
    requires i < |plan| == |statuses|
    ensures RequiredMissed(plan, statuses[..i + 1]) <==>
      RequiredMissed(plan, statuses[..i]) || (plan[i].resource.required && IsMiss(statuses[i]))
  {
    assert statuses[..i + 1][i] == statuses[i];
    forall k | 0 <= k < i ensures statuses[..i][k] == statuses[..i + 1][k] {
    }
  }

  // Success means exactly that nothing was denied, failed or was unavailable.
  lemma SuccessExactly(plan: seq<Planned>, statuses: seq<Status>)
    requires |plan| == |statuses|
    ensures AggregateOf(plan, statuses) == Success <==> forall i :: 0 <= i < |statuses| ==> !IsMiss(statuses[i])
  {
    if LaunchFailed in statuses || Unavailable in statuses || WasDenied in statuses {
      var i :| 0 <= i < |statuses| && IsMiss(statuses[i]);
    }
  }

  // Failed: a required resource did not open, or nothing opened and something failed or was
  // unavailable. Denied: nothing opened or failed, nothing required was missed, something was denied.
  lemma FailedExactly(plan: seq<Planned>, statuses: seq<Status>)
    requires |plan| == |statuses|
    ensures AggregateOf(plan, statuses) == Failed <==>
      || (exists i :: 0 <= i < |plan| && plan[i].resource.required && IsMiss(statuses[i]))
      || (Opened !in statuses && (LaunchFailed in statuses || Unavailable in statuses))
    ensures AggregateOf(plan, statuses) == DeniedAll <==>
      && WasDenied in statuses
      && (forall i :: 0 <= i < |statuses| ==> statuses[i].WasDenied? || statuses[i].WasSkipped?)
      && forall i :: 0 <= i < |plan| ==> plan[i].resource.required ==> !IsMiss(statuses[i])
  {
    if AggregateOf(plan, statuses) == DeniedAll {
      forall i | 0 <= i < |statuses| ensures statuses[i].WasDenied? || statuses[i].WasSkipped? {
        assert statuses[i] in statuses;
      }
    }
  }

  // ----- what is launched -----

  // Launches go up the plan, at most one for each resource, and only for approved ones; a
  // resource counts as opened exactly when its attempt succeeded.
  predicate Follows(machine: Machine, approvals: seq<Approval>, run: Run, n: nat) {
    && |run.statuses| == n <= |approvals|
    && (forall k :: 0 <= k < |run.launches| ==>
          run.launches[k].index < n && approvals[run.launches[k].index].Approved?)
    && (forall j, k :: 0 <= j < k < |run.launches| ==> run.launches[j].index < run.launches[k].index)
    && (forall k :: 0 <= k < |run.launches| ==>
          run.statuses[run.launches[k].index] ==
          if machine.spawns(k, run.launches[k].attempt) then Opened else LaunchFailed)
  }

  // An attempt is made for an approved resource only, and its success is what opens it.
  lemma OutcomeFollows(opener: Opener, machine: Machine, made: nat, p: Planned, approval: Approval)
    ensures var d := OneOutcome(opener, machine, made, p, approval);
      d.attempt.Some? ==>
        approval.Approved? && d.status == if machine.spawns(made, d.attempt.value) then Opened else LaunchFailed
  {
  }

  lemma FollowsMore(machine: Machine, approvals: seq<Approval>, before: Run, n: nat, d: Dispatched, run: Run)
    requires Follows(machine, approvals, before, n) && n < |approvals|
    requires d.attempt.Some? ==>
      && approvals[n].Approved?
      && d.status == if machine.spawns(|before.launches|, d.attempt.value) then Opened else LaunchFailed
    requires run.statuses == before.statuses + [d.status]
    requires run.launches == before.launches + if d.attempt.Some? then [Launch(n, d.attempt.value)] else []
    ensures Follows(machine, approvals, run, n + 1)
  {
    forall k | 0 <= k < |before.launches| ensures run.launches[k] == before.launches[k] {
    }
  }

  lemma {:induction false} LaunchesFollowPlan(opener: Opener, machine: Machine, stagger: bool, plan: seq<Planned>,
                                              approvals: seq<Approval>, n: nat)
    requires n <= |plan| == |approvals|
    ensures Follows(machine, approvals, Executed(opener, machine, stagger, plan, approvals, n), n)
  {
    if n > 0 {
      var last := n - 1;
      var before := Executed(opener, machine, stagger, plan, approvals, last);
      var d := OneOutcome(opener, machine, |before.launches|, plan[last], approvals[last]);
      LaunchesFollowPlan(opener, machine, stagger, plan, approvals, last);
      OutcomeFollows(opener, machine, |before.launches|, plan[last], approvals[last]);
      FollowsMore(machine, approvals, before, last, d, Executed(opener, machine, stagger, plan, approvals, n));
    }
  }

  predicate AllConfigured(opener: Opener, machine: Machine, plan: seq<Planned>, launches: seq<Launch>) {
    forall k :: 0 <= k < |launches| ==>
      && launches[k].index < |plan|
      && Configured(opener, machine, k, plan[launches[k].index].resource, launches[k].attempt)
  }

  // Every launch of a run is such an attempt at the resource it is for.
  lemma {:induction false} LaunchesConfigured(opener: Opener, machine: Machine, stagger: bool, plan: seq<Planned>,
                                              approvals: seq<Approval>, n: nat)
    requires n <= |plan| == |approvals|
    ensures AllConfigured(opener, machine, plan, Executed(opener, machine, stagger, plan, approvals, n).launches)
  {
    if n > 0 {
      var last := n - 1;
      var before := Executed(opener, machine, stagger, plan, approvals, last);
      LaunchesConfigured(opener, machine, stagger, plan, approvals, last);
      var d := OneOutcome(opener, machine, |before.launches|, plan[last], approvals[last]);
      if d.attempt.Some? {
        AttemptExactly(opener, machine, |before.launches|, plan[last].resource, d.attempt.value);
      }
      ConfiguredMore(opener, machine, plan, before.launches, last, d);
    }
  }

  lemma ConfiguredMore(opener: Opener, machine: Machine, plan: seq<Planned>, launches: seq<Launch>, n: nat,
                       d: Dispatched)
    requires AllConfigured(opener, machine, plan, launches) && n < |plan|
    requires d.attempt.Some? ==> Configured(opener, machine, |launches|, plan[n].resource, d.attempt.value)
    ensures AllConfigured(opener, machine, plan,
                          launches + if d.attempt.Some? then [Launch(n, d.attempt.value)] else [])
  {
    if d.attempt.Some? {
      var more := launches + [Launch(n, d.attempt.value)];
      forall k | 0 <= k < |more|
        ensures more[k].index < |plan| && Configured(opener, machine, k, plan[more[k].index].resource, more[k].attempt)
      {
        if k < |launches| {
          assert more[k] == launches[k];
        }
      }
    } else {
      assert launches + [] == launches;
    }
  }

  predicate Launched(launches: seq<Launch>, i: nat) {
    exists k :: 0 <= k < |launches| && launches[k].index == i
  }

  lemma LaunchedMore(launches: seq<Launch>, more: seq<Launch>, i: nat)
    requires launches <= more && Launched(launches, i)
    ensures Launched(more, i)
  {
    var k :| 0 <= k < |launches| && launches[k].index == i;
    assert more[k] == launches[k];
  }

  // What a run does with a resource, `made` attempts having been made before it.
  ghost predicate Treated(opener: Opener, machine: Machine, made: nat, p: Planned, approval: Approval, status: Status,
                          launched: bool)
  {
    match approval
    case Denied(_) => status == WasDenied && !launched
    case Skipped(_) => status == WasSkipped && !launched
    case Approved =>
      && (launched <==> CanAttempt(opener, machine, made, p.resource))
      && (status.Opened? <==> exists a :: Configured(opener, machine, made, p.resource, a) && machine.spawns(made, a))
      && (status.Unavailable? <==> Absent(opener, machine, made, p.resource))
      && (status.WasSkipped? <==> p.resource.kind.Nested?)
      && !status.WasDenied?
  }

  lemma OneTreated(opener: Opener, machine: Machine, made: nat, p: Planned, approval: Approval)
    ensures var d := OneOutcome(opener, machine, made, p, approval);
      Treated(opener, machine, made, p, approval, d.status, d.attempt.Some?)
  {
    StatusExactly(opener, machine, made, p.resource);
  }

  // The launches before resource i.
  function MadeBefore(launches: seq<Launch>, i: nat): nat {
    if launches == [] then 0
    else MadeBefore(launches[..|launches| - 1], i) + if launches[|launches| - 1].index < i then 1 else 0
  }

  lemma {:induction false} MadeBeforeAll(launches: seq<Launch>, i: nat)
    requires forall k :: 0 <= k < |launches| ==> launches[k].index < i
    ensures MadeBefore(launches, i) == |launches|
  {
    if launches != [] {
      MadeBeforeAll(launches[..|launches| - 1], i);
    }
  }

  lemma MadeBeforeMore(launches: seq<Launch>, x: Launch, i: nat)
    ensures MadeBefore(launches + [x], i) == MadeBefore(launches, i) + if x.index < i then 1 else 0
  {
    assert (launches + [x])[..|launches|] == launches;
  }

  // Every resource of a run is treated as its approval and the machine call for: nothing approved
  // that can be attempted is left out.
  lemma {:induction false} RunExactly(opener: Opener, machine: Machine, stagger: bool, plan: seq<Planned>,
                                      approvals: seq<Approval>, n: nat, i: nat)
    requires i < n <= |plan| == |approvals|
    ensures var run := Executed(opener, machine, stagger, plan, approvals, n);
      && |run.statuses| == n
      && Treated(opener, machine, MadeBefore(run.launches, i), plan[i], approvals[i], run.statuses[i],
                 Launched(run.launches, i))
  {
    var last := n - 1;
    var run := Executed(opener, machine, stagger, plan, approvals, n);
    var before := Executed(opener, machine, stagger, plan, approvals, last);
    var d := OneOutcome(opener, machine, |before.launches|, plan[last], approvals[last]);
    LaunchesFollowPlan(opener, machine, stagger, plan, approvals, last);
    LastLaunch(before, run, last, d);
    if i < last {
      RunExactly(opener, machine, stagger, plan, approvals, last, i);
      EarlierLaunch(before, run, last, d, i);
    } else {
      OneTreated(opener, machine, |before.launches|, plan[last], approvals[last]);
    }
  }

  predicate OneMore(before: Run, run: Run, n: nat, d: Dispatched) {
    && |before.statuses| == n && (forall k :: 0 <= k < |before.launches| ==> before.launches[k].index < n)
    && run.statuses == before.statuses + [d.status]
    && run.launches == before.launches + if d.attempt.Some? then [Launch(n, d.attempt.value)] else []
  }

  // The last resource comes after all launches before it.
  lemma LastLaunch(before: Run, run: Run, n: nat, d: Dispatched)
    requires OneMore(before, run, n, d)
    ensures MadeBefore(run.launches, n) == |before.launches| && run.statuses[n] == d.status
    ensures Launched(run.launches, n) <==> d.attempt.Some?
  {
    MadeBeforeAll(before.launches, n);
    if d.attempt.Some? {
      MadeBeforeMore(before.launches, Launch(n, d.attempt.value), n);
      assert run.launches[|before.launches|].index == n;
    } else {
      assert run.launches == before.launches;
    }
  }

  // It changes nothing for those before it.
  lemma EarlierLaunch(before: Run, run: Run, n: nat, d: Dispatched, i: nat)
    requires OneMore(before, run, n, d) && i < n
    ensures MadeBefore(run.launches, i) == MadeBefore(before.launches, i) && run.statuses[i] == before.statuses[i]
    ensures Launched(run.launches, i) <==> Launched(before.launches, i)
  {
    if d.attempt.Some? {
      MadeBeforeMore(before.launches, Launch(n, d.attempt.value), i);
    } else {
      assert run.launches == before.launches;
    }
    if Launched(before.launches, i) {
      LaunchedMore(before.launches, run.launches, i);
    }
  }

  // Nothing opens without an attempt.
  lemma OpenedWasLaunched(opener: Opener, machine: Machine, stagger: bool, plan: seq<Planned>,
                          approvals: seq<Approval>, n: nat, i: nat)
    requires i < n <= |plan| == |approvals|
    requires i < |Executed(opener, machine, stagger, plan, approvals, n).statuses|
    requires Executed(opener, machine, stagger, plan, approvals, n).statuses[i] == Opened
    ensures Launched(Executed(opener, machine, stagger, plan, approvals, n).launches, i)
  {
    RunExactly(opener, machine, stagger, plan, approvals, n, i);
  }

  // A resource that waits: an approved one, once something has opened.
  predicate WaitsAt(approvals: seq<Approval>, statuses: seq<Status>, i: nat)
    requires i < |approvals| && i <= |statuses|
  {
    approvals[i].Approved? && Opened in statuses[..i]
  }

  function Waits(approvals: seq<Approval>, statuses: seq<Status>, n: nat): set<nat>
    requires n <= |approvals| && n <= |statuses|
  {
    set i: nat | i < n && WaitsAt(approvals, statuses, i)
  }

  // A run pauses before each of these, if it is to pause at all.
  lemma {:induction false} SleepsExactly(opener: Opener, machine: Machine, stagger: bool, plan: seq<Planned>,
                                         approvals: seq<Approval>, n: nat)
    requires n <= |plan| == |approvals|
    ensures var run := Executed(opener, machine, stagger, plan, approvals, n);
      && |run.statuses| == n
      && run.sleeps == if stagger then |Waits(approvals, run.statuses, n)| else 0
  {
    if n > 0 {
      var last := n - 1;
      var run := Executed(opener, machine, stagger, plan, approvals, n);
      var before := Executed(opener, machine, stagger, plan, approvals, last);
      SleepsExactly(opener, machine, stagger, plan, approvals, last);
      WaitsMore(approvals, before.statuses, run.statuses, last);
    }
  }

  lemma WaitsMore(approvals: seq<Approval>, before: seq<Status>, after: seq<Status>, n: nat)
    requires n < |approvals| && |before| == n && |after| == n + 1 && after[..n] == before
    ensures |Waits(approvals, after, n + 1)| ==
            |Waits(approvals, before, n)| + if approvals[n].Approved? && Opened in before then 1 else 0
  {
    forall i: nat | i <= n ensures WaitsAt(approvals, after, i) == WaitsAt(approvals, before, i) {
      SameBefore(before, after, n, i);
    }
    assert before[..n] == before;
    var next := n + 1;
    var earlier, all := Waits(approvals, before, n), Waits(approvals, after, next);
    if WaitsAt(approvals, before, n) {
      assert all == earlier + {n};
    } else {
      assert all == earlier;
    }
  }

  lemma SameBefore(before: seq<Status>, after: seq<Status>, n: nat, i: nat)
    requires i <= n == |before| < |after| && after[..n] == before
    ensures after[..i] == before[..i]
  {
    assert after[..n][..i] == after[..i];
  }
}
