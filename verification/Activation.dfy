/**
 Activation from end to end: parse, resolve, apply policy, ask for consent, dispatch.
 What is launched was allowed by policy, or asked about and granted; whatever the
 request, the surface and the machine answer.
 */
module Activation {
  import opened Wrappers
  import opened MurlScheme
  import opened Manifest
  import opened Policy
  import opened Graph
  import opened Resolver
  import opened MurlRoundTrip
  import opened ResolverFrame
  import opened ResolverInvariants
  import opened ResolverNodes
  import opened ResolverSelection
  import opened ResolverSession
  import opened Consent
  import opened Dispatch

  // Everything a request is served with. The surface that asks the user may answer anything.
  datatype Setup = Setup(
    world: World,
    limits: Limits,
    rules: Rules,
    opener: Opener,
    stagger: bool,
    ask: Request -> seq<nat>)

  datatype Response =
    | ParseFailed(problem: ParseError)
    | ActivationFailed(error: Error)
    | PlanShown(plan: seq<Planned>)
    | ConsentGiven(granted: seq<string>, denied: seq<string>)
    | OutcomeReported(report: Report)

  function Resolved(w: World, lim: Limits, m: Murl): Result<Resolution, Error> {
    match ResolveName(w, lim, m)
    case Stop(e, _) => Err(e)
    case Done(st) =>
      ResolveNameKeeps(w, lim, m);
      Finish(st, m.selector)
  }

  // Every planned resource belongs to a resolved manifest.
  lemma ResolvedKnown(w: World, lim: Limits, m: Murl)
    requires Resolved(w, lim, m).Ok?
    ensures var r := Resolved(w, lim, m).value; |r.nodes| > 0 && NodesKnown(r.nodes, r.plan)
  {
    ResolveNameKeeps(w, lim, m);
    var st := ResolveName(w, lim, m).st;
    if m.selector.Some? {
      var kept := RetainKeeps(m.selector.value, st.plan);
    }
  }

  // What became of a resolution: the decided plan, the user's answer, and the run.
  datatype Trace = Trace(plan: seq<Planned>, granted: seq<nat>, approvals: seq<Approval>, run: Run)

  function RequestFor(r: Resolution, plan: seq<Planned>, only: seq<string>): Request
    requires |r.nodes| > 0
  {
    Request(r.nodes[0].doc.name, Offered(only, plan, |plan|), Consent.Refused(only, plan, |plan|))
  }

  function DaemonTrace(s: Setup, machine: Machine, r: Resolution, only: seq<string>): Trace
    requires |r.nodes| > 0 && NodesKnown(r.nodes, r.plan)
  {
    var plan := DecidedAll(s.rules, r.nodes, r.plan);
    var granted := s.ask(RequestFor(r, plan, only));
    var approvals := DaemonApprovals(only, plan, granted);
    Trace(plan, granted, approvals, Executed(s.opener, machine, s.stagger, plan, approvals, |plan|))
  }

  function CliTrace(s: Setup, machine: Machine, r: Resolution, opts: Options, terminal: Option<Answer>): Trace
    requires NodesKnown(r.nodes, r.plan)
  {
    var plan := DecidedAll(s.rules, r.nodes, r.plan);
    var approvals := CliApprovals(opts, terminal, plan);
    Trace(plan, [], approvals, Executed(s.opener, machine, s.stagger, plan, approvals, |plan|))
  }

  // Ids of the first n resources whose approval is of one kind.
  function IdsOf(plan: seq<Planned>, approvals: seq<Approval>, granted: bool, n: nat): seq<string>
    requires n <= |plan| == |approvals|
  {
    if n == 0 then []
    else
      IdsOf(plan, approvals, granted, n - 1) +
      if (if granted then approvals[n - 1].Approved? else approvals[n - 1].Denied?)
      then [plan[n - 1].resource.id] else []
  }

  function Answered(t: Trace): seq<Response>
    requires |t.plan| == |t.approvals|
  {
    [PlanShown(t.plan),
     ConsentGiven(IdsOf(t.plan, t.approvals, true, |t.plan|), IdsOf(t.plan, t.approvals, false, |t.plan|)),
     OutcomeReported(Report(t.run.statuses, AggregateOf(t.plan, t.run.statuses)))]
  }

  method CollectIds(plan: seq<Planned>, approvals: seq<Approval>, granted: bool) returns (ids: seq<string>)
    requires |plan| == |approvals|
    ensures ids == IdsOf(plan, approvals, granted, |plan|)
  {
    ids := [];
    for i := 0 to |plan|
      invariant ids == IdsOf(plan, approvals, granted, i)
    {
      if (if granted then approvals[i].Approved? else approvals[i].Denied?) {
        ids := ids + [plan[i].resource.id];
      }
    }
  }

  // The requests that reached dispatch are counted.
  class Daemon {
    const setup: Setup
    var activations: nat

    constructor (setup: Setup)
      ensures this.setup == setup && activations == 0
    {
      this.setup, activations := setup, 0;
    }

    // `activate`. `attempts` is what the launcher was asked to start.
    method Activate(machine: Machine, text: string, only: seq<string>)
      returns (responses: seq<Response>, attempts: seq<Attempt>)
      modifies this
      ensures match Parse(text)
              case Err(problem) =>
                responses == [ParseFailed(problem)] && attempts == [] && activations == old(activations)
              case Ok(m) =>
                match Resolved(setup.world, setup.limits, m)
                case Err(e) =>
                  responses == [ActivationFailed(e)] && attempts == [] && activations == old(activations)
                case Ok(r) =>
                  && |r.nodes| > 0 && NodesKnown(r.nodes, r.plan)
                  && responses == Answered(DaemonTrace(setup, machine, r, only))
                  && attempts == Attempts(DaemonTrace(setup, machine, r, only).run.launches)
                  && activations == old(activations) + 1
    {
      var parsed := Parse(text);
      if parsed.Err? {
        return [ParseFailed(parsed.error)], [];
      }
      var session := new Session(setup.world, setup.limits);
      var resolved := session.Resolve(parsed.value);
      assert resolved == Resolved(setup.world, setup.limits, parsed.value);
      if resolved.Err? {
        return [ActivationFailed(resolved.error)], [];
      }
      ResolvedKnown(setup.world, setup.limits, parsed.value);
      responses, attempts := Serve(machine, resolved.value, only);
      activations := activations + 1;
    }

    // From a resolution on: policy, consent, dispatch.
    method Serve(machine: Machine, r: Resolution, only: seq<string>)
      returns (responses: seq<Response>, attempts: seq<Attempt>)
      requires |r.nodes| > 0 && NodesKnown(r.nodes, r.plan)
      ensures responses == Answered(DaemonTrace(setup, machine, r, only))
      ensures attempts == Attempts(DaemonTrace(setup, machine, r, only).run.launches)
    {
      var resources := new Planned[|r.plan|](i requires 0 <= i < |r.plan| => r.plan[i]);
      assert resources[..] == r.plan;
      ApplyPolicy(setup.rules, r.nodes, resources);
      var plan := resources[..];

      var request, undecided := Prepare(r.nodes[0].doc.name, plan, only);
      var granted := setup.ask(request);
      var slots := new Option<Approval>[|undecided|](i requires 0 <= i < |undecided| => undecided[i]);
      assert slots[..] == undecided;
      var approvals := Apply(slots, granted);

      var approvedIds := CollectIds(plan, approvals, true);
      var deniedIds := CollectIds(plan, approvals, false);
      var launcher := new Launcher(machine);
      var report := Execute(launcher, setup.opener, setup.stagger, plan, approvals);
      responses := [PlanShown(plan), ConsentGiven(approvedIds, deniedIds), OutcomeReported(report.value)];
      attempts := launcher.attempts;
    }
  }

  // ----- what may be launched -----

  predicate BarredHere(rules: Rules, node: Node, p: Planned) {
    Barred(rules, p.tier, ContextOf(node))
  }

  // Whatever `only` list the client sends and whatever the surface answers: launches follow
  // the plan, each is of a selected resource that policy allows outright, or asks about and
  // that was offered and granted; what policy denies or bars is never launched; and success
  // is reported exactly when nothing was denied, failed or was unavailable.
  lemma DaemonSafe(s: Setup, machine: Machine, r: Resolution, only: seq<string>, k: nat)
    requires |r.nodes| > 0 && NodesKnown(r.nodes, r.plan)
    requires k < |DaemonTrace(s, machine, r, only).run.launches|
    ensures var t := DaemonTrace(s, machine, r, only);
      var i := t.run.launches[k].index;
      && i < |r.plan| && |t.plan| == |r.plan| && t.plan[i].decision.Some?
      && Selected(only, t.plan[i])
      && (t.plan[i].decision.value.Allow? ||
          (t.plan[i].decision.value.Prompt? && i in t.granted && Offers(Offered(only, t.plan, |t.plan|), i)))
      && !t.plan[i].decision.value.Deny?
      && !BarredHere(s.rules, r.nodes[r.plan[i].node], r.plan[i])
  {
    var t := DaemonTrace(s, machine, r, only);
    LaunchesFollowPlan(s.opener, machine, s.stagger, t.plan, t.approvals, |t.plan|);
    var i := t.run.launches[k].index;
    DaemonApproves(only, t.plan, t.granted, i);
    OfferedExactly(only, t.plan, |t.plan|, i);
    DeniesExactly(s.rules, r.plan[i].resource.kind, r.plan[i].tier, ContextOf(r.nodes[r.plan[i].node]));
  }

  // The launches are a subsequence of the plan, one at most for each resource, and the
  // aggregate is a success exactly when no resource was denied, failed or was unavailable.
  lemma DaemonReports(s: Setup, machine: Machine, r: Resolution, only: seq<string>)
    requires |r.nodes| > 0 && NodesKnown(r.nodes, r.plan)
    ensures var t := DaemonTrace(s, machine, r, only);
      && Follows(machine, t.approvals, t.run, |r.plan|)
      && (AggregateOf(t.plan, t.run.statuses) == Success <==>
            forall i :: 0 <= i < |t.run.statuses| ==> !IsMiss(t.run.statuses[i]))
  {
    var t := DaemonTrace(s, machine, r, only);
    LaunchesFollowPlan(s.opener, machine, s.stagger, t.plan, t.approvals, |t.plan|);
    SuccessExactly(t.plan, t.run.statuses);
  }

  // The same on the command line, where a flag for the tier may stand for the user's answer.
  lemma CliSafe(s: Setup, machine: Machine, r: Resolution, opts: Options, terminal: Option<Answer>, k: nat)
    requires NodesKnown(r.nodes, r.plan)
    requires k < |CliTrace(s, machine, r, opts, terminal).run.launches|
    ensures var t := CliTrace(s, machine, r, opts, terminal);
      var i := t.run.launches[k].index;
      && i < |r.plan| && |t.plan| == |r.plan| && t.plan[i].decision.Some?
      && Selected(opts.only, t.plan[i]) && t.plan[i].resource.id !in opts.skip
      && (t.plan[i].decision.value.Allow? ||
          (t.plan[i].decision.value.Prompt? &&
           (opts.Grants(t.plan[i].tier) || (terminal.Some? && terminal.value.Accepts(i)))))
      && !t.plan[i].decision.value.Deny?
      && !BarredHere(s.rules, r.nodes[r.plan[i].node], r.plan[i])
  {
    var t := CliTrace(s, machine, r, opts, terminal);
    LaunchesFollowPlan(s.opener, machine, s.stagger, t.plan, t.approvals, |t.plan|);
    var i := t.run.launches[k].index;
    CliApproves(opts, terminal, t.plan, i);
    DeniesExactly(s.rules, r.plan[i].resource.kind, r.plan[i].tier, ContextOf(r.nodes[r.plan[i].node]));
  }

  // A resource is launched exactly when it is selected, policy allows it or asks and it was
  // granted, and there is a configured attempt at it: nothing consented to is left out.
  lemma DaemonExactly(s: Setup, machine: Machine, r: Resolution, only: seq<string>, i: nat)
    requires |r.nodes| > 0 && NodesKnown(r.nodes, r.plan) && i < |r.plan|
    ensures var t := DaemonTrace(s, machine, r, only);
      && |t.plan| == |r.plan| && t.plan[i].decision.Some?
      && (Launched(t.run.launches, i) <==>
            && (only == [] || r.plan[i].resource.id in only || r.plan[i].anchor in only)
            && (t.plan[i].decision.value.Allow? || (t.plan[i].decision.value.Prompt? && i in t.granted))
            && CanAttempt(s.opener, machine, MadeBefore(t.run.launches, i), r.plan[i].resource))
  {
    var t := DaemonTrace(s, machine, r, only);
    DaemonApproves(only, t.plan, t.granted, i);
    RunExactly(s.opener, machine, s.stagger, t.plan, t.approvals, |t.plan|, i);
  }

  // Every flag covers safe resources, and each of the other two its own tier.
  predicate FlagFor(opts: Options, tier: Tier) {
    || (tier == Safe && (opts.yes || opts.allowSensitive || opts.allowDangerous))
    || (tier == Sensitive && opts.allowSensitive) || (tier == Dangerous && opts.allowDangerous)
  }

  // At a terminal, to all or to this one.
  predicate AnsweredYes(terminal: Option<Answer>, i: nat) {
    terminal == Some(All) || (terminal.Some? && terminal.value.Each? && terminal.value.yes(i))
  }

  lemma CliExactly(s: Setup, machine: Machine, r: Resolution, opts: Options, terminal: Option<Answer>, i: nat)
    requires NodesKnown(r.nodes, r.plan) && i < |r.plan|
    ensures var t := CliTrace(s, machine, r, opts, terminal);
      && |t.plan| == |r.plan| && t.plan[i].decision.Some?
      && (Launched(t.run.launches, i) <==>
            && (opts.only == [] || r.plan[i].resource.id in opts.only || r.plan[i].anchor in opts.only)
            && r.plan[i].resource.id !in opts.skip
            && (t.plan[i].decision.value.Allow? ||
                (t.plan[i].decision.value.Prompt? && (FlagFor(opts, r.plan[i].tier) || AnsweredYes(terminal, i))))
            && CanAttempt(s.opener, machine, MadeBefore(t.run.launches, i), r.plan[i].resource))
  {
    var t := CliTrace(s, machine, r, opts, terminal);
    CliApproves(opts, terminal, t.plan, i);
    RunExactly(s.opener, machine, s.stagger, t.plan, t.approvals, |t.plan|, i);
  }

  predicate IsOf(approval: Approval, granted: bool) {
    if granted then approval.Approved? else approval.Denied?
  }

  // The resources, by rising position, that a list of ids is of.
  predicate IdsAt(plan: seq<Planned>, approvals: seq<Approval>, granted: bool, n: nat, ids: seq<string>, at: seq<nat>)
    requires n <= |plan| == |approvals|
  {
    && |at| == |ids|
    && (forall k :: 0 <= k < |at| ==>
          at[k] < n && IsOf(approvals[at[k]], granted) && ids[k] == plan[at[k]].resource.id)
    && (forall j, k :: 0 <= j < k < |at| ==> at[j] < at[k])
    && (forall i: nat :: i < n && IsOf(approvals[i], granted) ==> i in at)
  }

  lemma IdsMore(plan: seq<Planned>, approvals: seq<Approval>, granted: bool, n: nat, ids: seq<string>, at: seq<nat>)
    requires n < |plan| == |approvals| && IdsAt(plan, approvals, granted, n, ids, at)
    ensures IsOf(approvals[n], granted) ==>
      IdsAt(plan, approvals, granted, n + 1, ids + [plan[n].resource.id], at + [n])
    ensures !IsOf(approvals[n], granted) ==> IdsAt(plan, approvals, granted, n + 1, ids, at)
  {
    if IsOf(approvals[n], granted) {
      var more := at + [n];
      assert forall k :: 0 <= k < |at| ==> more[k] == at[k];
      assert more[|at|] == n;
      forall i: nat | i < n + 1 && IsOf(approvals[i], granted) ensures i in more {
        assert i in at || i == n;
      }
    }
  }

  lemma IdsStep(plan: seq<Planned>, approvals: seq<Approval>, granted: bool, n: nat)
    requires n < |plan| == |approvals|
    ensures IdsOf(plan, approvals, granted, n + 1) ==
      if IsOf(approvals[n], granted) then IdsOf(plan, approvals, granted, n) + [plan[n].resource.id]
      else IdsOf(plan, approvals, granted, n)
  {
    assert IdsOf(plan, approvals, granted, n) + [] == IdsOf(plan, approvals, granted, n);
  }

  // The ids a client is told of are those of the resources approved, or denied, in plan order.
  lemma {:induction false} IdsExactly(plan: seq<Planned>, approvals: seq<Approval>, granted: bool, n: nat)
    returns (at: seq<nat>)
    requires n <= |plan| == |approvals|
    ensures IdsAt(plan, approvals, granted, n, IdsOf(plan, approvals, granted, n), at)
  {
    if n == 0 {
      at := [];
    } else {
      var last := n - 1;
      at := IdsExactly(plan, approvals, granted, last);
      IdsStep(plan, approvals, granted, last);
      IdsMore(plan, approvals, granted, last, IdsOf(plan, approvals, granted, last), at);
      if IsOf(approvals[last], granted) {
        at := at + [last];
      }
    }
  }

  // With nobody to ask and no flags, only what policy allows outright is launched.
  lemma ClosedByDefault(s: Setup, machine: Machine, r: Resolution, only: seq<string>, skip: seq<string>, k: nat)
    requires NodesKnown(r.nodes, r.plan)
    requires var opts := Options(only, skip, false, false, false);
      k < |CliTrace(s, machine, r, opts, None).run.launches|
    ensures var t := CliTrace(s, machine, r, Options(only, skip, false, false, false), None);
      t.run.launches[k].index < |t.plan| && t.plan[t.run.launches[k].index].decision == Some(Allow)
  {
    CliSafe(s, machine, r, Options(only, skip, false, false, false), None, k);
  }

  // From a name to a launch: a dangerous resource starts only if the policy waives trust, or
  // its manifest is a local name or is signed by a key pinned for the authority it was asked
  // from; and nothing but a safe resource starts from a manifest outside its validity window.
  lemma LaunchedFromTrusted(s: Setup, machine: Machine, m: Murl, only: seq<string>, r: Resolution, k: nat)
    returns (i: nat, n: nat)
    requires Sound(s.world) && Valid(m) && Resolved(s.world, s.limits, m) == Ok(r)
    requires |r.nodes| > 0 && NodesKnown(r.nodes, r.plan)
    requires k < |DaemonTrace(s, machine, r, only).run.launches|
    ensures i == DaemonTrace(s, machine, r, only).run.launches[k].index && i < |r.plan|
    ensures n == r.plan[i].node && n < |LogOf(ResolveName(s.world, s.limits, m))|
    ensures var name := LogOf(ResolveName(s.world, s.limits, m))[n];
      var doc := r.nodes[n].doc;
      && NodeFound(s.world, s.limits, name, r.nodes[n])
      && (r.plan[i].tier.Dangerous? && s.rules.dangerousRequiresTrust ==>
            name.authority.Local? || SignedByPinned(s.world, name, doc))
      && (!r.plan[i].tier.Safe? ==>
            && (doc.expires.Some? ==> s.world.now < doc.expires.value)
            && (doc.notBefore.Some? ==> doc.notBefore.value <= s.world.now))
  {
    DaemonSafe(s, machine, r, only, k);
    i := DaemonTrace(s, machine, r, only).run.launches[k].index;
    n := r.plan[i].node;
    NodeOfName(s.world, s.limits, m, r, n);
  }

  lemma NodeOfName(w: World, lim: Limits, m: Murl, r: Resolution, n: nat)
    requires Sound(w) && Valid(m) && Resolved(w, lim, m) == Ok(r) && n < |r.nodes|
    ensures n < |LogOf(ResolveName(w, lim, m))| && NodeFound(w, lim, LogOf(ResolveName(w, lim, m))[n], r.nodes[n])
  {
    ResolvedNodes(w, lim, m);
    assert NodeFound(w, lim, ResolveName(w, lim, m).st.log[n], r.nodes[n + 0]);
  }

  // Trusted: from this machine, or signed by a key pinned for the authority it was asked from.
  predicate TrustedAs(w: World, name: Murl, doc: Doc) {
    name.authority.Local? || SignedByPinned(w, name, doc)
  }

  predicate OutOfWindow(w: World, doc: Doc) {
    (doc.expires.Some? && doc.expires.value <= w.now) || (doc.notBefore.Some? && w.now < doc.notBefore.value)
  }

  // A path that a manifest of another machine points at.
  predicate PointsHere(name: Murl, kind: Kind) {
    !name.authority.Local? && kind.IsFilesystem()
  }

  // From a name to a decision, in terms of the manifest a resource comes from and the name that
  // was looked up by: allowed outright and denied exactly when the rules say so.
  lemma DecisionExactly(s: Setup, m: Murl, r: Resolution, i: nat) returns (n: nat)
    requires Sound(s.world) && Valid(m) && Resolved(s.world, s.limits, m) == Ok(r)
    requires NodesKnown(r.nodes, r.plan) && i < |r.plan|
    ensures n == r.plan[i].node && n < |LogOf(ResolveName(s.world, s.limits, m))|
    ensures var name := LogOf(ResolveName(s.world, s.limits, m))[n];
      var p, doc, decision := r.plan[i], r.nodes[n].doc, DecidedAll(s.rules, r.nodes, r.plan)[i].decision;
      && decision.Some?
      && (decision.value.Allow? <==>
            && TierMode(s.rules, p.tier).AllowMode? && !OutOfWindow(s.world, doc)
            && (PointsHere(name, p.resource.kind) ==> s.rules.remoteFilesystemRefs.AllowMode?)
            && (p.tier.Dangerous? ==> TrustedAs(s.world, name, doc)))
      && (decision.value.Deny? <==>
            || (p.tier.Dangerous? && s.rules.dangerousRequiresTrust && !TrustedAs(s.world, name, doc))
            || (!p.tier.Safe? && OutOfWindow(s.world, doc))
            || TierMode(s.rules, p.tier).DenyMode?
            || (PointsHere(name, p.resource.kind) && s.rules.remoteFilesystemRefs.DenyMode?))
  {
    n := r.plan[i].node;
    NodeOfName(s.world, s.limits, m, r, n);
    var p, ctx := r.plan[i], ContextOf(r.nodes[n]);
    AllowsExactly(s.rules, p.resource.kind, p.tier, ctx);
    DeniesExactly(s.rules, p.resource.kind, p.tier, ctx);
  }
}
