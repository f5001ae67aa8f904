/**
 Consent: policy decisions, the user's narrowing and the user's answer become one
 approval for each planned resource, in the daemon and on the command line.
 */
module Consent {
  import opened Wrappers
  import opened Manifest
  import opened Policy
  import opened Resolver

  datatype SkipReason = NotSelected | SkippedByName

  datatype DenyReason = ByPolicy(reason: Reason) | NoDecision | NotGranted | NeedsConsent | Declined

  datatype Approval = Approved | Denied(why: DenyReason) | Skipped(how: SkipReason)

  // ----- policy -----

  function ContextOf(n: Node): Context {
    Context(n.trust, n.expired, n.premature, n.origin.FromRemote?)
  }

  predicate NodesKnown(nodes: seq<Node>, plan: seq<Planned>) {
    forall i :: 0 <= i < |plan| ==> plan[i].node < |nodes|
  }

  function Decided(rules: Rules, nodes: seq<Node>, p: Planned): Planned
    requires p.node < |nodes|
  {
    p.(decision := Some(rules.Evaluate(p.resource.kind, p.tier, ContextOf(nodes[p.node]))))
  }

  function DecidedAll(rules: Rules, nodes: seq<Node>, plan: seq<Planned>): (out: seq<Planned>)
    requires NodesKnown(nodes, plan)
    ensures |out| == |plan|
  {
    seq(|plan|, i requires 0 <= i < |plan| => Decided(rules, nodes, plan[i]))
  }

  // `apply_policy`, in place.
  method ApplyPolicy(rules: Rules, nodes: seq<Node>, resources: array<Planned>)
    requires NodesKnown(nodes, resources[..])
    modifies resources
    ensures resources[..] == DecidedAll(rules, nodes, old(resources[..]))
  {
    for i := 0 to resources.Length
      invariant forall k :: 0 <= k < i ==> resources[k] == Decided(rules, nodes, old(resources[k]))
      invariant forall k :: i <= k < resources.Length ==> resources[k] == old(resources[k])
    {
      resources[i] := Decided(rules, nodes, resources[i]);
    }
  }

  // ----- the daemon -----

  // A client's list can narrow the plan, never widen it.
  predicate Selected(only: seq<string>, p: Planned) {
    only == [] || p.resource.id in only || p.anchor in only
  }

  datatype Item = Item(index: nat, id: string, kind: Kind, target: string, tier: Tier, reasons: seq<Reason>)

  datatype Request = Request(name: string, items: seq<Item>, denied: seq<(Item, Reason)>)

  function ItemOf(index: nat, p: Planned, reasons: seq<Reason>): Item {
    Item(index, p.resource.id, p.resource.kind, p.resource.target, p.tier, reasons)
  }

  // What is settled about a resource before anyone is asked.
  function SlotOf(only: seq<string>, p: Planned): Option<Approval> {
    if !Selected(only, p) then Some(Skipped(NotSelected))
    else
      match p.decision
      case Some(Allow) => Some(Approved)
      case Some(Deny(reason)) => Some(Denied(ByPolicy(reason)))
      case Some(Prompt(_)) => None
      case None => Some(Denied(NoDecision))
  }

  function Slots(only: seq<string>, plan: seq<Planned>): seq<Option<Approval>> {
    seq(|plan|, i requires 0 <= i < |plan| => SlotOf(only, plan[i]))
  }

  // The resources among the first n that are offered, and those shown as refused.
  function Offered(only: seq<string>, plan: seq<Planned>, n: nat): seq<Item>
    requires n <= |plan|
  {
    if n == 0 then []
    else
      var p := plan[n - 1];
      Offered(only, plan, n - 1) +
      if Selected(only, p) && p.decision.Some? && p.decision.value.Prompt?
      then [ItemOf(n - 1, p, p.decision.value.reasons)] else []
  }

  function Refused(only: seq<string>, plan: seq<Planned>, n: nat): seq<(Item, Reason)>
    requires n <= |plan|
  {
    if n == 0 then []
    else
      var p := plan[n - 1];
      Refused(only, plan, n - 1) +
      if Selected(only, p) && p.decision.Some? && p.decision.value.Deny?
      then [(ItemOf(n - 1, p, []), p.decision.value.reason)] else []
  }

  method Prepare(name: string, plan: seq<Planned>, only: seq<string>)
    returns (request: Request, slots: seq<Option<Approval>>)
    ensures slots == Slots(only, plan)
    ensures request == Request(name, Offered(only, plan, |plan|), Refused(only, plan, |plan|))
  {
    var items: seq<Item> := [];
    var denied: seq<(Item, Reason)> := [];
    slots := [];
    for i := 0 to |plan|
      invariant |slots| == i && forall k :: 0 <= k < i ==> slots[k] == SlotOf(only, plan[k])
      invariant items == Offered(only, plan, i) && denied == Refused(only, plan, i)
    {
      var p := plan[i];
      if only != [] && !(p.resource.id in only || p.anchor in only) {
        slots := slots + [Some(Skipped(NotSelected))];
      } else {
        match p.decision {
          case Some(Allow) => slots := slots + [Some(Approved)];
          case Some(Deny(reason)) =>
            denied := denied + [(ItemOf(i, p, []), reason)];
            slots := slots + [Some(Denied(ByPolicy(reason)))];
          case Some(Prompt(reasons)) =>
            slots := slots + [None];
            items := items + [ItemOf(i, p, reasons)];
          case None => slots := slots + [Some(Denied(NoDecision))];
        }
      }
    }
    request := Request(name, items, denied);
  }

  function Settle(slot: Option<Approval>, granted: bool): Approval {
    if slot.Some? then slot.value else if granted then Approved else Denied(NotGranted)
  }

  function Applied(slots: seq<Option<Approval>>, granted: seq<nat>): (out: seq<Approval>)
    ensures |out| == |slots|
  {
    seq(|slots|, i requires 0 <= i < |slots| => Settle(slots[i], i in granted))
  }

  // Only undecided slots are overwritten.
  method Apply(slots: array<Option<Approval>>, granted: seq<nat>) returns (approvals: seq<Approval>)
    modifies slots
    ensures approvals == Applied(old(slots[..]), granted)
  {
    for i := 0 to slots.Length
      invariant forall k :: 0 <= k < i ==> slots[k] == Some(Settle(old(slots[k]), k in granted))
      invariant forall k :: i <= k < slots.Length ==> slots[k] == old(slots[k])
    {
      if slots[i].None? {
        slots[i] := Some(if i in granted then Approved else Denied(NotGranted));
      }
    }
    approvals := seq(slots.Length, i requires 0 <= i < slots.Length && slots[i].Some? reads slots => slots[i].value);
  }

  function DaemonApprovals(only: seq<string>, plan: seq<Planned>, granted: seq<nat>): (out: seq<Approval>)
    ensures |out| == |plan|
  {
    Applied(Slots(only, plan), granted)
  }

  // A resource is approved exactly when it was selected and policy allows it, or asks and
  // the user granted it; whatever else the surface answers has no effect.
  lemma DaemonApproves(only: seq<string>, plan: seq<Planned>, granted: seq<nat>, i: nat)
    requires i < |plan|
    ensures DaemonApprovals(only, plan, granted)[i].Approved? <==>
      && Selected(only, plan[i]) && plan[i].decision.Some?
      && (plan[i].decision.value.Allow? || (plan[i].decision.value.Prompt? && i in granted))
    ensures DaemonApprovals(only, plan, granted)[i].Skipped? <==> !Selected(only, plan[i])
  {
  }

  // What is not approved is marked with why: not selected, denied by policy, without a decision,
  // or asked about and not granted.
  lemma DaemonDenies(only: seq<string>, plan: seq<Planned>, granted: seq<nat>, i: nat)
    requires i < |plan|
    ensures var p, approval := plan[i], DaemonApprovals(only, plan, granted)[i];
      && (approval == Skipped(NotSelected) <==> !Selected(only, p))
      && (forall reason :: approval == Denied(ByPolicy(reason)) <==>
            Selected(only, p) && p.decision == Some(Deny(reason)))
      && (approval == Denied(NoDecision) <==> Selected(only, p) && p.decision.None?)
      && (approval == Denied(NotGranted) <==>
            Selected(only, p) && p.decision.Some? && p.decision.value.Prompt? && i !in granted)
  {
  }

  predicate Offers(items: seq<Item>, i: nat) {
    exists k :: 0 <= k < |items| && items[k].index == i
  }

  lemma OffersMore(items: seq<Item>, item: Item, i: nat)
    ensures Offers(items + [item], i) <==> Offers(items, i) || item.index == i
  {
    var more := items + [item];
    if k :| 0 <= k < |items| && items[k].index == i {
      assert more[k] == items[k];
    }
    assert more[|items|] == item;
  }

  // The request offers exactly the resources whose grant would count.
  lemma {:induction false} OfferedExactly(only: seq<string>, plan: seq<Planned>, n: nat, i: nat)
    requires n <= |plan|
    ensures Offers(Offered(only, plan, n), i) <==> i < n && SlotOf(only, plan[i]).None?
  {
    if n > 0 {
      OfferedExactly(only, plan, n - 1, i);
      var front, p := Offered(only, plan, n - 1), plan[n - 1];
      if SlotOf(only, p).None? {
        OffersMore(front, ItemOf(n - 1, p, p.decision.value.reasons), i);
      } else {
        assert front + [] == front;
      }
    }
  }

  // What is shown of a resource is what it is.
  predicate Shows(item: Item, p: Planned) {
    item.id == p.resource.id && item.kind == p.resource.kind && item.target == p.resource.target && item.tier == p.tier
  }

  // Each is offered as what it is, with the policy's reasons to ask, in plan order.
  lemma {:induction false} OfferedAsIs(only: seq<string>, plan: seq<Planned>, n: nat, k: nat)
    requires n <= |plan| && k < |Offered(only, plan, n)|
    ensures var items := Offered(only, plan, n);
      && items[k].index < n && Selected(only, plan[items[k].index])
      && plan[items[k].index].decision == Some(Prompt(items[k].reasons)) && Shows(items[k], plan[items[k].index])
      && (k + 1 < |items| ==> items[k].index < items[k + 1].index)
  {
    var front := Offered(only, plan, n - 1);
    if k < |front| {
      OfferedAsIs(only, plan, n - 1, k);
    }
  }

  // What is shown as refused is exactly what is selected and denied, with the policy's reason.
  lemma {:induction false} RefusedExactly(only: seq<string>, plan: seq<Planned>, n: nat, item: Item, reason: Reason)
    requires n <= |plan|
    ensures (item, reason) in Refused(only, plan, n) <==>
      && item.index < n && item.reasons == [] && Shows(item, plan[item.index])
      && Selected(only, plan[item.index]) && plan[item.index].decision == Some(Deny(reason))
  {
    if n > 0 {
      RefusedExactly(only, plan, n - 1, item, reason);
    }
  }

  // And in plan order.
  lemma {:induction false} RefusedInOrder(only: seq<string>, plan: seq<Planned>, n: nat, j: nat, k: nat)
    requires n <= |plan| && j < k < |Refused(only, plan, n)|
    ensures Refused(only, plan, n)[j].0.index < Refused(only, plan, n)[k].0.index < n
  {
    var front := Refused(only, plan, n - 1);
    if k < |front| {
      RefusedInOrder(only, plan, n - 1, j, k);
    } else {
      var (item, reason) := front[j];
      assert (item, reason) in front;
      RefusedExactly(only, plan, n - 1, item, reason);
    }
  }

  // ----- the command line -----

  datatype Options = Options(
    only: seq<string>,
    skip: seq<string>,
    yes: bool,
    allowSensitive: bool,
    allowDangerous: bool)
  {
    // The flags that stand for consent, by tier.
    predicate Grants(tier: Tier) {
      match tier
      case Safe => yes || allowSensitive || allowDangerous
      case Sensitive => allowSensitive
      case Dangerous => allowDangerous
    }
  }

  // The user's answer at the prompt: everything, one by one, or nothing.
  datatype Answer = All | Each(yes: nat -> bool) | Nothing {

    predicate Accepts(i: nat) {
      All? || (Each? && yes(i))
    }
  }

  // `terminal` is absent when there is nobody to ask.
  function CliApproval(opts: Options, terminal: Option<Answer>, i: nat, p: Planned): Approval
    requires p.decision.Some?
  {
    if !Selected(opts.only, p) then Skipped(NotSelected)
    else if p.resource.id in opts.skip then Skipped(SkippedByName)
    else
      match p.decision.value
      case Deny(reason) => Denied(ByPolicy(reason))
      case Allow => Approved
      case Prompt(_) =>
        if opts.Grants(p.tier) then Approved
        else if terminal.None? then Denied(NeedsConsent)
        else if terminal.value.Accepts(i) then Approved
        else Denied(Declined)
  }

  predicate AllDecided(plan: seq<Planned>) {
    forall i :: 0 <= i < |plan| ==> plan[i].decision.Some?
  }

  function CliApprovals(opts: Options, terminal: Option<Answer>, plan: seq<Planned>): (out: seq<Approval>)
    requires AllDecided(plan)
    ensures |out| == |plan|
  {
    seq(|plan|, i requires 0 <= i < |plan| => CliApproval(opts, terminal, i, plan[i]))
  }

  // Left for the prompt: policy asks, and no flag answers.
  predicate Pending(opts: Options, p: Planned) {
    && Selected(opts.only, p) && p.resource.id !in opts.skip
    && p.decision.Some? && p.decision.value.Prompt? && !opts.Grants(p.tier)
  }

  // `decide`, with the flags and the prompt; policy must have been applied before.
  method Decide(opts: Options, terminal: Option<Answer>, plan: seq<Planned>) returns (out: seq<Approval>)
    requires AllDecided(plan)
    ensures out == CliApprovals(opts, terminal, plan)
  {
    var approvals := new Option<Approval>[|plan|](_ => None);
    var pending: seq<nat> := [];
    for i := 0 to |plan|
      invariant forall k :: 0 <= k < i ==>
        approvals[k] == if Pending(opts, plan[k]) then None else Some(CliApproval(opts, terminal, k, plan[k]))
      invariant forall k :: i <= k < |plan| ==> approvals[k] == None
      invariant forall k: nat :: k in pending <==> k < i && Pending(opts, plan[k])
    {
      var p := plan[i];
      if opts.only != [] && !(p.resource.id in opts.only || p.anchor in opts.only) {
        approvals[i] := Some(Skipped(NotSelected));
      } else if p.resource.id in opts.skip {
        approvals[i] := Some(Skipped(SkippedByName));
      } else {
        match p.decision.value {
          case Deny(reason) => approvals[i] := Some(Denied(ByPolicy(reason)));
          case Allow => approvals[i] := Some(Approved);
          case Prompt(_) =>
            if opts.Grants(p.tier) {
              approvals[i] := Some(Approved);
            } else {
              pending := pending + [i];
            }
        }
      }
    }
    AskPending(opts, terminal, plan, pending, approvals);
    out := seq(|plan|, i requires 0 <= i < |plan| == approvals.Length && approvals[i].Some? reads approvals =>
      approvals[i].value);
  }

  // The prompt, or its absence, settles what is pending and nothing else.
  method AskPending(opts: Options, terminal: Option<Answer>, plan: seq<Planned>, pending: seq<nat>,
                    approvals: array<Option<Approval>>)
    requires AllDecided(plan) && approvals.Length == |plan|
    requires forall k: nat :: k in pending <==> k < |plan| && Pending(opts, plan[k])
    requires forall k :: 0 <= k < |plan| && !Pending(opts, plan[k]) ==>
      approvals[k] == Some(CliApproval(opts, terminal, k, plan[k]))
    modifies approvals
    ensures forall k :: 0 <= k < |plan| ==> approvals[k] == Some(CliApproval(opts, terminal, k, plan[k]))
  {
    for j := 0 to |pending|
      invariant forall k :: 0 <= k < |plan| && (!Pending(opts, plan[k]) || k in pending[..j]) ==>
        approvals[k] == Some(CliApproval(opts, terminal, k, plan[k]))
    {
      var i := pending[j];
      assert i in pending;
      assert pending[..j + 1] == pending[..j] + [i];
      approvals[i] := Some(
        if terminal.None? then Denied(NeedsConsent)
        else if terminal.value.Accepts(i) then Approved
        else Denied(Declined));
    }
    assert pending[..|pending|] == pending;
  }

  // Approved on the command line: selected, not skipped, and allowed by policy, or asked
  // about and granted by the flag for its tier or at the prompt.
  lemma CliApproves(opts: Options, terminal: Option<Answer>, plan: seq<Planned>, i: nat)
    requires AllDecided(plan) && i < |plan|
    ensures CliApprovals(opts, terminal, plan)[i].Approved? <==>
      && Selected(opts.only, plan[i]) && plan[i].resource.id !in opts.skip
      && (plan[i].decision.value.Allow? ||
          (plan[i].decision.value.Prompt? &&
           (opts.Grants(plan[i].tier) || (terminal.Some? && terminal.value.Accepts(i)))))
    ensures CliApprovals(opts, terminal, plan)[i].Skipped? <==>
      !Selected(opts.only, plan[i]) || plan[i].resource.id in opts.skip
  {
  }

  // And what is not, is marked with why.
  lemma CliDenies(opts: Options, terminal: Option<Answer>, plan: seq<Planned>, i: nat)
    requires AllDecided(plan) && i < |plan|
    ensures var p, approval := plan[i], CliApprovals(opts, terminal, plan)[i];
      && (approval == Skipped(NotSelected) <==> !Selected(opts.only, p))
      && (approval == Skipped(SkippedByName) <==> Selected(opts.only, p) && p.resource.id in opts.skip)
      && (forall reason :: approval == Denied(ByPolicy(reason)) <==>
            Selected(opts.only, p) && p.resource.id !in opts.skip && p.decision == Some(Deny(reason)))
      && (approval == Denied(NeedsConsent) <==> Pending(opts, p) && terminal.None?)
      && (approval == Denied(Declined) <==> Pending(opts, p) && terminal.Some? && !terminal.value.Accepts(i))
  {
  }
}
