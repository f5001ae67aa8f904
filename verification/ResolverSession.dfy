/**
 The resolver as it runs: one mutable state updated in loops and recursion, and
 a cache written to while the resolution goes on. The methods compute the
 functions of module Resolver, which read the cache as it was at the start:
 no identity is looked up twice, so the two are the same.
 */
module ResolverSession {
  import opened Wrappers
  import opened MurlScheme
  import opened Manifest
  import opened Policy
  import opened Graph
  import opened Store
  import opened Resolver
  import opened ResolverInvariants
  import Cache

  // ----- what the methods compute -----

  // One resource, with everything nested in it.
  function RoundOutcome(w: World, lim: Limits, st: State, fr: Frame, r: Resource): Outcome
    requires fr.Valid(lim)
  {
    match OneRound(w, lim, st, fr, r)
    case Halt(e, log) => Stop(e, log)
    case Next(st1) => Done(st1)
    case Into(st2, inner, id) =>
      match Splice(w, lim, st2, inner, 0)
      case Stop(e, log) => Stop(e, log)
      case Done(st3) => Done(Leave(st3, id))
  }

  lemma SpliceByRounds(w: World, lim: Limits, st: State, fr: Frame, k: nat)
    requires fr.At(lim, k) && k < |fr.order|
    ensures Splice(w, lim, st, fr, k) ==
      match RoundOutcome(w, lim, st, fr, fr.doc.resources[fr.order[k]])
      case Stop(e, log) => Stop(e, log)
      case Done(st1) => Splice(w, lim, st1, fr, k + 1)
  {
  }

  function BytesOutcome(w: World, lim: Limits, st: State, name: Option<Murl>, bytes: string, origin: Origin,
                        depth: nat, anchor: Option<string>): Outcome
    requires depth <= lim.maxDepth
  {
    match Open(w, lim, st, name, bytes, origin, depth, anchor)
    case Err(e) => Stop(e, st.log)
    case Ok((st1, fr)) => Splice(w, lim, st1, fr, 0)
  }

  function NamedOutcome(w: World, lim: Limits, st: State, m: Murl, depth: nat, anchor: Option<string>,
                        pin: Option<string>): Outcome
    requires depth <= lim.maxDepth
  {
    match Arrive(w, lim, st, m, depth, anchor, pin)
    case Err((e, log)) => Stop(e, log)
    case Ok((st1, fr)) => Splice(w, lim, st1, fr, 0)
  }

  lemma NestedOutcome(w: World, lim: Limits, st: State, fr: Frame, r: Resource, st1: State, depth: nat)
    requires fr.Valid(lim) && r.kind.Nested? && Admit(lim, st, fr, r, r.kind.child) == Descend(st1)
    requires depth == fr.depth + 1
    ensures depth <= lim.maxDepth
    ensures RoundOutcome(w, lim, st, fr, r) ==
      match NamedOutcome(w, lim, st1, r.kind.child, depth, Some(fr.Anchor(r)), r.integrity)
      case Stop(e, log) => Stop(e, log)
      case Done(st3) => Done(Leave(st3, Identity(r.kind.child)))
  {
    DescendRound(w, lim, st, fr, r, st1, depth);
  }

  lemma RefusedOutcome(w: World, lim: Limits, st: State, fr: Frame, r: Resource)
    requires fr.Valid(lim) && r.kind.Nested?
    ensures match Admit(lim, st, fr, r, r.kind.child)
            case Refuse(e) => RoundOutcome(w, lim, st, fr, r) == Stop(e, st.log)
            case Skip(st1) => RoundOutcome(w, lim, st, fr, r) == Done(st1)
            case Descend(_) => true
  {
  }

  // A named manifest refused before its bytes are looked at.
  lemma NamedRefused(w: World, lim: Limits, st: State, m: Murl, depth: nat, anchor: Option<string>, pin: Option<string>)
    requires depth <= lim.maxDepth
    ensures st.manifests + 1 > lim.maxNestedManifests ==>
      NamedOutcome(w, lim, st, m, depth, anchor, pin) == Stop(TooManyManifests, st.log)
    ensures st.manifests + 1 <= lim.maxNestedManifests && Locate(w, lim, m).Err? ==>
      NamedOutcome(w, lim, st, m, depth, anchor, pin) == Stop(Locate(w, lim, m).error, st.log + [m])
    ensures st.manifests + 1 <= lim.maxNestedManifests && Locate(w, lim, m).Ok?
            && pin.Some? && !w.intact(Locate(w, lim, m).value.bytes, pin.value) ==>
      NamedOutcome(w, lim, st, m, depth, anchor, pin) == Stop(IntegrityMismatch, st.log + [m])
  {
  }

  // One that was found and fits its pin is opened.
  lemma NamedOpens(w: World, lim: Limits, st: State, m: Murl, depth: nat, anchor: Option<string>, pin: Option<string>,
                   found: Found, st1: State)
    requires depth <= lim.maxDepth && st.manifests + 1 <= lim.maxNestedManifests
    requires Locate(w, lim, m) == Ok(found) && (pin.Some? ==> w.intact(found.bytes, pin.value))
    requires st1 == st.(manifests := st.manifests + 1, log := st.log + [m], warnings := st.warnings + found.warnings)
    ensures var opening := Open(w, lim, st1, Some(m), found.bytes, found.origin, depth, anchor);
      && (opening.Ok? ==> Arrive(w, lim, st, m, depth, anchor, pin) == Ok(opening.value))
      && NamedOutcome(w, lim, st, m, depth, anchor, pin) ==
         BytesOutcome(w, lim, st1, Some(m), found.bytes, found.origin, depth, anchor)
  {
  }

  lemma FinishIgnoresStack(st: State, stack: seq<string>, selector: Option<seq<SelectorItem>>)
    requires |st.nodes| > 0
    ensures Finish(st.(stack := stack), selector) == Finish(st, selector)
  {
  }

  lemma ResolveIsNamed(w: World, lim: Limits, m: Murl)
    ensures ResolveName(w, lim, m) == NamedOutcome(w, lim, EMPTY_STATE.(stack := [Identity(m)]), m, 0, None, None)
  {
  }

  lemma RoundOutcomeNames(w: World, lim: Limits, files: nat, st: State, fr: Frame, r: Resource)
    requires fr.Valid(lim) && Standing(lim, files, st, fr)
    ensures match RoundOutcome(w, lim, st, fr, r)
            case Stop(_, _) => true
            case Done(st1) => Standing(lim, files, st1, fr)
  {
    RoundNames(w, lim, files, st, fr, r);
    match OneRound(w, lim, st, fr, r) {
      case Halt(_, _) =>
      case Next(_) =>
      case Into(st2, inner, id) =>
        SpliceNames(w, lim, files, st2, inner, 0);
        var nested := Splice(w, lim, st2, inner, 0);
        if nested.Done? {
          NamesLeave(lim, files, nested.st, st.stack, id);
        }
    }
  }

  // ----- the cache while the resolution runs -----

  function Slot(cache: Option<map<string, Cache.Entry>>, id: string): Option<Cache.Entry> {
    if cache.Some? && id in cache.value then Some(cache.value[id]) else None
  }

  // The live cache holds what it held at the start for every name not looked up yet.
  ghost predicate Unspent(w: World, cache: Option<map<string, Cache.Entry>>, log: seq<Murl>) {
    forall id :: !Logged(log, id) ==> Slot(cache, id) == Slot(w.cache, id)
  }

  lemma UnspentMore(w: World, cache: Option<map<string, Cache.Entry>>, log: seq<Murl>, m: Murl, e: Cache.Entry)
    requires Unspent(w, cache, log)
    ensures Unspent(w, cache, log + [m])
    ensures cache.Some? ==> Unspent(w, Some(cache.value[Identity(m) := e]), log + [m])
  {
    var more := log + [m];
    assert Identity(more[|log|]) == Identity(m);
    forall id | Logged(log, id) ensures Logged(more, id) {
      var i :| 0 <= i < |log| && Identity(log[i]) == id;
      assert more[i] == log[i];
    }
  }

  // A state in which `m` was put on the stack and is looked up next.
  ghost predicate Entering(lim: Limits, files: nat, st: State, m: Murl, depth: nat) {
    && st.stack != []
    && Names(lim, files, st.(stack := st.stack[..|st.stack| - 1]))
    && st.stack == st.stack[..|st.stack| - 1] + [Identity(m)]
    && Identity(m) !in st.stack[..|st.stack| - 1] && Identity(m) !in st.visited
    && |st.stack| + files == depth + 1
  }

  lemma EnteringIsNew(lim: Limits, files: nat, st: State, m: Murl, depth: nat)
    requires Entering(lim, files, st, m, depth)
    ensures !Logged(st.log, Identity(m))
  {
  }

  lemma EnteredNames(w: World, lim: Limits, files: nat, st: State, m: Murl, depth: nat, anchor: Option<string>,
                     pin: Option<string>)
    requires depth <= lim.maxDepth && Entering(lim, files, st, m, depth)
    ensures match Arrive(w, lim, st, m, depth, anchor, pin)
            case Err(_) => true
            case Ok((st1, fr)) => Standing(lim, files, st1, fr)
  {
    var arrived := Arrive(w, lim, st, m, depth, anchor, pin);
    if arrived.Ok? {
      ArriveNames(w, lim, files, st, m, depth, anchor, pin);
      NamesEntered(lim, files, st.(stack := st.stack[..|st.stack| - 1]), arrived.value.0, m);
    }
  }

  lemma AdmitEnters(lim: Limits, files: nat, st: State, fr: Frame, r: Resource)
    requires fr.Valid(lim) && r.kind.Nested? && Standing(lim, files, st, fr)
    ensures var v := Admit(lim, st, fr, r, r.kind.child);
      v.Descend? ==> Entering(lim, files, v.st, r.kind.child, fr.depth + 1)
  {
    var v := Admit(lim, st, fr, r, r.kind.child);
    if v.Descend? {
      assert v.st.stack[..|v.st.stack| - 1] == st.stack;
    }
  }

  // What holds between two resources of a frame.
  ghost predicate Standing(lim: Limits, files: nat, st: State, fr: Frame) {
    Names(lim, files, st) && Height(files, st, fr)
  }

  class Session {
    const world: World
    const limits: Limits
    var cache: Option<map<string, Cache.Entry>>
    var nodes: seq<Node>
    var plan: seq<Planned>
    var warnings: seq<Warning>
    var stack: seq<string>
    var visited: set<string>
    var dedup: set<Key>
    var manifests: nat
    ghost var log: seq<Murl>

    constructor (w: World, lim: Limits)
      ensures world == w && limits == lim && cache == w.cache && Value() == EMPTY_STATE
    {
      world, limits, cache := w, lim, w.cache;
      nodes, plan, warnings, stack, visited, dedup, manifests := [], [], [], [], {}, {}, 0;
      log := [];
    }

    ghost function Value(): State
      reads this
    {
      State(nodes, plan, warnings, stack, visited, dedup, manifests, log)
    }

    ghost predicate CacheKept()
      reads this
    {
      (cache.Some? <==> world.cache.Some?) && Unspent(world, cache, log)
    }

    // The outcome a method promised is what it returned and left behind.
    ghost predicate Agrees(o: Outcome, r: Option<Error>)
      reads this
    {
      match o
      case Stop(e, l) => r == Some(e) && log == l
      case Done(st) => r == None && Value() == st && CacheKept()
    }

    // `locate`: local store, else fresh cache, else network, else a stale copy.
    // A fetched manifest goes into the cache.
    method LocateNamed(m: Murl) returns (r: Result<(string, Origin), Error>)
      requires CacheKept() && !Logged(log, Identity(m))
      modifies this`warnings, this`cache, this`log
      ensures log == old(log) + [m] && CacheKept()
      ensures match Locate(world, limits, m)
              case Err(e) => r == Err(e)
              case Ok(found) => r == Ok((found.bytes, found.origin)) && warnings == old(warnings) + found.warnings
    {
      UnspentMore(world, cache, log, m, Cache.Entry([], [], 0));
      ghost var looked := log;
      log := log + [m];
      if m.authority.Local? {
        var path := ManifestPath(m);
        if path in world.store {
          assert warnings == warnings + [];
          return Ok((world.store[path], FromStore(path)));
        }
        return Err(NotInStore(Identity(m)));
      }
      var id := Identity(m);
      var cached := Slot(cache, id);
      assert cached == CachedEntry(world, id);
      if cached.Some? && Cache.Fresh(Ttl(limits, m), cached.value.fetchedAt, world.now) {
        assert warnings == warnings + [];
        return Ok((cached.value.bytes, FromRemote(cached.value.url, true)));
      }
      r := Fetch(m, cached, looked);
    }

    method Fetch(m: Murl, cached: Option<Cache.Entry>, ghost looked: seq<Murl>)
      returns (r: Result<(string, Origin), Error>)
      requires !m.authority.Local? && cached == CachedEntry(world, Identity(m))
      requires !(cached.Some? && Cache.Fresh(Ttl(limits, m), cached.value.fetchedAt, world.now))
      requires CacheKept() && log == looked + [m] && Unspent(world, cache, looked)
      modifies this`warnings, this`cache
      ensures CacheKept()
      ensures match Locate(world, limits, m)
              case Err(e) => r == Err(e)
              case Ok(found) => r == Ok((found.bytes, found.origin)) && warnings == old(warnings) + found.warnings
    {
      var id, url := Identity(m), WellKnownUrl(m);
      match world.remote {
        case Some(fetch) =>
          var answer := fetch(url);
          if answer.Ok? {
            if |answer.value| > limits.maxManifestBytes {
              return Err(ManifestTooLarge(|answer.value|));
            }
            if cache.Some? {
              var entry := Cache.Entry(answer.value, url, world.now);
              UnspentMore(world, cache, looked, m, entry);
              cache := Some(cache.value[id := entry]);
            }
            assert warnings == warnings + [];
            return Ok((answer.value, FromRemote(url, false)));
          }
          if cached.Some? {
            warnings := warnings + [StaleCache(id, cached.value.url, answer.error)];
            return Ok((cached.value.bytes, FromRemote(cached.value.url, true)));
          }
          return Err(FetchFailed(answer.error));
        case None =>
          if cached.Some? {
            warnings := warnings + [OfflineCopy(id, cached.value.url)];
            return Ok((cached.value.bytes, FromRemote(cached.value.url, true)));
          }
          return Err(Offline(id));
      }
    }

    method IngestNamed(m: Murl, depth: nat, anchor: Option<string>, pin: Option<string>, ghost files: nat)
      returns (r: Option<Error>)
      requires depth <= limits.maxDepth && CacheKept() && Entering(limits, files, Value(), m, depth)
      modifies this
      ensures Agrees(NamedOutcome(world, limits, old(Value()), m, depth, anchor, pin), r)
      decreases limits.maxDepth - depth, 3
    {
      ghost var st := Value();
      EnteringIsNew(limits, files, st, m, depth);
      EnteredNames(world, limits, files, st, m, depth, anchor, pin);
      NamedRefused(world, limits, st, m, depth, anchor, pin);
      manifests := manifests + 1;
      if manifests > limits.maxNestedManifests {
        return Some(TooManyManifests);
      }
      var located := LocateNamed(m);
      match located {
        case Err(e) => return Some(e);
        case Ok((bytes, origin)) =>
          if pin.Some? && !world.intact(bytes, pin.value) {
            return Some(IntegrityMismatch);
          }
          NamedOpens(world, limits, st, m, depth, anchor, pin, Locate(world, limits, m).value, Value());
          r := IngestBytes(Some(m), bytes, origin, depth, anchor, files);
      }
    }

    method IngestBytes(name: Option<Murl>, bytes: string, origin: Origin, depth: nat, anchor: Option<string>,
                       ghost files: nat) returns (r: Option<Error>)
      requires depth <= limits.maxDepth && CacheKept()
      requires match Open(world, limits, Value(), name, bytes, origin, depth, anchor)
               case Err(_) => true
               case Ok((st, fr)) => Standing(limits, files, st, fr)
      modifies this
      ensures Agrees(BytesOutcome(world, limits, old(Value()), name, bytes, origin, depth, anchor), r)
      decreases limits.maxDepth - depth, 2
    {
      ghost var st0 := Value();
      if |bytes| > limits.maxManifestBytes {
        return Some(ManifestTooLarge(|bytes|));
      }
      var decoded := world.decode(bytes);
      if decoded.Err? {
        return Some(BadManifest(decoded.error));
      }
      var doc := decoded.value;
      if name.Some? && doc.id.Some? && !Binds(doc.id.value, name.value) {
        return Some(Relabeled(Identity(doc.id.value), Identity(name.value)));
      }
      var about := About(origin, name);
      warnings := warnings + OpenWarnings(world, about, doc);
      var at := |nodes|;
      nodes := nodes + [MakeNode(world, name, bytes, origin, doc, depth)];
      var order := ComputeOrder(doc.resources);
      if order.Err? {
        return Some(DependencyCycle(order.error));
      }
      var fr := Frame(name, about, doc, order.value, at, depth, anchor, SourceLocality(origin, name));
      assert Open(world, limits, st0, name, bytes, origin, depth, anchor) == Ok((Value(), fr));
      r := SpliceAll(fr, files);
    }

    // The loop over the resources of one manifest.
    method SpliceAll(fr: Frame, ghost files: nat) returns (r: Option<Error>)
      requires fr.Valid(limits) && CacheKept() && Standing(limits, files, Value(), fr)
      modifies this
      ensures Agrees(Splice(world, limits, old(Value()), fr, 0), r)
      decreases limits.maxDepth - fr.depth, 1
    {
      ghost var st0 := Value();
      var k := 0;
      while k < |fr.order|
        invariant k <= |fr.order| && CacheKept() && Standing(limits, files, Value(), fr)
        invariant Splice(world, limits, Value(), fr, k) == Splice(world, limits, st0, fr, 0)
      {
        var resource := fr.doc.resources[fr.order[k]];
        SpliceByRounds(world, limits, Value(), fr, k);
        RoundOutcomeNames(world, limits, files, Value(), fr, resource);
        if resource.kind.Nested? {
          r := SpliceNested(fr, resource, files);
        } else {
          r := SpliceLeaf(fr, resource);
        }
        if r.Some? {
          return;
        }
        k := k + 1;
      }
      r := None;
    }

    // What is decided about a nested name before anything is looked up for it;
    // Ok(true) says to go into it.
    method AdmitNested(fr: Frame, resource: Resource, child: Murl) returns (r: Result<bool, Error>)
      modifies this`warnings, this`stack
      ensures match Admit(limits, old(Value()), fr, resource, child)
              case Refuse(e) => r == Err(e)
              case Skip(st) => r == Ok(false) && Value() == st
              case Descend(st) => r == Ok(true) && Value() == st
    {
      var id := Identity(child);
      if LocalityOf(child.authority).Distance() < fr.source.Distance() {
        return Err(NearerName(id));
      }
      if fr.depth + 1 > limits.maxDepth {
        return Err(TooDeep(id));
      }
      if id in stack {
        return Err(Cycle(stack, id));
      }
      warnings := warnings + SelectorNote(fr, resource, child);
      if id in visited {
        warnings := warnings + [AlreadyResolved(fr.about, id)];
        return Ok(false);
      }
      warnings := warnings + CrossingNote(fr, child);
      stack := stack + [id];
      return Ok(true);
    }

    method SpliceNested(fr: Frame, resource: Resource, ghost files: nat) returns (r: Option<Error>)
      requires fr.Valid(limits) && CacheKept() && Standing(limits, files, Value(), fr)
      requires resource.kind.Nested?
      modifies this
      ensures Agrees(RoundOutcome(world, limits, old(Value()), fr, resource), r)
      decreases limits.maxDepth - fr.depth, 0
    {
      ghost var st := Value();
      var child, depth := resource.kind.child, fr.depth + 1;
      RefusedOutcome(world, limits, st, fr, resource);
      AdmitEnters(limits, files, st, fr, resource);
      var admitted := AdmitNested(fr, resource, child);
      if admitted.Err? {
        return Some(admitted.error);
      }
      if !admitted.value {
        return None;
      }
      NestedOutcome(world, limits, st, fr, resource, Value(), depth);
      r := IngestNamed(child, depth, Some(fr.Anchor(resource)), resource.integrity, files);
      if r.None? {
        stack := if stack == [] then [] else stack[..|stack| - 1];
        visited := visited + {Identity(child)};
      }
    }

    method SpliceLeaf(fr: Frame, resource: Resource) returns (r: Option<Error>)
      requires fr.Valid(limits) && CacheKept() && !resource.kind.Nested?
      modifies this
      ensures Agrees(RoundOutcome(world, limits, old(Value()), fr, resource), r)
    {
      if |plan| + 1 > limits.maxTotalResources {
        return Some(TooManyResources);
      }
      if KeyOf(resource) in dedup {
        warnings := warnings + [DuplicateResource(fr.about, resource.kind, resource.target)];
        return None;
      }
      dedup := dedup + {KeyOf(resource)};
      plan := plan + [PlannedOf(fr, resource)];
      r := None;
    }

    // ----- finishing -----

    method MatchSelector(items: seq<SelectorItem>) returns (unmatched: Option<SelectorItem>)
      requires |nodes| > 0
      ensures unmatched == FirstUnmatched(items, nodes[0].doc, plan)
    {
      var i := 0;
      while i < |items|
        invariant i <= |items|
        invariant FirstUnmatched(items[i..], nodes[0].doc, plan) == FirstUnmatched(items, nodes[0].doc, plan)
      {
        assert items[i..][1..] == items[i + 1..];
        if !Matches(items[i], nodes[0].doc, plan) {
          return Some(items[i]);
        }
        i := i + 1;
      }
      return None;
    }

    // `retain`, in place.
    method RetainClaimed(items: seq<SelectorItem>)
      modifies this`plan
      ensures plan == Retain(items, old(plan))
    {
      var kept: seq<Planned> := [];
      for i := 0 to |plan|
        invariant plan == old(plan) && kept == Retain(items, plan[..i])
      {
        assert plan[..i + 1][..i] == plan[..i];
        if ClaimedByAny(items, plan[i]) {
          kept := kept + [plan[i]];
        }
      }
      assert plan[..|plan|] == plan;
      plan := kept;
    }

    method FinishWith(selector: Option<seq<SelectorItem>>) returns (r: Result<Resolution, Error>)
      requires |nodes| > 0
      modifies this`plan
      ensures r == Finish(old(Value()), selector)
    {
      if selector.Some? {
        var unmatched := MatchSelector(selector.value);
        if unmatched.Some? {
          return Err(UnmatchedSelector(unmatched.value));
        }
        RetainClaimed(selector.value);
      }
      return Ok(Resolution(nodes, plan, warnings, selector));
    }

    // ----- entry points -----

    method Resolve(m: Murl) returns (r: Result<Resolution, Error>)
      requires Value() == EMPTY_STATE && cache == world.cache
      modifies this
      ensures match ResolveName(world, limits, m)
              case Stop(e, l) => r == Err(e) && log == l
              case Done(st) => |st.nodes| > 0 && r == Finish(st, m.selector)
    {
      ResolveIsNamed(world, limits, m);
      stack := stack + [Identity(m)];
      assert Value() == EMPTY_STATE.(stack := [Identity(m)]);
      assert Value().(stack := []) == EMPTY_STATE;
      var failed := IngestNamed(m, 0, None, None, 0);
      if failed.Some? {
        return Err(failed.value);
      }
      ResolveNameKeeps(world, limits, m);
      ghost var done := Value();
      stack := if stack == [] then [] else stack[..|stack| - 1];
      FinishIgnoresStack(done, stack, m.selector);
      r := FinishWith(m.selector);
    }

    method ResolveOpened(path: string, bytes: string) returns (r: Result<Resolution, Error>)
      requires Value() == EMPTY_STATE && cache == world.cache
      modifies this
      ensures match ResolveFile(world, limits, path, bytes)
              case Stop(e, l) => r == Err(e)
              case Done(st) => |st.nodes| > 0 && r == Finish(st, None)
    {
      var failed := IngestBytes(None, bytes, FromFile(path), 0, None, 1);
      if failed.Some? {
        return Err(failed.value);
      }
      ResolveFileKeeps(world, limits, path, bytes);
      r := FinishWith(None);
    }
  }
}
