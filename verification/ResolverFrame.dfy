/**
 A resolution depends only on the names it looks up, and a manifest can make it
 look up only names at least as far away as the manifest itself. Together:
 what this machine stores cannot influence a resolution that starts on the network.
 */
module ResolverFrame {
  import opened Wrappers
  import opened Text
  import opened MurlScheme
  import opened Manifest
  import opened Graph
  import opened Resolver
  import opened Store
  import Cache

  function LogOf(o: Outcome): seq<Murl> {
    match o
    case Done(st) => st.log
    case Stop(_, log) => log
  }

  // A round logs at most the nested name, and does so before it goes into it.
  lemma RoundLog(w: World, lim: Limits, st: State, fr: Frame, r: Resource)
    requires fr.Valid(lim)
    ensures match OneRound(w, lim, st, fr, r)
            case Halt(e, log) => log == st.log || (r.kind.Nested? && log == st.log + [r.kind.child])
            case Next(st1) => st1.log == st.log
            case Into(st2, inner, id) => st2.log == st.log + [r.kind.child]
  {
  }

  lemma PrefixChain(a: seq<Murl>, b: seq<Murl>, c: seq<Murl>)
    requires a <= b && b <= c
    ensures a <= c
  {
  }

  // The log only grows.
  lemma {:induction false} SpliceLog(w: World, lim: Limits, st: State, fr: Frame, k: nat)
    requires fr.At(lim, k)
    ensures st.log <= LogOf(Splice(w, lim, st, fr, k))
    decreases lim.maxDepth - fr.depth, |fr.order| - k
  {
    if k < |fr.order| {
      var r := fr.doc.resources[fr.order[k]];
      RoundLog(w, lim, st, fr, r);
      match OneRound(w, lim, st, fr, r) {
        case Halt(_, _) =>
        case Next(st1) => SpliceLog(w, lim, st1, fr, k + 1);
        case Into(st2, inner, id) =>
          SpliceLog(w, lim, st2, inner, 0);
          var nested := Splice(w, lim, st2, inner, 0);
          PrefixChain(st.log, st2.log, LogOf(nested));
          if nested.Done? {
            var st4 := Leave(nested.st, id);
            SpliceLog(w, lim, st4, fr, k + 1);
            PrefixChain(st.log, st4.log, LogOf(Splice(w, lim, st4, fr, k + 1)));
          }
      }
    }
  }

  // ----- the frame property -----

  // Two worlds that differ at most in where manifests come from.
  ghost predicate SameRules(w: World, v: World) {
    w.decode == v.decode && w.intact == v.intact && w.trusted == v.trusted && w.now == v.now
  }

  ghost predicate AgreeOn(w: World, v: World, lim: Limits, log: seq<Murl>, from: nat) {
    forall i :: from <= i < |log| ==> Locate(w, lim, log[i]) == Locate(v, lim, log[i])
  }

  lemma ArriveFrame(w: World, v: World, lim: Limits, st: State, m: Murl, depth: nat, anchor: Option<string>,
                    pin: Option<string>, log: seq<Murl>)
    requires depth <= lim.maxDepth && SameRules(w, v)
    requires match Arrive(w, lim, st, m, depth, anchor, pin)
             case Err((e, l)) => l == log
             case Ok((st1, fr)) => st1.log == log
    requires log != st.log ==> Locate(w, lim, m) == Locate(v, lim, m)
    ensures Arrive(w, lim, st, m, depth, anchor, pin) == Arrive(v, lim, st, m, depth, anchor, pin)
  {
    assert |st.log + [m]| == |st.log| + 1;
  }

  // A round is the same in both worlds if they agree on what it logs.
  lemma RoundFrame(w: World, v: World, lim: Limits, st: State, fr: Frame, r: Resource)
    requires fr.Valid(lim) && SameRules(w, v)
    requires match OneRound(w, lim, st, fr, r)
             case Halt(e, log) => AgreeOn(w, v, lim, log, |st.log|)
             case Next(st1) => true
             case Into(st2, inner, id) => AgreeOn(w, v, lim, st2.log, |st.log|)
    ensures OneRound(w, lim, st, fr, r) == OneRound(v, lim, st, fr, r)
  {
    if r.kind.Nested? {
      var admitted, depth := Admit(lim, st, fr, r, r.kind.child), fr.depth + 1;
      if admitted.Descend? {
        DescendRound(w, lim, st, fr, r, admitted.st, depth);
        DescendRound(v, lim, st, fr, r, admitted.st, depth);
        DescendFrame(w, v, lim, st, admitted.st, r.kind.child, depth, Some(fr.Anchor(r)), r.integrity);
      }
    }
  }

  function ArrivedLog(r: Result<(State, Frame), (Error, seq<Murl>)>): seq<Murl> {
    match r
    case Err((_, log)) => log
    case Ok((st1, _)) => st1.log
  }

  lemma ArriveLog(w: World, lim: Limits, st: State, m: Murl, depth: nat, anchor: Option<string>, pin: Option<string>)
    requires depth <= lim.maxDepth
    ensures var log := ArrivedLog(Arrive(w, lim, st, m, depth, anchor, pin)); log == st.log || log == st.log + [m]
  {
  }

  // The same of arriving at a nested name.
  lemma DescendFrame(w: World, v: World, lim: Limits, st: State, st1: State, m: Murl, depth: nat,
                     anchor: Option<string>, pin: Option<string>)
    requires depth <= lim.maxDepth && SameRules(w, v) && st1.log == st.log
    requires AgreeOn(w, v, lim, ArrivedLog(Arrive(w, lim, st1, m, depth, anchor, pin)), |st.log|)
    ensures Arrive(w, lim, st1, m, depth, anchor, pin) == Arrive(v, lim, st1, m, depth, anchor, pin)
  {
    var log := ArrivedLog(Arrive(w, lim, st1, m, depth, anchor, pin));
    ArriveLog(w, lim, st1, m, depth, anchor, pin);
    if log != st1.log {
      assert log[|st.log|] == m;
    }
    ArriveFrame(w, v, lim, st1, m, depth, anchor, pin, log);
  }

  // Agreement on the longer log includes agreement on a stretch of it.
  lemma AgreePart(w: World, v: World, lim: Limits, log: seq<Murl>, longer: seq<Murl>, from: nat, to: nat)
    requires AgreeOn(w, v, lim, longer, from) && log <= longer && from <= to
    ensures AgreeOn(w, v, lim, log, to)
  {
  }

  // Worlds that agree on the names a resolution looks up give it the same outcome.
  lemma {:induction false} SpliceFrame(w: World, v: World, lim: Limits, st: State, fr: Frame, k: nat)
    requires fr.At(lim, k) && SameRules(w, v)
    requires AgreeOn(w, v, lim, LogOf(Splice(w, lim, st, fr, k)), |st.log|)
    ensures Splice(w, lim, st, fr, k) == Splice(v, lim, st, fr, k)
    decreases lim.maxDepth - fr.depth, |fr.order| - k
  {
    if k < |fr.order| {
      var log := LogOf(Splice(w, lim, st, fr, k));
      var r := fr.doc.resources[fr.order[k]];
      RoundLog(w, lim, st, fr, r);
      match OneRound(w, lim, st, fr, r) {
        case Halt(_, _) =>
        case Next(st1) => SpliceFrame(w, v, lim, st1, fr, k + 1);
        case Into(st2, inner, id) =>
          SpliceLog(w, lim, st2, inner, 0);
          var nested := Splice(w, lim, st2, inner, 0);
          if nested.Done? {
            var st4 := Leave(nested.st, id);
            SpliceLog(w, lim, st4, fr, k + 1);
            AgreePart(w, v, lim, log, log, |st.log|, |st4.log|);
            SpliceFrame(w, v, lim, st4, fr, k + 1);
          }
          AgreePart(w, v, lim, LogOf(nested), log, |st.log|, |st2.log|);
          SpliceFrame(w, v, lim, st2, inner, 0);
          AgreePart(w, v, lim, st2.log, log, |st.log|, |st.log|);
      }
      RoundFrame(w, v, lim, st, fr, r);
    }
  }

  // ----- a whole resolution -----

  lemma ResolveLog(w: World, lim: Limits, m: Murl)
    ensures LogOf(ResolveName(w, lim, m)) == [] || m == LogOf(ResolveName(w, lim, m))[0]
    ensures lim.maxNestedManifests > 0 ==> LogOf(ResolveName(w, lim, m)) != []
  {
    var st0 := EMPTY_STATE.(stack := [Identity(m)]);
    var arrived := Arrive(w, lim, st0, m, 0, None, None);
    if arrived.Ok? {
      SpliceLog(w, lim, arrived.value.0, arrived.value.1, 0);
    }
  }

  // The outcome is a function of the answers to the names looked up.
  lemma ResolveFrame(w: World, v: World, lim: Limits, m: Murl)
    requires SameRules(w, v)
    requires AgreeOn(w, v, lim, LogOf(ResolveName(w, lim, m)), 0)
    ensures ResolveName(w, lim, m) == ResolveName(v, lim, m)
  {
    var st0 := EMPTY_STATE.(stack := [Identity(m)]);
    var log := LogOf(ResolveName(w, lim, m));
    ResolveLog(w, lim, m);
    var arrived := Arrive(w, lim, st0, m, 0, None, None);
    if arrived.Ok? {
      SpliceLog(w, lim, arrived.value.0, arrived.value.1, 0);
      AgreePart(w, v, lim, log, log, 0, |arrived.value.0.log|);
      SpliceFrame(w, v, lim, arrived.value.0, arrived.value.1, 0);
      ArriveFrame(w, v, lim, st0, m, 0, None, None, arrived.value.0.log);
    } else {
      ArriveFrame(w, v, lim, st0, m, 0, None, None, log);
    }
  }

  // ----- locality -----

  ghost predicate FarEnough(log: seq<Murl>, from: nat, d: nat) {
    forall i :: from <= i < |log| ==> LocalityOf(log[i].authority).Distance() >= d
  }

  // A nested name that is looked up is at least as far away as the manifest that nests it,
  // and the manifest found for it counts as exactly that far away.
  lemma RoundLocality(w: World, lim: Limits, st: State, fr: Frame, r: Resource)
    requires fr.Valid(lim)
    ensures match OneRound(w, lim, st, fr, r)
            case Halt(_, log) => FarEnough(log, |st.log|, fr.source.Distance())
            case Next(_) => true
            case Into(st2, inner, _) =>
              && FarEnough(st2.log, |st.log|, fr.source.Distance())
              && inner.source.Distance() >= fr.source.Distance()
  {
    RoundLog(w, lim, st, fr, r);
    if r.kind.Nested? && Locate(w, lim, r.kind.child).Ok? {
      SourceOfNamed(w, lim, r.kind.child);
    }
  }

  lemma SourceOfNamed(w: World, lim: Limits, m: Murl)
    requires Locate(w, lim, m).Ok?
    ensures SourceLocality(Locate(w, lim, m).value.origin, Some(m)) == LocalityOf(m.authority)
  {
  }

  lemma FarJoin(log: seq<Murl>, longer: seq<Murl>, from: nat, d: nat, e: nat)
    requires log <= longer && FarEnough(log, from, d) && FarEnough(longer, |log|, e) && d <= e
    ensures FarEnough(longer, from, d)
  {
  }

  // Everything looked up from a frame on is at least as far away as the frame's manifest.
  lemma {:induction false} SpliceLocality(w: World, lim: Limits, st: State, fr: Frame, k: nat)
    requires fr.At(lim, k)
    ensures FarEnough(LogOf(Splice(w, lim, st, fr, k)), |st.log|, fr.source.Distance())
    decreases lim.maxDepth - fr.depth, |fr.order| - k
  {
    if k < |fr.order| {
      var r := fr.doc.resources[fr.order[k]];
      RoundLog(w, lim, st, fr, r);
      RoundLocality(w, lim, st, fr, r);
      match OneRound(w, lim, st, fr, r) {
        case Halt(_, _) =>
        case Next(st1) => SpliceLocality(w, lim, st1, fr, k + 1);
        case Into(st2, inner, id) =>
          SpliceLog(w, lim, st2, inner, 0);
          SpliceLocality(w, lim, st2, inner, 0);
          var nested := Splice(w, lim, st2, inner, 0);
          FarJoin(st2.log, LogOf(nested), |st.log|, fr.source.Distance(), inner.source.Distance());
          if nested.Done? {
            var st4 := Leave(nested.st, id);
            SpliceLog(w, lim, st4, fr, k + 1);
            SpliceLocality(w, lim, st4, fr, k + 1);
            FarJoin(st4.log, LogOf(Splice(w, lim, st4, fr, k + 1)), |st.log|,
                    fr.source.Distance(), fr.source.Distance());
          }
      }
    }
  }

  // A resolution never looks up a name nearer than its root.
  lemma ResolveLocality(w: World, lim: Limits, m: Murl)
    ensures FarEnough(LogOf(ResolveName(w, lim, m)), 0, LocalityOf(m.authority).Distance())
  {
    var st0 := EMPTY_STATE.(stack := [Identity(m)]);
    var arrived := Arrive(w, lim, st0, m, 0, None, None);
    if arrived.Ok? {
      SourceOfNamed(w, lim, m);
      SpliceLog(w, lim, arrived.value.0, arrived.value.1, 0);
      SpliceLocality(w, lim, arrived.value.0, arrived.value.1, 0);
    }
  }

  // ----- non-interference -----

  // The same network: equal answers to https requests, equal cached copies of network names.
  ghost predicate SameNetwork(w: World, v: World) {
    && (w.remote.Some? <==> v.remote.Some?)
    && (w.remote.Some? ==> forall url :: StartsWith(url, "https://") ==> w.remote.value(url) == v.remote.value(url))
    && (forall m: Murl :: LocalityOf(m.authority) == Network ==>
          CachedEntry(w, Identity(m)) == CachedEntry(v, Identity(m)))
  }

  lemma NetworkUrl(m: Murl)
    requires LocalityOf(m.authority) == Network
    ensures StartsWith(WellKnownUrl(m), "https://")
  {
    assert WellKnownUrl(m)[..8] == "https://";
  }

  lemma NetworkLocate(w: World, v: World, lim: Limits, m: Murl)
    requires SameRules(w, v) && SameNetwork(w, v) && LocalityOf(m.authority) == Network
    ensures Locate(w, lim, m) == Locate(v, lim, m)
  {
    NetworkUrl(m);
  }

  // Resolving a network name gives the same plan, warnings or error whatever the local
  // store holds and whatever loopback servers answer, and asks neither of them anything.
  lemma NonInterference(w: World, v: World, lim: Limits, m: Murl)
    requires SameRules(w, v) && SameNetwork(w, v) && LocalityOf(m.authority) == Network
    ensures ResolveName(w, lim, m) == ResolveName(v, lim, m)
    ensures forall n <- LogOf(ResolveName(w, lim, m)) :: LocalityOf(n.authority) == Network
  {
    ResolveLocality(w, lim, m);
    var log := LogOf(ResolveName(w, lim, m));
    forall i | 0 <= i < |log| ensures Locate(w, lim, log[i]) == Locate(v, lim, log[i]) {
      NetworkLocate(w, v, lim, log[i]);
    }
    ResolveFrame(w, v, lim, m);
  }
}
