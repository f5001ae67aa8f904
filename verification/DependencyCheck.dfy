/**
 Two implementations decide whether the dependencies of a manifest are cyclic:
 the resolver's Kahn loop (module Graph) and the reference implementation's
 depth-first search (module CycleFinder). On unique resource ids they agree.
 */
module DependencyCheck {
  import opened Wrappers
  import opened Manifest
  import opened Walks
  import opened Graph
  import opened CycleFinder

  // A known name other than the resource's own.
  predicate IsClean(rs: seq<Resource>, id: string, name: string) {
    IndexOf(rs, name).Some? && name != id
  }

  function Clean(rs: seq<Resource>, id: string, names: seq<string>): seq<string> {
    if names == [] then []
    else
      var n := |names| - 1;
      Clean(rs, id, names[..n]) + if IsClean(rs, id, names[n]) then [names[n]] else []
  }

  lemma {:induction false} CleanHolds(rs: seq<Resource>, id: string, names: seq<string>, d: string)
    ensures d in Clean(rs, id, names) <==> d in names && IsClean(rs, id, d)
  {
    if names != [] {
      var n := |names| - 1;
      CleanHolds(rs, id, names[..n], d);
      assert names == names[..n] + [names[n]];
    }
  }

  // The dictionary of the resources that declare a `dependsOn` member.
  function EdgeDict(rs: seq<Resource>, declared: set<nat>, n: nat): EdgeMap
    requires n <= |rs|
  {
    if n == 0 then map[]
    else
      var edges := EdgeDict(rs, declared, n - 1);
      if n - 1 in declared then edges[rs[n - 1].id := Clean(rs, rs[n - 1].id, rs[n - 1].dependsOn)]
      else edges
  }

  predicate DeclaredBy(rs: seq<Resource>, declared: set<nat>, n: nat, a: string)
    requires n <= |rs|
  {
    exists i :: 0 <= i < n && i in declared && rs[i].id == a
  }

  lemma {:induction false} EdgeDictKeys(rs: seq<Resource>, declared: set<nat>, n: nat, a: string)
    requires n <= |rs|
    ensures a in EdgeDict(rs, declared, n) <==> DeclaredBy(rs, declared, n, a)
  {
    if n > 0 {
      EdgeDictKeys(rs, declared, n - 1, a);
    }
  }

  lemma {:induction false} EdgeDictAt(rs: seq<Resource>, declared: set<nat>, n: nat, i: nat)
    requires DistinctIds(rs) && i < n <= |rs| && i in declared
    ensures rs[i].id in EdgeDict(rs, declared, n)
    ensures EdgeDict(rs, declared, n)[rs[i].id] == Clean(rs, rs[i].id, rs[i].dependsOn)
  {
    if i < n - 1 {
      var last := n - 1;
      EdgeDictAt(rs, declared, last, i);
      assert rs[i].id != rs[last].id;
      LaterKept(EdgeDict(rs, declared, last), rs[last].id, Clean(rs, rs[last].id, rs[last].dependsOn), rs[i].id);
    }
  }

  // Another entry changes nothing here.
  lemma LaterKept(edges: EdgeMap, a: string, names: seq<string>, b: string)
    requires b in edges && a != b
    ensures b in edges[a := names] && edges[a := names][b] == edges[b]
  {
  }

  ghost predicate Declares(rs: seq<Resource>, declared: set<nat>) {
    forall i: nat :: i < |rs| && rs[i].dependsOn != [] ==> i in declared
  }

  function Dict(rs: seq<Resource>, declared: set<nat>): EdgeMap {
    EdgeDict(rs, declared, |rs|)
  }

  lemma IndexOfOwn(rs: seq<Resource>, i: nat)
    requires DistinctIds(rs) && i < |rs|
    ensures IndexOf(rs, rs[i].id) == Some(i)
  {
  }

  lemma ArcToEdge(rs: seq<Resource>, declared: set<nat>, a: string, b: string)
    requires DistinctIds(rs) && (a, b) in Arcs(Dict(rs, declared))
    ensures IndexOf(rs, a).Some? && IndexOf(rs, b).Some?
    ensures (IndexOf(rs, a).value, IndexOf(rs, b).value) in Edges(rs)
  {
    EdgeDictKeys(rs, declared, |rs|, a);
    var i :| 0 <= i < |rs| && i in declared && rs[i].id == a;
    EdgeDictAt(rs, declared, |rs|, i);
    IndexOfOwn(rs, i);
    CleanHolds(rs, a, rs[i].dependsOn, b);
    var j := IndexOf(rs, b).value;
    assert j in Targets(rs, i, rs[i].dependsOn);
  }

  lemma EdgeToArc(rs: seq<Resource>, declared: set<nat>, i: nat, j: nat)
    requires DistinctIds(rs) && Declares(rs, declared) && (i, j) in Edges(rs) && rs[j].dependsOn != []
    ensures (rs[i].id, rs[j].id) in Arcs(Dict(rs, declared))
  {
    var k :| 0 <= k < |rs[i].dependsOn| && IndexOf(rs, rs[i].dependsOn[k]) == Some(j);
    EdgeDictAt(rs, declared, |rs|, i);
    EdgeDictAt(rs, declared, |rs|, j);
    CleanHolds(rs, rs[i].id, rs[i].dependsOn, rs[j].id);
  }

  lemma ArcCycleToEdgeCycle(rs: seq<Resource>, declared: set<nat>, c: seq<string>)
    requires DistinctIds(rs) && IsCycle(Arcs(Dict(rs, declared)), c)
    ensures HasCycle(Edges(rs))
  {
    forall k | 0 <= k < |c| ensures IndexOf(rs, c[k]).Some? {
      if k < |c| - 1 {
        ArcToEdge(rs, declared, c[k], c[k + 1]);
      } else {
        ArcToEdge(rs, declared, c[k - 1], c[k]);
      }
    }
    var p: seq<nat> := seq(|c|, k requires 0 <= k < |c| => IndexOf(rs, c[k]).value);
    forall k | 0 <= k < |p| - 1 ensures (p[k], p[k + 1]) in Edges(rs) {
      ArcToEdge(rs, declared, c[k], c[k + 1]);
    }
    assert IsCycle(Edges(rs), p);
  }

  lemma EdgeCycleToArcCycle(rs: seq<Resource>, declared: set<nat>, p: seq<nat>)
    requires DistinctIds(rs) && Declares(rs, declared) && IsCycle(Edges(rs), p)
    ensures HasCycle(Arcs(Dict(rs, declared)))
  {
    forall k | 0 <= k < |p| ensures p[k] < |rs| && rs[p[k]].dependsOn != [] {
      var at := if k < |p| - 1 then k else 0;
      assert (p[at], p[at + 1]) in Edges(rs) && p[at] == p[k];
    }
    var c := seq(|p|, k requires 0 <= k < |p| => rs[p[k]].id);
    forall k | 0 <= k < |c| - 1 ensures (c[k], c[k + 1]) in Arcs(Dict(rs, declared)) {
      EdgeToArc(rs, declared, p[k], p[k + 1]);
    }
    assert IsCycle(Arcs(Dict(rs, declared)), c);
  }

  // The Kahn loop fails exactly when the dictionary of edges has a cycle.
  lemma ImplementationsAgree(rs: seq<Resource>, declared: set<nat>)
    requires DistinctIds(rs) && Declares(rs, declared)
    ensures ExecutionOrder(rs).Err? <==> HasCycle(Arcs(Dict(rs, declared)))
  {
    FailsExactlyOnCycle(rs);
    if p :| IsCycle(Edges(rs), p) {
      EdgeCycleToArcCycle(rs, declared, p);
    }
    if c :| IsCycle(Arcs(Dict(rs, declared)), c) {
      ArcCycleToEdgeCycle(rs, declared, c);
    }
  }

  // ----- the reference implementation's loop -----

  const MAX_DEPENDS_ON := 16

  datatype Report = TooMany(at: nat) | Unknown(at: nat, name: string) | OnItself(at: nat, name: string)

  // What is reported of the names a resource lists; an unknown name is not compared with its own.
  function NameReports(rs: seq<Resource>, i: nat, names: seq<string>): seq<Report>
    requires i < |rs|
  {
    if names == [] then []
    else
      var n := |names| - 1;
      NameReports(rs, i, names[..n]) +
      if IndexOf(rs, names[n]).None? then [Unknown(i, names[n])]
      else if names[n] == rs[i].id then [OnItself(i, names[n])] else []
  }

  function ReportsAt(rs: seq<Resource>, i: nat): seq<Report>
    requires i < |rs|
  {
    (if |rs[i].dependsOn| > MAX_DEPENDS_ON then [TooMany(i)] else []) + NameReports(rs, i, rs[i].dependsOn)
  }

  function Reports(rs: seq<Resource>, declared: set<nat>, n: nat): seq<Report>
    requires n <= |rs|
  {
    if n == 0 then [] else Reports(rs, declared, n - 1) + if n - 1 in declared then ReportsAt(rs, n - 1) else []
  }

  predicate NamesSound(rs: seq<Resource>, i: nat, names: seq<string>)
    requires i < |rs|
  {
    forall d :: 0 <= d < |names| ==> IsClean(rs, rs[i].id, names[d])
  }

  lemma {:induction false} NoNameReports(rs: seq<Resource>, i: nat, names: seq<string>)
    requires i < |rs|
    ensures NameReports(rs, i, names) == [] <==> NamesSound(rs, i, names)
  {
    if names != [] {
      var n := |names| - 1;
      NoNameReports(rs, i, names[..n]);
      assert names == names[..n] + [names[n]];
    }
  }

  // At most 16 names, each of another resource of the manifest.
  predicate DependsSoundly(rs: seq<Resource>, i: nat)
    requires i < |rs|
  {
    |rs[i].dependsOn| <= MAX_DEPENDS_ON && NamesSound(rs, i, rs[i].dependsOn)
  }

  predicate AllDependSoundly(rs: seq<Resource>, declared: set<nat>, n: nat)
    requires n <= |rs|
  {
    forall i :: 0 <= i < n && i in declared ==> DependsSoundly(rs, i)
  }

  // Nothing is reported exactly when every resource that declares dependencies depends soundly.
  lemma {:induction false} NoReportsExactly(rs: seq<Resource>, declared: set<nat>, n: nat)
    requires n <= |rs|
    ensures Reports(rs, declared, n) == [] <==> AllDependSoundly(rs, declared, n)
  {
    if n > 0 {
      NoReportsExactly(rs, declared, n - 1);
      NoNameReports(rs, n - 1, rs[n - 1].dependsOn);
    }
  }

  predicate NoSuchId(rs: seq<Resource>, name: string) {
    forall k :: 0 <= k < |rs| ==> rs[k].id != name
  }

  // What a report about resource i says.
  predicate SaysOf(rs: seq<Resource>, i: nat, names: seq<string>, report: Report)
    requires i < |rs|
  {
    match report
    case TooMany(_) => false
    case Unknown(at, name) => at == i && name in names && NoSuchId(rs, name)
    case OnItself(at, name) => at == i && name in names && name == rs[i].id
  }

  lemma {:induction false} NamesReported(rs: seq<Resource>, i: nat, names: seq<string>, report: Report)
    requires i < |rs|
    ensures report in NameReports(rs, i, names) <==> SaysOf(rs, i, names, report)
  {
    if names != [] {
      var n := |names| - 1;
      NamesReported(rs, i, names[..n], report);
      assert names == names[..n] + [names[n]];
      assert IndexOf(rs, names[n]).None? <==> NoSuchId(rs, names[n]);
    }
  }

  predicate Reported(rs: seq<Resource>, declared: set<nat>, n: nat, report: Report)
    requires n <= |rs|
  {
    && report.at < n && report.at in declared
    && (if report.TooMany? then |rs[report.at].dependsOn| > 16
        else SaysOf(rs, report.at, rs[report.at].dependsOn, report))
  }

  // A report is made exactly when what it says is so.
  lemma {:induction false} ReportsExactly(rs: seq<Resource>, declared: set<nat>, n: nat, report: Report)
    requires n <= |rs|
    ensures report in Reports(rs, declared, n) <==> Reported(rs, declared, n, report)
  {
    if n > 0 {
      var last := n - 1;
      ReportsExactly(rs, declared, last, report);
      NamesReported(rs, last, rs[last].dependsOn, report);
    }
  }

  lemma NameStep(rs: seq<Resource>, i: nat, d: nat)
    requires i < |rs| && d < |rs[i].dependsOn|
    ensures var names, name := rs[i].dependsOn, rs[i].dependsOn[d];
      && Clean(rs, rs[i].id, names[..d + 1]) ==
         Clean(rs, rs[i].id, names[..d]) + (if IsClean(rs, rs[i].id, name) then [name] else [])
      && NameReports(rs, i, names[..d + 1]) ==
         NameReports(rs, i, names[..d]) + (if IndexOf(rs, name).None? then [Unknown(i, name)]
                                           else if name == rs[i].id then [OnItself(i, name)] else [])
  {
    var names := rs[i].dependsOn;
    assert names[..d + 1][..d] == names[..d];
  }

  // One resource's names: those that are sound, and what is reported of the others.
  method SortOut(rs: seq<Resource>, i: nat) returns (clean: seq<string>, reports: seq<Report>)
    requires i < |rs|
    ensures clean == Clean(rs, rs[i].id, rs[i].dependsOn) && reports == NameReports(rs, i, rs[i].dependsOn)
  {
    var id, names := rs[i].id, rs[i].dependsOn;
    clean, reports := [], [];
    for d := 0 to |names|
      invariant clean == Clean(rs, id, names[..d]) && reports == NameReports(rs, i, names[..d])
    {
      var name := names[d];
      NameStep(rs, i, d);
      if IndexOf(rs, name).None? {
        reports := reports + [Unknown(i, name)];
      } else if name == id {
        reports := reports + [OnItself(i, name)];
      } else {
        clean := clean + [name];
      }
    }
    assert names[..|names|] == names;
  }

  // `_validate_depends_on`: report what is wrong with the names, build the dictionary of the
  // rest, then search it.
  method ValidateDependsOn(rs: seq<Resource>, declared: set<nat>)
    returns (reports: seq<Report>, cycle: Option<seq<string>>)
    requires DistinctIds(rs) && Declares(rs, declared)
    ensures reports == Reports(rs, declared, |rs|)
    ensures cycle.Some? <==> ExecutionOrder(rs).Err?
    ensures cycle.Some? ==> IsCycle(Arcs(Dict(rs, declared)), cycle.value)
  {
    var edges, keys;
    reports, edges, keys := BuildDict(rs, declared);
    cycle := FindCycle(edges, keys);
    ImplementationsAgree(rs, declared);
  }

  method BuildDict(rs: seq<Resource>, declared: set<nat>)
    returns (reports: seq<Report>, edges: EdgeMap, keys: seq<string>)
    ensures reports == Reports(rs, declared, |rs|)
    ensures edges == Dict(rs, declared) && forall k :: k in keys <==> k in edges
  {
    edges, keys, reports := map[], [], [];
    for i := 0 to |rs|
      invariant edges == EdgeDict(rs, declared, i) && reports == Reports(rs, declared, i)
      invariant forall k :: k in keys <==> k in edges
    {
      if i in declared {
        var clean, more := SortOut(rs, i);
        var many := if |rs[i].dependsOn| > MAX_DEPENDS_ON then [TooMany(i)] else [];
        reports := reports + (many + more);
        edges := edges[rs[i].id := clean];
        keys := keys + [rs[i].id];
      }
    }
  }
}
