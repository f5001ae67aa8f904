/**
 Under which names an import installs, and which imports go through: told from the bundle's
 entries and the name the user gives, entry by entry.
 */
module BundleNames {
  import opened Wrappers
  import opened Text
  import opened MurlScheme
  import opened MurlRoundTrip
  import opened Manifest
  import opened Store
  import opened Resolver
  import opened B = Bundle

  // ----- the names -----

  // A text that begins with the scheme, in any case, stands for itself, and any other for a
  // local name.
  function Spelled(name: string): string {
    if |name| >= 5 && Lowercase(name[..5]) == "murl:" then name else "murl://local/" + name
  }

  // The user's name, which must be local and bare.
  predicate Given(name: string, m: Murl) {
    Parse(Spelled(name)) == Ok(m) && m.authority.Local? && m.selector.None? && m.query.None?
  }

  // The entry under the bundle's root identity, or the first where nothing is named.
  predicate AtRoot(b: Bundle, k: nat)
    requires k < |b.entries|
  {
    (b.root.None? && k == 0) || (b.root.Some? && b.entries[k].identity == b.root)
  }

  // A new name is for the root alone; any other entry keeps its name and version.
  predicate InstallsAs(b: Bundle, asName: Option<string>, k: nat, m: Murl)
    requires k < |b.entries|
  {
    var identity := b.entries[k].identity;
    if AtRoot(b, k) && asName.Some? then Given(asName.value, m)
    else
      && identity.Some? && Parse(identity.value).Ok?
      && m == Murl(Local, Parse(identity.value).value.name, Parse(identity.value).value.version, None, None)
  }

  lemma NameForExactly(b: Bundle, asName: Option<string>, k: nat, m: Murl)
    requires k < |b.entries|
    ensures NameFor(b, asName, k) == Ok(m) <==> InstallsAs(b, asName, k, m)
  {
  }

  // The id an entry's manifest declares, if any, is of the same authority and name.
  predicate FitsId(t: Tools, e: Entry, m: Murl) {
    && t.decode(e.bytes).Some? && t.inspect(t.decode(e.bytes).value).Some?
    && var declared := t.inspect(t.decode(e.bytes).value).value;
       declared.Some? ==> declared.value.authority == m.authority && declared.value.name == m.name
  }

  // Every entry is planned under its own name.
  lemma ImportNames(t: Tools, lim: Limits, files: map<FilePath, string>, size: nat, b: Bundle,
                    asName: Option<string>, force: bool, k: nat)
    requires PlanImport(t, lim, files, size, b, asName, force).Ok? && k < |b.entries|
    ensures var plan := PlanImport(t, lim, files, size, b, asName, force).value;
      && |plan| == |b.entries| && InstallsAs(b, asName, k, plan[k].0)
      && FitsId(t, b.entries[k], plan[k].0) && t.decode(b.entries[k].bytes) == Some(plan[k].1)
  {
    var plan := PlanImport(t, lim, files, size, b, asName, force).value;
    ImportPlans(t, lim, files, size, b, asName, force);
    ImportKeepsBytes(t, lim, files, size, b, asName, force, k);
    EntryPlanned(t, lim, b, asName, k);
  }

  lemma EntryPlanned(t: Tools, lim: Limits, b: Bundle, asName: Option<string>, k: nat)
    requires k < |b.entries| && PlanEntry(t, lim, b, asName, k).Ok?
    ensures var m := PlanEntry(t, lim, b, asName, k).value.0;
      InstallsAs(b, asName, k, m) && FitsId(t, b.entries[k], m)
  {
    NameForExactly(b, asName, k, PlanEntry(t, lim, b, asName, k).value.0);
  }

  // ----- which imports go through -----

  // One name for each entry, fitting what the entry declares.
  predicate NamesAll(t: Tools, b: Bundle, asName: Option<string>, names: seq<Murl>) {
    && |names| == |b.entries|
    && (forall k :: 0 <= k < |names| ==> InstallsAs(b, asName, k, names[k]))
    && (forall k :: 0 <= k < |names| ==> FitsId(t, b.entries[k], names[k]))
  }

  predicate Apart(names: seq<Murl>) {
    forall j, k :: 0 <= j < k < |names| ==> Identity(names[j]) != Identity(names[k])
  }

  predicate NoneStored(files: map<FilePath, string>, names: seq<Murl>) {
    forall k :: 0 <= k < |names| ==> ManifestPath(names[k]) !in files
  }

  predicate PlannedUpTo(plan: seq<Install>, names: seq<Murl>) {
    |plan| <= |names| && forall k :: 0 <= k < |plan| ==> plan[k].0 == names[k]
  }

  lemma NamesUnclaimed(plan: seq<Install>, names: seq<Murl>)
    requires PlannedUpTo(plan, names) && Apart(names) && |plan| < |names|
    ensures !Claimed(plan, Identity(names[|plan|]))
  {
  }

  lemma PlannedMore(plan: seq<Install>, names: seq<Murl>, raw: string)
    requires PlannedUpTo(plan, names) && |plan| < |names|
    ensures var more := plan + [(names[|plan|], raw)]; PlannedUpTo(more, names) && |more| == |plan| + 1
  {
  }

  lemma NotStored(files: map<FilePath, string>, plan: seq<Install>, names: seq<Murl>)
    requires PlannedUpTo(plan, names) && NoneStored(files, names)
    ensures FirstInstalled(files, plan).None?
  {
    forall i | 0 <= i < |plan| ensures ManifestPath(plan[i].0) !in files {
      assert plan[i].0 == names[i];
    }
  }

  lemma NamedEntry(t: Tools, lim: Limits, b: Bundle, asName: Option<string>, names: seq<Murl>, i: nat)
    returns (raw: string)
    requires NamesAll(t, b, asName, names) && AllSound(t, lim, b.entries, 0) && i < |names|
    ensures PlanEntry(t, lim, b, asName, i) == Ok((names[i], raw))
  {
    NameForExactly(b, asName, i, names[i]);
    raw := t.decode(b.entries[i].bytes).value;
    assert EntrySound(t, lim, b.entries[i]);
  }

  lemma {:induction false} NamesPlan(t: Tools, lim: Limits, b: Bundle, asName: Option<string>, names: seq<Murl>,
                                     plan: seq<Install>)
    requires NamesAll(t, b, asName, names) && Apart(names) && AllSound(t, lim, b.entries, 0)
    requires PlannedUpTo(plan, names)
    ensures var r := PlanFrom(t, lim, b, asName, |plan|, plan);
      r.Ok? && |r.value| == |names| && PlannedUpTo(r.value, names)
    decreases |names| - |plan|
  {
    if |plan| < |names| {
      var i := |plan|;
      var raw := NamedEntry(t, lim, b, asName, names, i);
      NamesUnclaimed(plan, names);
      PlanFromStep(t, lim, b, asName, i, plan);
      var more := plan + [(names[i], raw)];
      PlannedMore(plan, names, raw);
      NamesPlan(t, lim, b, asName, names, more);
    }
  }

  function NamesIn(plan: seq<Install>): seq<Murl> {
    seq(|plan|, i requires 0 <= i < |plan| => plan[i].0)
  }

  // An import goes through exactly when the bundle is accepted and its entries have names that
  // fit what they declare, differ from each other and, unless forced, are not in the store.
  lemma PlansExactly(t: Tools, lim: Limits, files: map<FilePath, string>, size: nat, b: Bundle,
                     asName: Option<string>, force: bool)
    ensures PlanImport(t, lim, files, size, b, asName, force).Ok? <==>
      && CheckBundle(t, lim, size, b).None?
      && exists names :: NamesAll(t, b, asName, names) && Apart(names) && (force || NoneStored(files, names))
  {
    AcceptedExactly(t, lim, size, b);
    if PlanImport(t, lim, files, size, b, asName, force).Ok? {
      PlanNames(t, lim, files, size, b, asName, force);
    }
    if CheckBundle(t, lim, size, b).None? {
      forall names | NamesAll(t, b, asName, names) && Apart(names) && (force || NoneStored(files, names))
        ensures PlanImport(t, lim, files, size, b, asName, force).Ok?
      {
        NamesSuffice(t, lim, files, size, b, asName, force, names);
      }
    }
  }

  lemma NamesSuffice(t: Tools, lim: Limits, files: map<FilePath, string>, size: nat, b: Bundle,
                     asName: Option<string>, force: bool, names: seq<Murl>)
    requires CheckBundle(t, lim, size, b).None? && AllSound(t, lim, b.entries, 0)
    requires NamesAll(t, b, asName, names) && Apart(names) && (force || NoneStored(files, names))
    ensures PlanImport(t, lim, files, size, b, asName, force).Ok?
  {
    NamesPlan(t, lim, b, asName, names, []);
    var plan := PlanFrom(t, lim, b, asName, 0, []).value;
    if !force {
      NotStored(files, plan, names);
    }
  }

  lemma PlanNames(t: Tools, lim: Limits, files: map<FilePath, string>, size: nat, b: Bundle,
                  asName: Option<string>, force: bool)
    requires PlanImport(t, lim, files, size, b, asName, force).Ok?
    ensures exists names :: NamesAll(t, b, asName, names) && Apart(names) && (force || NoneStored(files, names))
  {
    var plan := PlanImport(t, lim, files, size, b, asName, force).value;
    var names := NamesIn(plan);
    ImportPlans(t, lim, files, size, b, asName, force);
    forall k | 0 <= k < |names| ensures InstallsAs(b, asName, k, names[k]) && FitsId(t, b.entries[k], names[k]) {
      ImportNames(t, lim, files, size, b, asName, force, k);
    }
    assert NamesAll(t, b, asName, names) && Apart(names);
  }

  // ----- what a refusal means -----

  // An error names an entry that has no name to go by, or a clash between the names.
  ghost predicate Refuses(t: Tools, lim: Limits, files: map<FilePath, string>, b: Bundle, asName: Option<string>,
                          e: ImportError) {
    match e
    case Rejected(_) => false
    case UnusableName(text) => asName == Some(text) && Parse(Spelled(text)).Err?
    case NotLocal(text) => asName == Some(text) && Parse(Spelled(text)).Ok?
                           && !Parse(Spelled(text)).value.authority.Local?
    case Decorated(text) => asName == Some(text) && Parse(Spelled(text)).Ok?
                            && (Parse(Spelled(text)).value.selector.Some? || Parse(Spelled(text)).value.query.Some?)
    case Nameless(k) => k < |b.entries| && b.entries[k].identity.None? && !(AtRoot(b, k) && asName.Some?)
    case WrongId(k) => k < |b.entries| && exists m :: InstallsAs(b, asName, k, m) && !FitsId(t, b.entries[k], m)
    case Collision(id) => exists j: nat, k: nat :: j < k < |b.entries| && BothAre(b, asName, j, k, id)
    case AlreadyInstalled(id) => exists k: nat :: k < |b.entries| && StoredAs(files, b, asName, k, id)
  }

  ghost predicate BothAre(b: Bundle, asName: Option<string>, j: nat, k: nat, id: string)
    requires j < |b.entries| && k < |b.entries|
  {
    IsNamed(b, asName, j, id) && IsNamed(b, asName, k, id)
  }

  ghost predicate IsNamed(b: Bundle, asName: Option<string>, k: nat, id: string)
    requires k < |b.entries|
  {
    exists m :: InstallsAs(b, asName, k, m) && Identity(m) == id
  }

  ghost predicate StoredAs(files: map<FilePath, string>, b: Bundle, asName: Option<string>, k: nat, id: string)
    requires k < |b.entries|
  {
    exists m :: InstallsAs(b, asName, k, m) && Identity(m) == id && ManifestPath(m) in files
  }

  lemma EntryRefused(t: Tools, lim: Limits, files: map<FilePath, string>, b: Bundle, asName: Option<string>, k: nat)
    requires k < |b.entries| && EntrySound(t, lim, b.entries[k]) && PlanEntry(t, lim, b, asName, k).Err?
    ensures Refuses(t, lim, files, b, asName, PlanEntry(t, lim, b, asName, k).error)
  {
    if NameFor(b, asName, k).Ok? {
      var m := NameFor(b, asName, k).value;
      NameForExactly(b, asName, k, m);
      assert InstallsAs(b, asName, k, m) && !FitsId(t, b.entries[k], m);
    }
  }

  ghost predicate PlannedSo(b: Bundle, asName: Option<string>, plan: seq<Install>) {
    |plan| <= |b.entries| && forall k :: 0 <= k < |plan| ==> InstallsAs(b, asName, k, plan[k].0)
  }

  lemma ClaimRefused(t: Tools, lim: Limits, files: map<FilePath, string>, b: Bundle, asName: Option<string>,
                     plan: seq<Install>, next: Install)
    requires PlannedSo(b, asName, plan) && |plan| < |b.entries| && InstallsAs(b, asName, |plan|, next.0)
    requires Claimed(plan, Identity(next.0))
    ensures Refuses(t, lim, files, b, asName, Collision(Identity(next.0)))
  {
    var j: nat :| j < |plan| && Identity(plan[j].0) == Identity(next.0);
    assert BothAre(b, asName, j, |plan|, Identity(next.0)) by {
      assert InstallsAs(b, asName, j, plan[j].0) && InstallsAs(b, asName, |plan|, next.0);
    }
  }

  lemma {:induction false} PlanRefused(t: Tools, lim: Limits, files: map<FilePath, string>, b: Bundle,
                                       asName: Option<string>, plan: seq<Install>)
    requires PlannedSo(b, asName, plan) && AllSound(t, lim, b.entries, 0)
    ensures var r := PlanFrom(t, lim, b, asName, |plan|, plan);
      if r.Err? then Refuses(t, lim, files, b, asName, r.error) else PlannedSo(b, asName, r.value)
    decreases |b.entries| - |plan|
  {
    if |plan| < |b.entries| {
      var i := |plan|;
      var entry := PlanEntry(t, lim, b, asName, i);
      PlanFromStep(t, lim, b, asName, i, plan);
      NextRefused(t, lim, files, b, asName, plan);
      if entry.Ok? && !Claimed(plan, Identity(entry.value.0)) {
        var more := plan + [entry.value];
        assert |more| == i + 1;
        PlanRefused(t, lim, files, b, asName, more);
      }
    }
  }

  lemma PlannedAt(b: Bundle, asName: Option<string>, plan: seq<Install>, next: Install, k: nat)
    requires k <= |plan| < |b.entries|
    requires if k < |plan| then InstallsAs(b, asName, k, plan[k].0) else InstallsAs(b, asName, k, next.0)
    ensures InstallsAs(b, asName, k, (plan + [next])[k].0)
  {
    var installed := (plan + [next])[k];
    assert installed == if k < |plan| then plan[k] else next;
  }

  lemma PlannedSoMore(b: Bundle, asName: Option<string>, plan: seq<Install>, next: Install)
    requires PlannedSo(b, asName, plan) && |plan| < |b.entries| && InstallsAs(b, asName, |plan|, next.0)
    ensures PlannedSo(b, asName, plan + [next])
  {
    forall k | 0 <= k <= |plan| ensures InstallsAs(b, asName, k, (plan + [next])[k].0) {
      PlannedAt(b, asName, plan, next, k);
    }
  }

  lemma NextRefused(t: Tools, lim: Limits, files: map<FilePath, string>, b: Bundle, asName: Option<string>,
                    plan: seq<Install>)
    requires PlannedSo(b, asName, plan) && AllSound(t, lim, b.entries, 0) && |plan| < |b.entries|
    ensures var entry := PlanEntry(t, lim, b, asName, |plan|);
      if entry.Err? then Refuses(t, lim, files, b, asName, entry.error)
      else if Claimed(plan, Identity(entry.value.0)) then
        Refuses(t, lim, files, b, asName, Collision(Identity(entry.value.0)))
      else PlannedSo(b, asName, plan + [entry.value])
  {
    var i := |plan|;
    var entry := PlanEntry(t, lim, b, asName, i);
    assert EntrySound(t, lim, b.entries[i]);
    if entry.Err? {
      EntryRefused(t, lim, files, b, asName, i);
    } else {
      EntryPlanned(t, lim, b, asName, i);
      if Claimed(plan, Identity(entry.value.0)) {
        ClaimRefused(t, lim, files, b, asName, plan, entry.value);
      } else {
        PlannedSoMore(b, asName, plan, entry.value);
      }
    }
  }

  lemma {:induction false} TakenMeans(files: map<FilePath, string>, plan: seq<Install>) returns (k: nat)
    requires FirstInstalled(files, plan).Some?
    ensures k < |plan| && FirstInstalled(files, plan) == Some(Identity(plan[k].0)) && ManifestPath(plan[k].0) in files
  {
    if ManifestPath(plan[0].0) in files {
      k := 0;
    } else {
      var tail := plan[1..];
      var i := TakenMeans(files, tail);
      assert tail[i] == plan[i + 1];
      k := i + 1;
    }
  }

  lemma RefusalMeans(t: Tools, lim: Limits, files: map<FilePath, string>, size: nat, b: Bundle,
                     asName: Option<string>, force: bool)
    requires PlanImport(t, lim, files, size, b, asName, force).Err?
    ensures var e := PlanImport(t, lim, files, size, b, asName, force).error;
      if CheckBundle(t, lim, size, b).Some? then e == Rejected(CheckBundle(t, lim, size, b).value)
      else Refuses(t, lim, files, b, asName, e)
  {
    if CheckBundle(t, lim, size, b).None? {
      AcceptedExactly(t, lim, size, b);
      PlanRefused(t, lim, files, b, asName, []);
      var planned := PlanFrom(t, lim, b, asName, 0, []);
      if planned.Ok? {
        var k := TakenMeans(files, planned.value);
        assert StoredAs(files, b, asName, k, Identity(planned.value[k].0)) by {
          assert InstallsAs(b, asName, k, planned.value[k].0);
        }
      }
    }
  }
}
