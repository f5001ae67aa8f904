/**
 Bundles: exporting a resolution, checking a bundle, and importing it into the
 local store as an all-or-nothing plan.
 */
module Bundle {
  import opened Wrappers
  import opened Text
  import opened MurlScheme
  import opened MurlRoundTrip
  import opened Manifest
  import opened Store
  import opened Resolver
  import Cache

  const BUNDLE_VERSION := "0.2"
  const MAX_BUNDLE_ENTRIES := 64

  // Foreign code: base64, the digest and its check, and parsing with validation,
  // which tells the id a manifest declares.
  datatype Tools = Tools(
    encode: string -> string,
    decode: string -> Option<string>,
    digest: string -> string,
    intact: (string, string) -> bool,
    inspect: string -> Option<Option<Murl>>)

  // Decoding undoes encoding, a digest fits what it was made of, and a manifest the
  // resolver accepts parses and validates.
  ghost predicate Faithful(t: Tools, w: World) {
    && (forall b: string :: t.decode(t.encode(b)) == Some(b))
    && (forall b: string :: t.intact(b, t.digest(b)))
    && (forall b: string :: w.decode(b).Ok? ==> t.inspect(b) == Some(w.decode(b).value.id))
  }

  // Any world has such tools: ones that write every payload twice and digest nothing.
  lemma FaithfulToolsExist(w: World) returns (t: Tools)
    ensures Faithful(t, w)
    ensures forall b: string :: |t.encode(b)| == 2 * |b|
  {
    t := Tools((b: string) => b + b, (b: string) => Some(b[..|b| / 2]), (b: string) => b,
               (b: string, pin: string) => b == pin,
               (b: string) => if w.decode(b).Ok? then Some(w.decode(b).value.id) else None);
    forall b: string ensures t.decode(t.encode(b)) == Some(b) {
      assert (b + b)[..|b + b| / 2] == b;
    }
  }

  datatype Entry = Entry(identity: Option<string>, name: string, integrity: string, bytes: string)

  datatype Bundle = Bundle(version: string, root: Option<string>, entries: seq<Entry>)

  datatype BundleError =
    | TooManyNodes
    | BundleTooLarge
    | WrongVersion
    | NoEntries
    | TooManyEntries
    | BadEncoding(i: nat)
    | EntryTooLarge(i: nat)
    | EntryCorrupt(i: nat)
    | EntryInvalid(i: nat)
    | BadIdentity(i: nat)
    | NotCanonical(i: nat)
    | DuplicateIdentity(i: nat)
    | RootMissing

  // ----- export -----

  function NodeIdentity(n: Node): Option<string> {
    if n.name.Some? then Some(Identity(n.name.value)) else None
  }

  function EntryOf(t: Tools, n: Node): Entry {
    Entry(NodeIdentity(n), n.doc.name, t.digest(n.bytes), t.encode(n.bytes))
  }

  function Export(t: Tools, nodes: seq<Node>): Result<Bundle, BundleError>
    requires |nodes| > 0
  {
    if |nodes| > MAX_BUNDLE_ENTRIES then Err(TooManyNodes)
    else Ok(Bundle(BUNDLE_VERSION, NodeIdentity(nodes[0]),
                   seq(|nodes|, i requires 0 <= i < |nodes| => EntryOf(t, nodes[i]))))
  }

  // An export has one entry for each manifest, in order, with its name, identity and bytes, and
  // the first one's identity for its root; more than 64 are refused.
  lemma ExportExactly(t: Tools, w: World, nodes: seq<Node>)
    requires |nodes| > 0 && Faithful(t, w)
    ensures Export(t, nodes).Ok? <==> |nodes| <= 64
    ensures Export(t, nodes).Ok? ==>
      var b := Export(t, nodes).value;
      && b.version == "0.2" && |b.entries| == |nodes| && b.root == b.entries[0].identity
      && forall i :: 0 <= i < |nodes| ==>
        && b.entries[i].identity == (if nodes[i].name.Some? then Some(Identity(nodes[i].name.value)) else None)
        && b.entries[i].name == nodes[i].doc.name
        && t.decode(b.entries[i].bytes) == Some(nodes[i].bytes) && t.intact(nodes[i].bytes, b.entries[i].integrity)
  {
  }

  // ----- checking -----

  // Multiplication that saturates at the machine word.
  function Cap(lim: Limits): nat {
    if lim.maxManifestBytes * 8 > Cache.U64_MAX then Cache.U64_MAX else lim.maxManifestBytes * 8
  }

  function DecodeEntry(t: Tools, lim: Limits, e: Entry, i: nat): Result<string, BundleError> {
    match t.decode(e.bytes)
    case None => Err(BadEncoding(i))
    case Some(raw) => if |raw| > lim.maxManifestBytes then Err(EntryTooLarge(i)) else Ok(raw)
  }

  // One entry on its own.
  function CheckEntry(t: Tools, lim: Limits, e: Entry, i: nat): Option<BundleError> {
    match DecodeEntry(t, lim, e, i)
    case Err(error) => Some(error)
    case Ok(raw) =>
      if !t.intact(raw, e.integrity) then Some(EntryCorrupt(i))
      else if t.inspect(raw).None? then Some(EntryInvalid(i))
      else if e.identity.Some? then
        match Parse(e.identity.value)
        case Err(_) => Some(BadIdentity(i))
        case Ok(m) => if Identity(m) != e.identity.value then Some(NotCanonical(i)) else None
      else None
  }

  // Identities of the first i entries.
  function Seen(entries: seq<Entry>, i: nat): set<string>
    requires i <= |entries|
  {
    if i == 0 then {}
    else Seen(entries, i - 1) + if entries[i - 1].identity.Some? then {entries[i - 1].identity.value} else {}
  }

  lemma {:induction false} SeenMeans(entries: seq<Entry>, i: nat, id: string)
    requires i <= |entries|
    ensures id in Seen(entries, i) <==> exists k :: 0 <= k < i && entries[k].identity == Some(id)
  {
    if i > 0 {
      SeenMeans(entries, i - 1, id);
    }
  }

  function CheckFrom(t: Tools, lim: Limits, entries: seq<Entry>, i: nat): Option<BundleError>
    requires i <= |entries|
    decreases |entries| - i
  {
    if i == |entries| then None
    else
      match CheckEntry(t, lim, entries[i], i)
      case Some(error) => Some(error)
      case None =>
        if entries[i].identity.Some? && entries[i].identity.value in Seen(entries, i) then Some(DuplicateIdentity(i))
        else CheckFrom(t, lim, entries, i + 1)
  }

  // `size` is the length of the bundle file.
  function CheckBundle(t: Tools, lim: Limits, size: nat, b: Bundle): Option<BundleError> {
    if size > Cap(lim) then Some(BundleTooLarge)
    else if b.version != BUNDLE_VERSION then Some(WrongVersion)
    else if b.entries == [] then Some(NoEntries)
    else if |b.entries| > MAX_BUNDLE_ENTRIES then Some(TooManyEntries)
    else
      match CheckFrom(t, lim, b.entries, 0)
      case Some(error) => Some(error)
      case None =>
        if b.root.Some? && b.root.value !in Seen(b.entries, |b.entries|) then Some(RootMissing) else None
  }

  predicate EntrySound(t: Tools, lim: Limits, e: Entry) {
    && t.decode(e.bytes).Some? && |t.decode(e.bytes).value| <= lim.maxManifestBytes
    && t.intact(t.decode(e.bytes).value, e.integrity) && t.inspect(t.decode(e.bytes).value).Some?
    && (e.identity.Some? ==> Parse(e.identity.value).Ok? && Identity(Parse(e.identity.value).value) == e.identity.value)
  }

  predicate IdentitiesDiffer(entries: seq<Entry>, from: nat) {
    forall i, j :: 0 <= i < j < |entries| && j >= from && entries[i].identity.Some? ==>
      entries[i].identity != entries[j].identity
  }

  // An entry's identity is new among the entries before it.
  predicate NewAt(entries: seq<Entry>, i: nat)
    requires i < |entries|
  {
    entries[i].identity.Some? ==> entries[i].identity.value !in Seen(entries, i)
  }

  lemma DifferStep(entries: seq<Entry>, i: nat)
    requires i < |entries|
    ensures IdentitiesDiffer(entries, i) <==> NewAt(entries, i) && IdentitiesDiffer(entries, i + 1)
  {
    if entries[i].identity.Some? {
      SeenMeans(entries, i, entries[i].identity.value);
    }
  }

  lemma CheckEntryMeans(t: Tools, lim: Limits, e: Entry, i: nat)
    ensures CheckEntry(t, lim, e, i).None? <==> EntrySound(t, lim, e)
  {
  }

  predicate AllSound(t: Tools, lim: Limits, entries: seq<Entry>, from: nat) {
    forall k :: from <= k < |entries| ==> EntrySound(t, lim, entries[k])
  }

  lemma {:induction false} CheckFromMeans(t: Tools, lim: Limits, entries: seq<Entry>, i: nat)
    requires i <= |entries|
    ensures CheckFrom(t, lim, entries, i).None? <==> AllSound(t, lim, entries, i) && IdentitiesDiffer(entries, i)
    decreases |entries| - i
  {
    if i < |entries| {
      CheckEntryMeans(t, lim, entries[i], i);
      DifferStep(entries, i);
      CheckFromMeans(t, lim, entries, i + 1);
    }
  }

  // A bundle is accepted exactly when it is small enough, of the one known version, has
  // between 1 and 64 sound entries under pairwise different identities, and holds its root.
  lemma AcceptedExactly(t: Tools, lim: Limits, size: nat, b: Bundle)
    ensures CheckBundle(t, lim, size, b).None? <==>
      && size <= 8 * lim.maxManifestBytes && size <= Cache.U64_MAX
      && b.version == BUNDLE_VERSION && 1 <= |b.entries| <= MAX_BUNDLE_ENTRIES
      && AllSound(t, lim, b.entries, 0) && IdentitiesDiffer(b.entries, 0)
      && (b.root.Some? ==> exists k :: 0 <= k < |b.entries| && b.entries[k].identity == b.root)
  {
    CheckFromMeans(t, lim, b.entries, 0);
    if b.root.Some? {
      SeenMeans(b.entries, |b.entries|, b.root.value);
    }
  }

  // What is wrong with entry i.
  predicate EntryWrong(t: Tools, lim: Limits, entries: seq<Entry>, i: nat, e: BundleError)
    requires i < |entries|
  {
    var raw, identity := t.decode(entries[i].bytes), entries[i].identity;
    match e
    case BadEncoding(j) => j == i && raw.None?
    case EntryTooLarge(j) => j == i && raw.Some? && |raw.value| > lim.maxManifestBytes
    case EntryCorrupt(j) => j == i && raw.Some? && !t.intact(raw.value, entries[i].integrity)
    case EntryInvalid(j) => j == i && raw.Some? && t.inspect(raw.value).None?
    case BadIdentity(j) => j == i && identity.Some? && Parse(identity.value).Err?
    case NotCanonical(j) =>
      j == i && identity.Some? && Parse(identity.value).Ok? && Identity(Parse(identity.value).value) != identity.value
    case DuplicateIdentity(j) =>
      j == i && identity.Some? && exists k :: 0 <= k < i && entries[k].identity == identity
    case _ => false
  }

  lemma {:induction false} EntriesWrong(t: Tools, lim: Limits, entries: seq<Entry>, i: nat)
    requires i <= |entries| && CheckFrom(t, lim, entries, i).Some?
    ensures exists j :: i <= j < |entries| && EntryWrong(t, lim, entries, j, CheckFrom(t, lim, entries, i).value)
    decreases |entries| - i
  {
    CheckStep(t, lim, entries, i);
    if EndsAt(t, lim, entries, i).Some? {
      EndsWrong(t, lim, entries, i);
    } else {
      EntriesWrong(t, lim, entries, i + 1);
    }
  }

  lemma EndsWrong(t: Tools, lim: Limits, entries: seq<Entry>, i: nat)
    requires i < |entries| && EndsAt(t, lim, entries, i).Some?
    ensures EntryWrong(t, lim, entries, i, EndsAt(t, lim, entries, i).value)
  {
    if entries[i].identity.Some? {
      SeenMeans(entries, i, entries[i].identity.value);
    }
  }

  // Every rejection names something that is wrong with the bundle.
  lemma RejectionMeans(t: Tools, lim: Limits, size: nat, b: Bundle)
    requires CheckBundle(t, lim, size, b).Some?
    ensures match CheckBundle(t, lim, size, b).value
            case BundleTooLarge => size > 8 * lim.maxManifestBytes || size > Cache.U64_MAX
            case WrongVersion => b.version != BUNDLE_VERSION
            case NoEntries => b.entries == []
            case TooManyEntries => |b.entries| > MAX_BUNDLE_ENTRIES
            case RootMissing =>
              b.root.Some? && forall k :: 0 <= k < |b.entries| ==> b.entries[k].identity != b.root
            case e => exists i :: 0 <= i < |b.entries| && EntryWrong(t, lim, b.entries, i, e)
  {
    if CheckFrom(t, lim, b.entries, 0).Some? {
      EntriesWrong(t, lim, b.entries, 0);
    }
    if b.root.Some? {
      SeenMeans(b.entries, |b.entries|, b.root.value);
    }
  }

  // Whether entry i ends the check, when everything before it is as it should be.
  function EndsAt(t: Tools, lim: Limits, entries: seq<Entry>, i: nat): Option<BundleError>
    requires i < |entries|
  {
    var error := CheckEntry(t, lim, entries[i], i);
    if error.Some? then error else if NewAt(entries, i) then None else Some(DuplicateIdentity(i))
  }

  lemma CheckStep(t: Tools, lim: Limits, entries: seq<Entry>, i: nat)
    requires i < |entries|
    ensures CheckFrom(t, lim, entries, i) ==
      if EndsAt(t, lim, entries, i).Some? then EndsAt(t, lim, entries, i) else CheckFrom(t, lim, entries, i + 1)
  {
  }

  method CheckOne(t: Tools, lim: Limits, entries: seq<Entry>, i: nat, seen: set<string>)
    returns (r: Option<BundleError>, more: set<string>)
    requires i < |entries| && seen == Seen(entries, i)
    ensures r == EndsAt(t, lim, entries, i)
    ensures r.None? ==> more == Seen(entries, i + 1)
  {
    more := seen;
    var entry := entries[i];
    r := CheckEntry(t, lim, entry, i);
    if r.None? && entry.identity.Some? {
      if entry.identity.value in seen {
        r := Some(DuplicateIdentity(i));
      } else {
        more := seen + {entry.identity.value};
      }
    }
  }

  method CheckEntries(t: Tools, lim: Limits, entries: seq<Entry>) returns (r: Option<BundleError>, seen: set<string>)
    ensures r == CheckFrom(t, lim, entries, 0)
    ensures r.None? ==> seen == Seen(entries, |entries|)
  {
    seen := {};
    var i := 0;
    while i < |entries|
      invariant i <= |entries| && seen == Seen(entries, i)
      invariant CheckFrom(t, lim, entries, i) == CheckFrom(t, lim, entries, 0)
    {
      CheckStep(t, lim, entries, i);
      r, seen := CheckOne(t, lim, entries, i, seen);
      if r.Some? {
        return;
      }
      i := i + 1;
    }
    return None, seen;
  }

  // `Bundle::from_slice` after the JSON is read.
  method FromSlice(t: Tools, lim: Limits, size: nat, b: Bundle) returns (r: Option<BundleError>)
    ensures r == CheckBundle(t, lim, size, b)
  {
    if size > Cap(lim) {
      return Some(BundleTooLarge);
    }
    if b.version != BUNDLE_VERSION {
      return Some(WrongVersion);
    }
    if b.entries == [] {
      return Some(NoEntries);
    }
    if |b.entries| > MAX_BUNDLE_ENTRIES {
      return Some(TooManyEntries);
    }
    var error, seen := CheckEntries(t, lim, b.entries);
    if error.Some? {
      return error;
    }
    if b.root.Some? && b.root.value !in seen {
      return Some(RootMissing);
    }
    return None;
  }

  // ----- planning an import -----

  datatype ImportError =
    | Rejected(error: BundleError)
    | UnusableName(text: string)
    | NotLocal(text: string)
    | Decorated(text: string)
    | Nameless(i: nat)
    | WrongId(i: nat)
    | Collision(identity: string)
    | AlreadyInstalled(identity: string)

  type Install = (Murl, string)

  function LocalName(name: string): Result<Murl, ImportError> {
    var text := if |name| >= 5 && Lowercase(name[..5]) == "murl:" then name else "murl://local/" + name;
    match Parse(text)
    case Err(_) => Err(UnusableName(name))
    case Ok(m) =>
      if !m.authority.Local? then Err(NotLocal(name))
      else if m.selector.Some? || m.query.Some? then Err(Decorated(name))
      else Ok(m)
  }

  // The same name path and version, in the local namespace.
  function Rehome(m: Murl): Murl {
    Murl(Local, m.name, m.version, None, None)
  }

  predicate IsRoot(b: Bundle, i: nat)
    requires i < |b.entries|
  {
    if b.root.Some? then b.entries[i].identity == b.root else i == 0
  }

  function NameFor(b: Bundle, asName: Option<string>, i: nat): Result<Murl, ImportError>
    requires i < |b.entries|
  {
    if IsRoot(b, i) && asName.Some? then LocalName(asName.value)
    else if b.entries[i].identity.None? then Err(Nameless(i))
    else
      match Parse(b.entries[i].identity.value)
      case Err(_) => Err(UnusableName(b.entries[i].identity.value))
      case Ok(m) => Ok(Rehome(m))
  }

  // The name and the bytes one entry is to be installed as.
  function PlanEntry(t: Tools, lim: Limits, b: Bundle, asName: Option<string>, i: nat): Result<Install, ImportError>
    requires i < |b.entries|
  {
    var m :- NameFor(b, asName, i);
    match DecodeEntry(t, lim, b.entries[i], i)
    case Err(error) => Err(Rejected(error))
    case Ok(raw) =>
      match t.inspect(raw)
      case None => Err(Rejected(EntryInvalid(i)))
      case Some(declared) =>
        if declared.Some? && !(declared.value.authority == m.authority && declared.value.name == m.name)
        then Err(WrongId(i)) else Ok((m, raw))
  }

  predicate Claimed(plan: seq<Install>, identity: string) {
    exists k :: 0 <= k < |plan| && Identity(plan[k].0) == identity
  }

  function PlanFrom(t: Tools, lim: Limits, b: Bundle, asName: Option<string>, i: nat, plan: seq<Install>)
    : Result<seq<Install>, ImportError>
    requires i <= |b.entries|
    decreases |b.entries| - i
  {
    if i == |b.entries| then Ok(plan)
    else
      var next :- PlanEntry(t, lim, b, asName, i);
      if Claimed(plan, Identity(next.0)) then Err(Collision(Identity(next.0)))
      else PlanFrom(t, lim, b, asName, i + 1, plan + [next])
  }

  function FirstInstalled(files: map<FilePath, string>, plan: seq<Install>): (r: Option<string>)
    ensures r.None? <==> forall i :: 0 <= i < |plan| ==> ManifestPath(plan[i].0) !in files
  {
    if plan == [] then None
    else if ManifestPath(plan[0].0) in files then Some(Identity(plan[0].0))
    else FirstInstalled(files, plan[1..])
  }

  function PlanImport(t: Tools, lim: Limits, files: map<FilePath, string>, size: nat, b: Bundle, asName: Option<string>,
                      force: bool): Result<seq<Install>, ImportError>
  {
    match CheckBundle(t, lim, size, b)
    case Some(error) => Err(Rejected(error))
    case None =>
      var plan :- PlanFrom(t, lim, b, asName, 0, []);
      var taken := FirstInstalled(files, plan);
      if !force && taken.Some? then Err(AlreadyInstalled(taken.value)) else Ok(plan)
  }

  // A map after the first n of a list of updates.
  function PutAll<K, V>(m: map<K, V>, puts: seq<(K, V)>, n: nat): map<K, V>
    requires n <= |puts|
  {
    if n == 0 then m else PutAll(m, puts, n - 1)[puts[n - 1].0 := puts[n - 1].1]
  }

  function Writes(plan: seq<Install>): seq<(FilePath, string)> {
    seq(|plan|, i requires 0 <= i < |plan| => (ManifestPath(plan[i].0), plan[i].1))
  }

  // The store after a plan is carried out.
  function Installed(files: map<FilePath, string>, plan: seq<Install>): map<FilePath, string> {
    PutAll(files, Writes(plan), |plan|)
  }

  // ----- importing -----

  lemma PlanFromStep(t: Tools, lim: Limits, b: Bundle, asName: Option<string>, i: nat, plan: seq<Install>)
    requires i < |b.entries|
    ensures PlanFrom(t, lim, b, asName, i, plan) ==
      var next := PlanEntry(t, lim, b, asName, i);
      if next.Err? then Err(next.error)
      else if Claimed(plan, Identity(next.value.0)) then Err(Collision(Identity(next.value.0)))
      else PlanFrom(t, lim, b, asName, i + 1, plan + [next.value])
  {
  }

  method MakePlan(t: Tools, lim: Limits, b: Bundle, asName: Option<string>)
    returns (r: Result<seq<Install>, ImportError>)
    ensures r == PlanFrom(t, lim, b, asName, 0, [])
  {
    var plan: seq<Install> := [];
    var claimed: set<string> := {};
    var i := 0;
    while i < |b.entries|
      invariant i <= |b.entries|
      invariant forall id :: id in claimed <==> Claimed(plan, id)
      invariant PlanFrom(t, lim, b, asName, i, plan) == PlanFrom(t, lim, b, asName, 0, [])
    {
      var next := PlanEntry(t, lim, b, asName, i);
      PlanFromStep(t, lim, b, asName, i, plan);
      if next.Err? {
        return Err(next.error);
      }
      var identity := Identity(next.value.0);
      if identity in claimed {
        return Err(Collision(identity));
      }
      ClaimMore(plan, next.value);
      claimed := claimed + {identity};
      plan := plan + [next.value];
      i := i + 1;
    }
    return Ok(plan);
  }

  lemma ClaimMore(plan: seq<Install>, next: Install)
    ensures forall id :: Claimed(plan + [next], id) <==> Claimed(plan, id) || id == Identity(next.0)
  {
    var more := plan + [next];
    assert more[|plan|] == next;
    forall id | Claimed(plan, id) ensures Claimed(more, id) {
      var k :| 0 <= k < |plan| && Identity(plan[k].0) == id;
      assert more[k] == plan[k];
    }
  }

  function Names(plan: seq<Install>): seq<string> {
    seq(|plan|, i requires 0 <= i < |plan| => Identity(plan[i].0))
  }

  method FindInstalled(store: LocalStore, plan: seq<Install>) returns (r: Option<string>)
    ensures r == FirstInstalled(store.files, plan)
  {
    var i := 0;
    while i < |plan|
      invariant i <= |plan| && FirstInstalled(store.files, plan[i..]) == FirstInstalled(store.files, plan)
    {
      assert plan[i..][1..] == plan[i + 1..];
      if ManifestPath(plan[i].0) in store.files {
        return Some(Identity(plan[i].0));
      }
      i := i + 1;
    }
    return None;
  }

  // Every refusal comes before the first write, so an import installs all or nothing.
  method Import(store: LocalStore, t: Tools, lim: Limits, size: nat, b: Bundle, asName: Option<string>, force: bool)
    returns (r: Result<seq<string>, ImportError>)
    modifies store
    ensures match PlanImport(t, lim, old(store.files), size, b, asName, force)
            case Err(error) => r == Err(error) && store.files == old(store.files)
            case Ok(plan) => r == Ok(Names(plan)) && store.files == Installed(old(store.files), plan)
  {
    var rejected := FromSlice(t, lim, size, b);
    if rejected.Some? {
      return Err(Rejected(rejected.value));
    }
    var planned := MakePlan(t, lim, b, asName);
    if planned.Err? {
      return Err(planned.error);
    }
    var plan := planned.value;
    if !force {
      var taken := FindInstalled(store, plan);
      if taken.Some? {
        return Err(AlreadyInstalled(taken.value));
      }
    }
    PlanStorable(t, lim, b, asName, 0, []);
    WriteAll(store, plan);
    return Ok(Names(plan));
  }

  method WriteOne(store: LocalStore, entry: Install)
    requires Storable(entry.0)
    modifies store
    ensures store.files == old(store.files)[ManifestPath(entry.0) := entry.1]
  {
    store.Add(entry.0, entry.1);
  }

  method WriteAll(store: LocalStore, plan: seq<Install>)
    requires AllStorable(plan)
    modifies store
    ensures store.files == Installed(old(store.files), plan)
  {
    var writes := Writes(plan);
    for i := 0 to |plan|
      invariant store.files == PutAll(old(store.files), writes, i)
    {
      WriteOne(store, plan[i]);
    }
  }

  // ----- what an import does -----

  predicate AllStorable(plan: seq<Install>) {
    forall k :: 0 <= k < |plan| ==> Storable(plan[k].0) && plan[k].0.authority.Local?
  }

  predicate AllDiffer(plan: seq<Install>) {
    forall j, k :: 0 <= j < k < |plan| ==> Identity(plan[j].0) != Identity(plan[k].0)
  }

  lemma LocalNameStorable(name: string)
    requires LocalName(name).Ok?
    ensures Storable(LocalName(name).value) && LocalName(name).value.authority.Local?
  {
    ParseSound(if |name| >= 5 && Lowercase(name[..5]) == "murl:" then name else "murl://local/" + name);
  }

  lemma EntryStorable(t: Tools, lim: Limits, b: Bundle, asName: Option<string>, i: nat)
    requires i < |b.entries| && NameFor(b, asName, i).Ok?
    ensures Storable(NameFor(b, asName, i).value) && NameFor(b, asName, i).value.authority.Local?
  {
    if IsRoot(b, i) && asName.Some? {
      LocalNameStorable(asName.value);
    } else {
      ParseSound(b.entries[i].identity.value);
    }
  }

  lemma StorableMore(plan: seq<Install>, next: Install)
    requires AllStorable(plan) && AllDiffer(plan) && Storable(next.0) && next.0.authority.Local?
    requires !Claimed(plan, Identity(next.0))
    ensures AllStorable(plan + [next]) && AllDiffer(plan + [next])
  {
  }

  // All of a plan can be stored, under pairwise different names.
  predicate SoundPlan(plan: seq<Install>) {
    AllStorable(plan) && AllDiffer(plan)
  }

  // Planning goes entry by entry.
  lemma PlanNext(t: Tools, lim: Limits, b: Bundle, asName: Option<string>, i: nat, plan: seq<Install>)
    returns (entry: Install)
    requires i < |b.entries| && PlanFrom(t, lim, b, asName, i, plan).Ok?
    ensures PlanEntry(t, lim, b, asName, i) == Ok(entry) && !Claimed(plan, Identity(entry.0))
    ensures PlanFrom(t, lim, b, asName, i, plan) == PlanFrom(t, lim, b, asName, i + 1, plan + [entry])
  {
    entry := PlanEntry(t, lim, b, asName, i).value;
  }

  lemma {:induction false} PlanExtends(t: Tools, lim: Limits, b: Bundle, asName: Option<string>, i: nat,
                                       plan: seq<Install>)
    requires i <= |b.entries| && PlanFrom(t, lim, b, asName, i, plan).Ok?
    ensures var all := PlanFrom(t, lim, b, asName, i, plan).value;
      plan <= all && |all| == |plan| + |b.entries| - i
    decreases |b.entries| - i
  {
    if i < |b.entries| {
      var next := i + 1;
      var entry := PlanNext(t, lim, b, asName, i, plan);
      PlanExtends(t, lim, b, asName, next, plan + [entry]);
    }
  }

  lemma {:induction false} PlanStorable(t: Tools, lim: Limits, b: Bundle, asName: Option<string>, i: nat,
                                        plan: seq<Install>)
    requires i <= |b.entries| && SoundPlan(plan) && PlanFrom(t, lim, b, asName, i, plan).Ok?
    ensures SoundPlan(PlanFrom(t, lim, b, asName, i, plan).value)
    decreases |b.entries| - i
  {
    if i < |b.entries| {
      var next := i + 1;
      var entry := PlanNext(t, lim, b, asName, i, plan);
      EntryStorable(t, lim, b, asName, i);
      StorableMore(plan, entry);
      PlanStorable(t, lim, b, asName, next, plan + [entry]);
    }
  }

  // Entry k is planned at place k.
  lemma {:induction false} PlanEntries(t: Tools, lim: Limits, b: Bundle, asName: Option<string>, i: nat,
                                       plan: seq<Install>, k: nat)
    requires |plan| == i <= k < |b.entries| && PlanFrom(t, lim, b, asName, i, plan).Ok?
    ensures k < |PlanFrom(t, lim, b, asName, i, plan).value|
    ensures PlanEntry(t, lim, b, asName, k) == Ok(PlanFrom(t, lim, b, asName, i, plan).value[k])
    decreases |b.entries| - i
  {
    var next := i + 1;
    var entry := PlanNext(t, lim, b, asName, i, plan);
    var more := plan + [entry];
    assert more[i] == entry;
    if i < k {
      PlanEntries(t, lim, b, asName, next, more, k);
    } else {
      PlacedStays(t, lim, b, asName, next, more, k);
    }
  }

  lemma PlacedStays(t: Tools, lim: Limits, b: Bundle, asName: Option<string>, i: nat, plan: seq<Install>, k: nat)
    requires k < |plan| && i <= |b.entries| && PlanFrom(t, lim, b, asName, i, plan).Ok?
    ensures k < |PlanFrom(t, lim, b, asName, i, plan).value|
    ensures PlanFrom(t, lim, b, asName, i, plan).value[k] == plan[k]
  {
    PlanExtends(t, lim, b, asName, i, plan);
  }

  lemma {:induction false} PutAllHolds<K, V>(m: map<K, V>, puts: seq<(K, V)>, n: nat)
    requires n <= |puts| && forall j, k :: 0 <= j < k < |puts| ==> puts[j].0 != puts[k].0
    ensures forall k :: 0 <= k < n ==> puts[k].0 in PutAll(m, puts, n) && PutAll(m, puts, n)[puts[k].0] == puts[k].1
    ensures forall p :: p in m && (forall k :: 0 <= k < n ==> puts[k].0 != p) ==>
      p in PutAll(m, puts, n) && PutAll(m, puts, n)[p] == m[p]
    ensures forall p :: p in PutAll(m, puts, n) ==> p in m || exists k :: 0 <= k < n && puts[k].0 == p
  {
    if n > 0 {
      PutAllHolds(m, puts, n - 1);
    }
  }

  // Names that differ in identity are stored apart.
  lemma WritesDiffer(plan: seq<Install>)
    requires AllStorable(plan) && AllDiffer(plan)
    ensures forall j, k :: 0 <= j < k < |plan| ==> Writes(plan)[j].0 != Writes(plan)[k].0
  {
    forall j, k | 0 <= j < k < |plan| ensures Writes(plan)[j].0 != Writes(plan)[k].0 {
      StoredApart(plan[j].0, plan[k].0);
    }
  }

  lemma StoredApart(a: Murl, b: Murl)
    requires Storable(a) && Storable(b) && a.authority == b.authority && Identity(a) != Identity(b)
    ensures ManifestPath(a) != ManifestPath(b)
  {
    PathInjective(a, b);
  }

  predicate Holds(files: map<FilePath, string>, m: Murl, bytes: string) {
    ManifestPath(m) in files && files[ManifestPath(m)] == bytes
  }

  predicate HoldsAll(files: map<FilePath, string>, plan: seq<Install>) {
    forall k :: 0 <= k < |plan| ==> Holds(files, plan[k].0, plan[k].1)
  }

  predicate IsTarget(plan: seq<Install>, p: FilePath) {
    exists k :: 0 <= k < |plan| && ManifestPath(plan[k].0) == p
  }

  lemma WritesAre(plan: seq<Install>, k: nat)
    requires k < |plan|
    ensures Writes(plan)[k] == (ManifestPath(plan[k].0), plan[k].1)
  {
  }

  // Everything planned is there.
  lemma InstalledWhole(files: map<FilePath, string>, plan: seq<Install>)
    requires AllStorable(plan) && AllDiffer(plan)
    ensures HoldsAll(Installed(files, plan), plan)
  {
    WritesDiffer(plan);
    PutAllHolds(files, Writes(plan), |plan|);
    forall k | 0 <= k < |plan| ensures Holds(Installed(files, plan), plan[k].0, plan[k].1) {
      WritesAre(plan, k);
    }
  }

  // Nothing else was added, and nothing else was touched.
  lemma InstalledOnly(files: map<FilePath, string>, plan: seq<Install>, p: FilePath)
    requires AllStorable(plan) && AllDiffer(plan)
    ensures p in Installed(files, plan) ==> p in files || IsTarget(plan, p)
    ensures p in files && !IsTarget(plan, p) ==> p in Installed(files, plan) && Installed(files, plan)[p] == files[p]
  {
    WritesDiffer(plan);
    PutAllHolds(files, Writes(plan), |plan|);
    TargetsAreWritten(plan, p);
  }

  lemma TargetsAreWritten(plan: seq<Install>, p: FilePath)
    ensures IsTarget(plan, p) <==> exists k :: 0 <= k < |plan| && Writes(plan)[k].0 == p
  {
    assert forall k :: 0 <= k < |plan| ==> Writes(plan)[k].0 == ManifestPath(plan[k].0);
  }

  // After a successful import every entry is stored under its own name, whole; nothing else
  // was added; and without force nothing that was there is changed.
  lemma ImportInstalls(t: Tools, lim: Limits, files: map<FilePath, string>, size: nat, b: Bundle,
                       asName: Option<string>, force: bool)
    requires PlanImport(t, lim, files, size, b, asName, force).Ok?
    ensures var plan := PlanImport(t, lim, files, size, b, asName, force).value;
      var after := Installed(files, plan);
      && |plan| == |b.entries| && AllStorable(plan) && AllDiffer(plan)
      && HoldsAll(after, plan)
      && (forall p :: p in after ==> p in files || IsTarget(plan, p))
      && (!force ==> forall p :: p in files ==> p in after && after[p] == files[p])
  {
    var plan := PlanImport(t, lim, files, size, b, asName, force).value;
    ImportPlans(t, lim, files, size, b, asName, force);
    InstalledWhole(files, plan);
    forall p {
      InstalledOnly(files, plan, p);
    }
    if !force {
      NotTaken(files, plan);
    }
  }

  // An import's plan has one sound entry for each of the bundle's, and without force none is taken.
  lemma ImportPlans(t: Tools, lim: Limits, files: map<FilePath, string>, size: nat, b: Bundle,
                    asName: Option<string>, force: bool)
    requires PlanImport(t, lim, files, size, b, asName, force).Ok?
    ensures var plan := PlanImport(t, lim, files, size, b, asName, force).value;
      && PlanFrom(t, lim, b, asName, 0, []) == Ok(plan)
      && |plan| == |b.entries| && SoundPlan(plan) && (!force ==> FirstInstalled(files, plan).None?)
  {
    PlanExtends(t, lim, b, asName, 0, []);
    PlanStorable(t, lim, b, asName, 0, []);
  }

  lemma NotTaken(files: map<FilePath, string>, plan: seq<Install>)
    requires FirstInstalled(files, plan).None?
    ensures forall p :: p in files ==> !IsTarget(plan, p)
  {
  }

  // What is stored for entry k is exactly what the entry carries.
  lemma ImportKeepsBytes(t: Tools, lim: Limits, files: map<FilePath, string>, size: nat, b: Bundle,
                         asName: Option<string>, force: bool, k: nat)
    requires PlanImport(t, lim, files, size, b, asName, force).Ok? && k < |b.entries|
    ensures var plan := PlanImport(t, lim, files, size, b, asName, force).value;
      && k < |plan| && PlanEntry(t, lim, b, asName, k) == Ok(plan[k])
      && t.decode(b.entries[k].bytes) == Some(plan[k].1)
  {
    var plan := PlanImport(t, lim, files, size, b, asName, force).value;
    assert PlanFrom(t, lim, b, asName, 0, []) == Ok(plan);
    PlanEntries(t, lim, b, asName, 0, [], k);
    EntryBytes(t, lim, b, asName, k);
  }

  lemma EntryBytes(t: Tools, lim: Limits, b: Bundle, asName: Option<string>, k: nat)
    requires k < |b.entries| && PlanEntry(t, lim, b, asName, k).Ok?
    ensures t.decode(b.entries[k].bytes) == Some(PlanEntry(t, lim, b, asName, k).value.1)
  {
  }
}
