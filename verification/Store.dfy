/**
 The local name store: `murl://local/...` names mapped to manifest files. A file
 is known by the components of its path under the store's root.
 */
module Store {
  import opened Wrappers
  import opened Text
  import opened MurlScheme
  import opened MurlRoundTrip
  import opened Sorting
  import Utf8

  type FilePath = seq<string>

  const EXTENSION := ".murl.json"

  // ----- name to path -----

  predicate IsPlain(c: char) {
    IsAlnum(c) || c == '.' || c == '_' || c == '-'
  }

  function Sanitize(s: string): string {
    if s == [] then []
    else (if IsPlain(s[0]) then [s[0]] else Escape(s[0])) + Sanitize(s[1..])
  }

  function SanitizeAll(name: seq<string>): seq<string> {
    seq(|name|, i requires 0 <= i < |name| => Sanitize(name[i]))
  }

  // The last component carries the version and the extension.
  function ManifestPath(m: Murl): FilePath {
    if m.name == [] then []
    else
      var marked := Marked(SanitizeAll(m.name), m.version);
      marked[..|marked| - 1] + [marked[|marked| - 1] + EXTENSION]
  }

  lemma {:induction false} SanitizeRoundTrip(s: string)
    requires Utf8.IsBytes(s)
    ensures PercentDecode(Sanitize(s)) == Ok(s)
    ensures RawText(Sanitize(s))
    ensures |Sanitize(s)| >= |s|
  {
    if s != [] {
      SanitizeRoundTrip(s[1..]);
      var rest := Sanitize(s[1..]);
      assert [s[0]] + s[1..] == s;
      if IsPlain(s[0]) {
        assert ([s[0]] + rest)[1..] == rest;
      } else {
        EscapeDecodes(s[0], rest, s[1..]);
      }
    }
  }

  lemma {:induction false} SanitizedSpells(name: seq<string>)
    requires ValidSegments(name)
    ensures Spells(SanitizeAll(name), name)
  {
    if name != [] {
      SanitizeRoundTrip(name[0]);
      SanitizedSpells(name[1..]);
      assert SanitizeAll(name)[1..] == SanitizeAll(name[1..]);
    }
  }

  lemma UnmarkPath(a: seq<string>, b: seq<string>)
    requires |a| >= 1 && |b| >= 1
    requires a[..|a| - 1] + [a[|a| - 1] + EXTENSION] == b[..|b| - 1] + [b[|b| - 1] + EXTENSION]
    ensures a == b
  {
    var p, q := a[..|a| - 1] + [a[|a| - 1] + EXTENSION], b[..|b| - 1] + [b[|b| - 1] + EXTENSION];
    var n := |a| - 1;
    assert |p| == |a| && |q| == |b|;
    assert p[n] == q[n];
    assert a[n] == p[n][..|p[n]| - |EXTENSION|] && b[n] == q[n][..|q[n]| - |EXTENSION|];
    assert a[..n] == p[..n] == q[..n] == b[..n];
    assert a == a[..n] + [a[n]] && b == b[..n] + [b[n]];
  }

  // A name fit to be stored. A name moved here from another authority is one,
  // though its own text may be too long to parse.
  predicate Storable(m: Murl) {
    ValidName(m.name) && ValidVersion(m.version)
  }

  // Different names have different files, so installing one never disturbs another.
  lemma PathInjective(a: Murl, b: Murl)
    requires Storable(a) && Storable(b)
    ensures ManifestPath(a) == ManifestPath(b) <==> a.name == b.name && a.version == b.version
  {
    if ManifestPath(a) == ManifestPath(b) {
      var x, y := SanitizeAll(a.name), SanitizeAll(b.name);
      UnmarkPath(Marked(x, a.version), Marked(y, b.version));
      SanitizedSpells(a.name);
      SanitizedSpells(b.name);
      NameRoundTrip(x, a.name, a.version);
      NameRoundTrip(y, b.name, b.version);
    }
  }

  // ----- path to listed name -----

  // The components with the extension taken off the last one.
  function Stems(path: FilePath): Option<seq<string>> {
    if path == [] || !EndsWith(path[|path| - 1], EXTENSION) then None
    else
      var last := path[|path| - 1];
      Some(path[..|path| - 1] + [last[..|last| - |EXTENSION|]])
  }

  // What `walk` builds for a file, before asking whether it parses.
  function ListedText(path: FilePath): Option<string> {
    match Stems(path)
    case None => None
    case Some(stems) => Some(SCHEME + (LOCAL_AUTHORITY + "/" + Join(stems, '/')))
  }

  function Listed(path: FilePath): Option<string> {
    match ListedText(path)
    case None => None
    case Some(text) => if Parse(text).Ok? then Some(text) else None
  }

  lemma StemsOf(marked: seq<string>)
    requires |marked| >= 1
    ensures Stems(marked[..|marked| - 1] + [marked[|marked| - 1] + EXTENSION]) == Some(marked)
  {
    var n := |marked| - 1;
    var path := marked[..n] + [marked[n] + EXTENSION];
    assert path[n] == marked[n] + EXTENSION;
    assert path[n][..|path[n]| - |EXTENSION|] == marked[n];
    assert path[n][|path[n]| - |EXTENSION|..] == EXTENSION;
    assert path[..n] + [marked[n]] == marked;
  }

  lemma ListedTextOf(m: Murl)
    requires Valid(m) && m.authority.Local?
    ensures ListedText(ManifestPath(m)) ==
      Some(SCHEME + (WrittenPath(m, SanitizeAll(m.name)) + Decoration(m.Bare())))
  {
    var texts := SanitizeAll(m.name);
    StemsOf(Marked(texts, m.version));
    JoinSuffix(texts, '/', VersionSuffix(m.version));
    assert WrittenPath(m, texts) + Decoration(m.Bare()) == WrittenPath(m, texts);
  }

  // A stored name is listed exactly when its escaped text fits the length limit,
  // and what is listed reads back as that name.
  lemma ListingReparses(m: Murl)
    requires Valid(m) && m.authority.Local?
    ensures var text := ListedText(ManifestPath(m));
      && text.Some?
      && (Listed(ManifestPath(m)) == text <==> |text.value| <= MAX_MURL_LEN)
      && (|text.value| <= MAX_MURL_LEN ==> Parse(text.value) == Ok(m.Bare()))
      && (|text.value| > MAX_MURL_LEN ==> Listed(ManifestPath(m)) == None)
  {
    ListedTextOf(m);
    BareValid(m);
    SanitizedSpells(m.name);
    if |SCHEME + (WrittenPath(m.Bare(), SanitizeAll(m.name)) + Decoration(m.Bare()))| <= MAX_MURL_LEN {
      WrittenRoundTrip(m.Bare(), SanitizeAll(m.name));
    }
  }

  predicate TildeFree(name: seq<string>) {
    forall i :: 0 <= i < |name| ==> '~' !in name[i]
  }

  lemma {:induction false} SanitizeCanonical(s: string)
    ensures '~' !in s ==> Sanitize(s) == EncodeSegment(s)
    ensures '~' in s ==> |Sanitize(s)| > |EncodeSegment(s)|
    ensures |Sanitize(s)| >= |EncodeSegment(s)|
  {
    if s != [] {
      SanitizeCanonical(s[1..]);
      assert s == [s[0]] + s[1..];
    }
  }

  lemma {:induction false} JoinLonger(xs: seq<string>, ys: seq<string>, c: char)
    requires |xs| == |ys| && forall i :: 0 <= i < |xs| ==> |xs[i]| >= |ys[i]|
    ensures |Join(xs, c)| >= |Join(ys, c)|
    ensures (exists i :: 0 <= i < |xs| && |xs[i]| > |ys[i]|) ==> |Join(xs, c)| > |Join(ys, c)|
  {
    if |xs| > 1 {
      JoinLonger(xs[1..], ys[1..], c);
      if i :| 0 <= i < |xs| && |xs[i]| > |ys[i]| {
        assert i > 0 ==> |xs[1..][i - 1]| > |ys[1..][i - 1]|;
      }
    }
  }

  // The listing promises canonical identities; it gives them for names without a tilde only.
  lemma ListingCanonical(m: Murl)
    requires Valid(m) && m.authority.Local?
    ensures ListedText(ManifestPath(m)) == Some(Identity(m)) <==> TildeFree(m.name)
  {
    ListedTextOf(m);
    BareValid(m);
    PrintWritten(m.Bare());
    var x, y := SanitizeAll(m.name), EncodeAll(m.name);
    forall i | 0 <= i < |m.name|
      ensures '~' !in m.name[i] ==> x[i] == y[i]
      ensures '~' in m.name[i] ==> |x[i]| > |y[i]|
      ensures |x[i]| >= |y[i]|
    {
      SanitizeCanonical(m.name[i]);
    }
    if TildeFree(m.name) {
      assert x == y;
    } else {
      var i :| 0 <= i < |m.name| && '~' in m.name[i];
      assert |x[i]| > |y[i]|;
      JoinLonger(x, y, '/');
    }
  }

  // ----- names that are listed otherwise, or not at all -----

  function Tildes(n: nat): string {
    seq(n, i => '~')
  }

  function TildeName(segments: nat, n: nat): Murl {
    Murl(Local, seq(segments, i => Tildes(n)), Latest, None, None)
  }

  lemma {:induction false} TildesWritten(n: nat)
    ensures EncodeSegment(Tildes(n)) == Tildes(n) && |Sanitize(Tildes(n))| == 3 * n
    ensures Utf8.Encode(Tildes(n)) == Tildes(n)
  {
    if n > 0 {
      TildesWritten(n - 1);
      assert Tildes(n)[1..] == Tildes(n - 1) && Tildes(n) == ['~'] + Tildes(n - 1);
      assert Utf8.EncodeChar('~') == ['~'];
    }
  }

  lemma {:induction false} JoinLength(parts: seq<string>, c: char, n: nat)
    requires |parts| >= 1 && forall i :: 0 <= i < |parts| ==> |parts[i]| == n
    ensures |Join(parts, c)| == |parts| * n + |parts| - 1
  {
    if |parts| > 1 {
      JoinLength(parts[1..], c, n);
      assert |parts| * n == (|parts| - 1) * n + n;
    }
  }

  lemma TildeSegmentValid(n: nat)
    requires 1 <= n <= MAX_SEGMENT_BYTES
    ensures ValidSegment(Tildes(n))
  {
    TildesWritten(n);
    Utf8.DecodeEncode(Tildes(n));
    assert PlainText(Tildes(n)) && Tildes(n)[0] == '~';
  }

  lemma TildePrint(segments: nat, n: nat)
    requires 1 <= segments <= MAX_SEGMENTS && 1 <= n <= MAX_SEGMENT_BYTES
    ensures |Print(TildeName(segments, n))| == 12 + segments * n + segments
  {
    var m := TildeName(segments, n);
    TildesWritten(n);
    assert EncodeAll(m.name) == m.name;
    JoinLength(m.name, '/', n);
    assert Decoration(m) == "";
  }

  lemma TildeNameValid(segments: nat, n: nat)
    requires 1 <= segments <= MAX_SEGMENTS && 1 <= n <= MAX_SEGMENT_BYTES
    ensures Valid(TildeName(segments, n))
  {
    TildeSegmentValid(n);
    TildePrint(segments, n);
    AtMostProduct(segments, n, MAX_SEGMENTS, MAX_SEGMENT_BYTES);
    var m := TildeName(segments, n);
    assert ValidName(m.name);
  }

  lemma AtMostProduct(a: nat, b: nat, c: nat, d: nat)
    requires a <= c && b <= d
    ensures a * b <= c * d
  {
    assert a * b <= c * b <= c * d;
  }

  lemma TildeListing(segments: nat, n: nat)
    requires 1 <= segments <= MAX_SEGMENTS && 1 <= n <= MAX_SEGMENT_BYTES
    ensures Valid(TildeName(segments, n))
    ensures ListedText(ManifestPath(TildeName(segments, n))).Some?
    ensures |ListedText(ManifestPath(TildeName(segments, n))).value| == 12 + segments * (3 * n) + segments
  {
    var m := TildeName(segments, n);
    TildeNameValid(segments, n);
    ListedTextOf(m);
    TildePath(segments, n);
    assert Decoration(m.Bare()) == "";
  }

  lemma TildePath(segments: nat, n: nat)
    requires 1 <= segments
    ensures var m := TildeName(segments, n);
      |WrittenPath(m, SanitizeAll(m.name))| == 5 + segments * (3 * n) + segments
  {
    TildesWritten(n);
    JoinLength(SanitizeAll(TildeName(segments, n).name), '/', 3 * n);
  }

  // Eight segments of 64 tildes are a name that can be stored and is not listed.
  lemma UnlistedName()
    ensures var m := TildeName(8, 64);
      Valid(m) && ListedText(ManifestPath(m)).Some? && Listed(ManifestPath(m)) == None
  {
    TildeListing(8, 64);
    ListingReparses(TildeName(8, 64));
  }

  // One tilde is enough for a name to be listed under a text that is not its identity.
  lemma EscapedListing()
    ensures var m := TildeName(1, 1);
      && Valid(m) && Listed(ManifestPath(m)).Some? && Listed(ManifestPath(m)) != Some(Identity(m))
  {
    var m := TildeName(1, 1);
    TildeListing(1, 1);
    ListingReparses(m);
    ListingCanonical(m);
    assert m.name[0][0] == '~';
  }

  // ----- the store -----

  method SanitizeComponent(seg: string) returns (out: string)
    ensures out == Sanitize(seg)
  {
    out := [];
    for i := 0 to |seg|
      invariant out + Sanitize(seg[i..]) == Sanitize(seg)
    {
      assert seg[i..][1..] == seg[i + 1..];
      var piece := if IsPlain(seg[i]) then [seg[i]] else Escape(seg[i]);
      Assoc(out, piece, Sanitize(seg[i + 1..]));
      out := out + piece;
    }
  }

  lemma PathsApart(m: Murl)
    requires Storable(m)
    ensures forall other: Murl :: Storable(other) ==>
      (ManifestPath(other) == ManifestPath(m) <==> other.name == m.name && other.version == m.version)
  {
    forall other: Murl | Storable(other)
      ensures ManifestPath(other) == ManifestPath(m) <==> other.name == m.name && other.version == m.version
    {
      PathInjective(other, m);
    }
  }

  // One of the files is listed as this text.
  ghost predicate ListedIn(paths: set<FilePath>, t: string) {
    exists p :: p in paths && Listed(p) == Some(t)
  }

  lemma ListedInMore(paths: set<FilePath>, p: FilePath)
    ensures forall t :: ListedIn(paths + {p}, t) <==> ListedIn(paths, t) || Listed(p) == Some(t)
  {
    forall t | ListedIn(paths, t) ensures ListedIn(paths + {p}, t) {
      var q :| q in paths && Listed(q) == Some(t);
      assert q in paths + {p};
    }
    forall t | Listed(p) == Some(t) ensures ListedIn(paths + {p}, t) {
      assert p in paths + {p};
    }
  }

  method InsertText(texts: seq<string>, text: string) returns (out: seq<string>)
    requires IsSorted(texts, Utf8.LexLess)
    ensures IsSorted(out, Utf8.LexLess) && forall t :: t in out <==> t in texts || t == text
  {
    LexIsOrder();
    InsertSorted(texts, text, Utf8.LexLess);
    InsertHolds(texts, text, Utf8.LexLess);
    out := Insert(texts, text, Utf8.LexLess);
  }

  class LocalStore {
    var files: map<FilePath, string>

    constructor ()
      ensures files == map[]
    {
      files := map[];
    }

    // What the store holds for a name.
    function Lookup(m: Murl): Option<string>
      reads this
    {
      if ManifestPath(m) in files then Some(files[ManifestPath(m)]) else None
    }

    method Load(m: Murl) returns (r: Option<string>)
      ensures r == Lookup(m)
    {
      r := if ManifestPath(m) in files then Some(files[ManifestPath(m)]) else None;
    }

    method Add(m: Murl, bytes: string)
      requires Storable(m)
      modifies this
      ensures files == old(files)[ManifestPath(m) := bytes]
      ensures forall other: Murl :: Storable(other) ==>
        Lookup(other) ==
        if other.name == m.name && other.version == m.version then Some(bytes) else old(Lookup(other))
    {
      files := files[ManifestPath(m) := bytes];
      PathsApart(m);
    }

    // Every listed text, sorted.
    method List() returns (out: seq<string>)
      ensures forall t :: t in out <==> ListedIn(files.Keys, t)
      ensures IsSorted(out, Utf8.LexLess)
    {
      out := [];
      var todo := files.Keys;
      ghost var done: set<FilePath> := {};
      while todo != {}
        invariant todo + done == files.Keys && IsSorted(out, Utf8.LexLess)
        invariant forall t :: t in out <==> ListedIn(done, t)
        decreases todo
      {
        var p :| p in todo;
        ListedInMore(done, p);
        todo, done := todo - {p}, done + {p};
        var text := Listed(p);
        if text.Some? {
          out := InsertText(out, text.value);
        }
      }
      assert done == files.Keys;
    }
  }
}
