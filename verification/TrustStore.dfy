/** Keys pinned for authorities. */
module TrustStore {
  import opened Wrappers
  import opened Text
  import opened MurlScheme
  import opened MurlRoundTrip
  import Utf8

  // An authority's canonical text, found by parsing a probe name under it.
  function Normalize(authority: string): Option<string> {
    match Parse("murl://" + authority + "/x")
    case Err(_) => None
    case Ok(m) => Some(m.authority.Text())
  }

  lemma AuthorityLength(a: Authority)
    requires ValidAuthority(a)
    ensures |a.Text()| <= 259
  {
    if a.Remote? && a.port.Some? {
      assert Pow10(5) == 100000;
      NatTextLength(a.port.value, 5);
    }
  }

  lemma ProbeIsIdentity(a: Authority)
    ensures "murl://" + a.Text() + "/x" == Identity(Murl(a, ["x"], Latest, None, None))
  {
    assert EncodeSegment("x"[1..]) == "";
    assert EncodeSegment("x") == "x";
    assert EncodeAll(["x"]) == ["x"];
    assert NamePath(["x"], Latest) == "x";
    assert "murl://" + a.Text() + "/x" == "murl://" + a.Text() + "/" + "x";
  }

  lemma ProbeSegment()
    ensures ValidSegment("x")
  {
    assert Utf8.Encode("x") == "x" by {
      assert "x"[1..] == "";
    }
    Utf8.DecodeEncode("x");
  }

  // The canonical text of every authority a mURL can have is kept.
  lemma NormalizeKeeps(a: Authority)
    requires ValidAuthority(a)
    ensures Normalize(a.Text()) == Some(a.Text())
  {
    var m := Murl(a, ["x"], Latest, None, None);
    AuthorityLength(a);
    ProbeIsIdentity(a);
    ProbeSegment();
    assert Print(m) == Identity(m);
    IdentityFixpoint(m);
  }

  // What is found is canonical already.
  lemma NormalizeTwice(s: string)
    requires Normalize(s).Some?
    ensures Normalize(Normalize(s).value) == Normalize(s)
  {
    ParseSound("murl://" + s + "/x");
    NormalizeKeeps(Parse("murl://" + s + "/x").value.authority);
  }

  // ----- what is taken for an authority -----

  // What stands before the first slash.
  function Head(s: string): string {
    if SplitOnce(s, '/').Some? then SplitOnce(s, '/').value.0 else s
  }

  predicate IsRawChar(c: char) {
    IsHostChar(ToLower(c)) || c == ':'
  }

  lemma RawHost(raw: string, port: Option<nat>)
    requires ParseHost(raw, port).Ok?
    ensures |raw| <= MAX_AUTHORITY_LEN && forall i :: 0 <= i < |raw| ==> IsRawChar(raw[i])
  {
    var host := Lowercase(raw);
    if host != LOCAL_AUTHORITY {
      HostChars(host);
    }
    assert HostText(host);
    forall i | 0 <= i < |raw| ensures IsRawChar(raw[i]) {
      assert IsHostChar(host[i]);
    }
  }

  lemma RawAuthorityChars(raw: string)
    requires ParseAuthority(raw).Ok?
    ensures |raw| <= MAX_AUTHORITY_LEN + 6 && forall i :: 0 <= i < |raw| ==> IsRawChar(raw[i])
  {
    match SplitOnce(raw, ':') {
      case None => RawHost(raw, None);
      case Some((h, p)) =>
        RawHost(h, Some(ParsePort(p).value));
        assert raw == h + [':'] + p;
        forall i | 0 <= i < |p| ensures IsRawChar(p[i]) {
          assert IsDigit(p[i]);
        }
    }
  }

  lemma RawPlain(raw: string)
    requires forall i :: 0 <= i < |raw| ==> IsRawChar(raw[i])
    ensures AllPrintable(raw) && '/' !in raw && '?' !in raw && '#' !in raw
  {
  }

  const PROBE := ["x"]

  lemma ProbePath()
    ensures ParsePath("x") == Ok((PROBE, Latest))
  {
    ProbeSegment();
    assert SplitOnce("x", '/') == None;
    assert Split("x", '/') == ["x"];
    assert PercentDecode("x") == Ok("x") by {
      assert PercentDecode("x"[1..]) == Ok("");
      assert ["x"[0]] + "" == "x";
    }
    assert SplitOnce("x", '@') == None;
  }

  lemma ProbeCuts(s: string)
    requires '/' !in s && '?' !in s && '#' !in s
    ensures CutAt(s + "/x", '#') == (s + "/x", None) && CutAt(s + "/x", '?') == (s + "/x", None)
    ensures SplitOnce(s + "/x", '/') == Some((s, "x"))
  {
    assert s + "/x" == s + ['/'] + "x";
    SplitOnceAt(s, "x", '/');
  }

  // A probe under an authority parses.
  lemma ProbeRest(s: string)
    requires ParseAuthority(s).Ok? && '/' !in s && '?' !in s && '#' !in s
    ensures ParseRest(s + "/x") == Ok(Murl(ParseAuthority(s).value, PROBE, Latest, None, None))
  {
    ProbeCuts(s);
    ProbePath();
  }

  lemma ProbePrint(a: Authority)
    requires ValidAuthority(a)
    ensures |Print(Murl(a, PROBE, Latest, None, None))| <= 268
  {
    ProbeIsIdentity(a);
    AuthorityLength(a);
    assert Decoration(Murl(a, PROBE, Latest, None, None)) == "";
  }

  lemma ProbeParses(s: string, m: Murl)
    requires ParseAuthority(s).Ok? && m == Murl(ParseAuthority(s).value, PROBE, Latest, None, None)
    requires ParseRest(s + "/x") == Ok(m) && AllPrintable(s + "/x") && |s| <= 259
    ensures Parse(SCHEME + (s + "/x")) == Ok(m)
  {
    AuthoritySound(s);
    ProbePrint(m.authority);
    StripWritten(s + "/x");
    SchemePrintable(s + "/x");
    ParseSteps(SCHEME + (s + "/x"), s + "/x", m);
  }

  lemma AuthorityNormalizes(s: string)
    requires ParseAuthority(s).Ok?
    ensures '/' !in s && Normalize(s) == Some(ParseAuthority(s).value.Text())
  {
    RawAuthorityChars(s);
    RawPlain(s);
    ProbeRest(s);
    ProbeParses(s, Murl(ParseAuthority(s).value, PROBE, Latest, None, None));
    Assoc("murl://", s, "/x");
  }

  lemma CutPrefix(s: string, c: char)
    ensures CutAt(s, c).0 <= s
  {
  }

  lemma HeadOfLonger(path: string, rest: string)
    requires path <= rest && SplitOnce(path, '/').Some?
    ensures SplitOnce(rest, '/').Some? && SplitOnce(rest, '/').value.0 == SplitOnce(path, '/').value.0
  {
    var (auth, name) := SplitOnce(path, '/').value;
    var more := rest[|path|..];
    assert rest == path + more;
    assert rest == auth + ['/'] + (name + more);
    SplitOnceAt(auth, name + more, '/');
  }

  // What is left of a text before its selector and its query.
  function PathPart(rest: string): string {
    CutAt(CutAt(rest, '#').0, '?').0
  }

  lemma PathPartPrefix(rest: string)
    ensures PathPart(rest) <= rest
  {
    CutPrefix(rest, '#');
    CutPrefix(CutAt(rest, '#').0, '?');
  }

  lemma PathPartHead(rest: string)
    requires ParseRest(rest).Ok?
    ensures SplitOnce(PathPart(rest), '/').Some?
    ensures ParseAuthority(SplitOnce(PathPart(rest), '/').value.0) == Ok(ParseRest(rest).value.authority)
  {
  }

  // The authority of a text that parses is what stands before its first slash.
  lemma RestHead(rest: string)
    requires ParseRest(rest).Ok?
    ensures SplitOnce(rest, '/').Some?
    ensures ParseAuthority(SplitOnce(rest, '/').value.0) == Ok(ParseRest(rest).value.authority)
  {
    PathPartPrefix(rest);
    PathPartHead(rest);
    HeadOfLonger(PathPart(rest), rest);
  }

  lemma HeadOfProbe(s: string)
    ensures SplitOnce(s + "/x", '/').Some? && SplitOnce(s + "/x", '/').value.0 == Head(s)
  {
    if '/' in s {
      var (front, tail) := SplitOnce(s, '/').value;
      assert s + "/x" == front + ['/'] + (tail + "/x");
      SplitOnceAt(front, tail + "/x", '/');
    } else {
      assert s + "/x" == s + ['/'] + "x";
      SplitOnceAt(s, "x", '/');
    }
  }

  lemma NormalizeHead(s: string)
    requires Normalize(s).Some?
    ensures ParseAuthority(Head(s)).Ok? && Normalize(s).value == ParseAuthority(Head(s)).value.Text()
  {
    var rest := s + "/x";
    Assoc("murl://", s, "/x");
    ParsedRest(rest);
    RestHead(rest);
    HeadOfProbe(s);
  }

  lemma ParsedRest(rest: string)
    requires Parse(SCHEME + rest).Ok?
    ensures ParseRest(rest) == Ok(Parse(SCHEME + rest).value)
  {
    StripWritten(rest);
  }

  // ----- which texts with a slash are taken -----

  // No selector holds a slash.
  lemma ItemNoSlash(part: string)
    requires ParseItem(part).Ok?
    ensures '/' !in part
  {
    if StartsWith(part, "role=") {
      assert part == "role=" + part[5..];
    } else if StartsWith(part, "tag=") {
      assert part == "tag=" + part[4..];
    }
  }

  lemma {:induction false} ItemsNoSlash(parts: seq<string>)
    requires ParseItems(parts).Ok?
    ensures forall i :: 0 <= i < |parts| ==> '/' !in parts[i]
  {
    if parts != [] {
      ItemNoSlash(parts[0]);
      ItemsNoSlash(parts[1..]);
      assert forall i :: 0 < i < |parts| ==> parts[i] == parts[1..][i - 1];
    }
  }

  predicate NoSlash(c: char) {
    c != '/'
  }

  lemma SelectorNoSlash(f: string)
    requires ParseSelector(f).Ok?
    ensures '/' !in f
  {
    var parts := Split(f, ',');
    ItemsNoSlash(parts);
    JoinAll(parts, ',', NoSlash);
  }

  // A probe's path ends up in its selector when there is one, which then does not parse.
  lemma SelectorRefused(s: string)
    requires '#' in s
    ensures ParseRest(s + "/x").Err?
  {
    var (front, f) := SplitOnce(s, '#').value;
    assert s + "/x" == front + ['#'] + (f + "/x");
    SplitOnceAt(front, f + "/x", '#');
    assert (f + "/x")[|f|] == '/';
    if ParseSelector(f + "/x").Ok? {
      SelectorNoSlash(f + "/x");
    }
  }

  // The name and the query of a probe, from what follows the first slash.
  function TailName(tail: string): Result<(seq<string>, Version), ParseError> {
    ParsePath(CutAt(tail + "/x", '?').0)
  }

  function TailQuery(tail: string): Option<string> {
    CutAt(tail + "/x", '?').1
  }

  predicate TailParses(tail: string) {
    '#' !in tail && TailName(tail).Ok? && (TailQuery(tail).Some? ==> |TailQuery(tail).value| <= MAX_QUERY_LEN)
  }

  function Probe(a: Authority, tail: string): Murl
    requires TailName(tail).Ok?
  {
    Murl(a, TailName(tail).value.0, TailName(tail).value.1, None, TailQuery(tail))
  }

  // Cutting behind a front that does not have the character.
  lemma CutBehind(front: string, t: string, c: char)
    requires c !in front
    ensures CutAt(front + t, c) == (front + CutAt(t, c).0, CutAt(t, c).1)
  {
    var (head, tail) := CutAt(t, c);
    if tail.Some? {
      assert front + t == (front + head) + [c] + tail.value;
    }
    CutBack(front + head, c, tail, front + t);
  }

  predicate Unmarked(front: string) {
    '/' !in front && '?' !in front && '#' !in front
  }

  lemma TailCuts(front: string, tail: string)
    requires Unmarked(front) && '#' !in tail
    ensures var rest := front + "/" + (tail + "/x");
      && CutAt(rest, '#') == (rest, None)
      && CutAt(rest, '?') == (front + "/" + CutAt(tail + "/x", '?').0, TailQuery(tail))
  {
    CutBehind(front + "/", tail + "/x", '#');
    CutBehind(front + "/", tail + "/x", '?');
  }

  lemma TailRest(front: string, tail: string)
    requires Unmarked(front) && '#' !in tail
    ensures var rest := front + "/" + (tail + "/x");
      && (ParseRest(rest).Ok? <==> ParseAuthority(front).Ok? && TailParses(tail))
      && (ParseRest(rest).Ok? ==> ParseRest(rest).value == Probe(ParseAuthority(front).value, tail))
  {
    TailCuts(front, tail);
    var path := CutAt(tail + "/x", '?').0;
    assert front + "/" + path == front + ['/'] + path;
    SplitOnceAt(front, path, '/');
    QueryUnmarked(tail);
  }

  // Without a selector there is no mark of one in the query either.
  lemma QueryUnmarked(tail: string)
    requires '#' !in tail
    ensures TailQuery(tail).Some? ==> '#' !in TailQuery(tail).value
  {
    if TailQuery(tail).Some? {
      var (path, query) := CutAt(tail + "/x", '?');
      assert tail + "/x" == path + ['?'] + query.value;
      assert forall i :: 0 <= i < |query.value| ==> query.value[i] == (tail + "/x")[|path| + 1 + i];
    }
  }

  // What the parser asks of a text after its scheme.
  lemma ParseExactly(rest: string)
    ensures Parse(SCHEME + rest).Ok? <==>
      && AllPrintable(rest) && |rest| + 7 <= MAX_MURL_LEN
      && ParseRest(rest).Ok? && |Print(ParseRest(rest).value)| <= MAX_MURL_LEN
  {
    StripWritten(rest);
    if AllPrintable(rest) {
      SchemePrintable(rest);
    }
    if Parse(SCHEME + rest).Ok? {
      assert AllPrintable(SCHEME + rest);
      assert rest == (SCHEME + rest)[7..];
    } else if AllPrintable(rest) && |rest| + 7 <= MAX_MURL_LEN && ParseRest(rest).Ok?
              && |Print(ParseRest(rest).value)| <= MAX_MURL_LEN {
      ParseSteps(SCHEME + rest, rest, ParseRest(rest).value);
    }
  }

  // An authority, and behind the slash a path and a query a mURL may have once the probe is
  // appended, in at most 1024 bytes as written and as printed.
  predicate Taken(front: string, tail: string) {
    && ParseAuthority(front).Ok? && AllPrintable(tail) && TailParses(tail)
    && |front| + |tail| + 10 <= MAX_MURL_LEN && |Print(Probe(ParseAuthority(front).value, tail))| <= MAX_MURL_LEN
  }

  lemma PrintableParts(front: string, tail: string)
    requires AllPrintable(front)
    ensures AllPrintable(front + "/" + (tail + "/x")) <==> AllPrintable(tail)
  {
    var rest := front + "/" + (tail + "/x");
    forall i | 0 <= i < |tail| ensures rest[|front| + 1 + i] == tail[i] {
    }
  }

  lemma SlashedParts(front: string, tail: string)
    ensures "murl://" + (front + "/" + tail) + "/x" == SCHEME + (front + "/" + (tail + "/x"))
    ensures front + "/" + tail + "/x" == front + "/" + (tail + "/x")
  {
    Assoc("murl://", front + "/" + tail, "/x");
    Assoc(front + "/", tail, "/x");
  }

  lemma AuthorityTaken(front: string, tail: string)
    requires ParseAuthority(front).Ok? && '/' !in front
    ensures Normalize(front + "/" + tail).Some? <==> Taken(front, tail)
  {
    var rest := front + "/" + (tail + "/x");
    RawAuthorityChars(front);
    RawPlain(front);
    SlashedParts(front, tail);
    ParseExactly(rest);
    PrintableParts(front, tail);
    if '#' in tail {
      assert '#' in front + "/" + tail by {
        assert forall i :: 0 <= i < |tail| ==> (front + "/" + tail)[|front| + 1 + i] == tail[i];
      }
      SelectorRefused(front + "/" + tail);
    } else {
      TailRest(front, tail);
    }
  }

  // Exactly these texts with a slash are taken, for the authority before it.
  lemma SlashedTaken(front: string, tail: string)
    requires '/' !in front
    ensures Normalize(front + "/" + tail).Some? <==> Taken(front, tail)
    ensures Taken(front, tail) ==> Normalize(front + "/" + tail).value == ParseAuthority(front).value.Text()
  {
    var s := front + "/" + tail;
    assert s == front + ['/'] + tail;
    SplitOnceAt(front, tail, '/');
    if ParseAuthority(front).Ok? {
      AuthorityTaken(front, tail);
    }
    if Normalize(s).Some? {
      NormalizeHead(s);
    }
  }

  // A key is pinned for the authority before the first slash. Without a slash the texts that are
  // taken are the authorities. No text with a slash is an authority; those that are taken all the
  // same are an authority with a path and a query behind it that a mURL may have.
  lemma NormalizeExactly(s: string)
    ensures Normalize(s).Some? ==>
      ParseAuthority(Head(s)).Ok? && Normalize(s).value == ParseAuthority(Head(s)).value.Text()
    ensures '/' !in s ==> (Normalize(s).Some? <==> ParseAuthority(s).Ok?)
    ensures '/' in s ==> ParseAuthority(s).Err?
    ensures '/' in s ==>
      (Normalize(s).Some? <==> Taken(SplitOnce(s, '/').value.0, SplitOnce(s, '/').value.1))
  {
    if Normalize(s).Some? {
      NormalizeHead(s);
    }
    if ParseAuthority(s).Ok? {
      AuthorityNormalizes(s);
    }
    if '/' in s {
      var (front, tail) := SplitOnce(s, '/').value;
      assert s == front + "/" + tail;
      SlashedTaken(front, tail);
    }
  }

  lemma TwoProbesParse(a: Authority)
    requires ValidAuthority(a)
    ensures Normalize(a.Text() + "/x") == Some(a.Text())
  {
    AuthorityLength(a);
    ProbeSegment();
    TwoProbes(a);
    PrintParse(Murl(a, ["x", "x"], Latest, None, None));
  }

  // A name is one of those.
  lemma NameTaken(a: Authority)
    requires ValidAuthority(a)
    ensures var s := a.Text() + "/x"; Normalize(s) == Some(a.Text()) && ParseAuthority(s).Err?
  {
    TwoProbesParse(a);
    NormalizeExactly(a.Text() + "/x");
    assert "/x"[0] == '/';
  }

  lemma TwoProbes(a: Authority)
    ensures var m := Murl(a, ["x", "x"], Latest, None, None);
      Print(m) == "murl://" + (a.Text() + "/x") + "/x" && |Print(m)| == |a.Text()| + 11
  {
    var m := Murl(a, ["x", "x"], Latest, None, None);
    assert EncodeSegment("x"[1..]) == "";
    assert EncodeSegment("x") == "x";
    assert EncodeAll(m.name) == ["x", "x"];
    assert Join(["x", "x"], '/') == "x/x" by {
      assert ["x", "x"][1..] == ["x"];
    }
    assert Decoration(m) == "";
  }

  datatype PinError = BadAuthority | BadKey

  class TrustStore {
    // Decodes a public key and derives its id; None for what is no key.
    const keyIdOf: string -> Option<string>
    var authorities: map<string, seq<string>>

    constructor (keyIdOf: string -> Option<string>)
      ensures this.keyIdOf == keyIdOf && Valid() && forall a, k :: !Pinned(a, k)
    {
      this.keyIdOf, authorities := keyIdOf, map[];
    }

    // A key is pinned once for an authority, and no authority is kept without keys.
    ghost predicate Valid()
      reads this
    {
      forall a :: a in authorities ==>
        && authorities[a] != []
        && forall i, j :: 0 <= i < j < |authorities[a]| ==> authorities[a][i] != authorities[a][j]
    }

    predicate Pinned(a: string, k: string)
      reads this
    {
      a in authorities && k in authorities[a]
    }

    method Add(authority: string, publicKey: string) returns (r: Result<string, PinError>)
      requires Valid()
      modifies this
      ensures Valid()
      ensures match r
              case Err(e) =>
                && authorities == old(authorities)
                && e == if Normalize(authority).None? then BadAuthority else BadKey
              case Ok(id) =>
                && keyIdOf(publicKey) == Some(id) && Normalize(authority).Some?
                && forall a, k :: Pinned(a, k) <==> old(Pinned(a, k)) || (a == Normalize(authority).value && k == id)
      ensures r.Ok? <==> Normalize(authority).Some? && keyIdOf(publicKey).Some?
    {
      var normalized := Normalize(authority);
      if normalized.None? {
        return Err(BadAuthority);
      }
      var id := keyIdOf(publicKey);
      if id.None? {
        return Err(BadKey);
      }
      Pin(normalized.value, id.value);
      return Ok(id.value);
    }

    method Pin(a: string, id: string)
      requires Valid()
      modifies this
      ensures Valid()
      ensures forall b, k :: Pinned(b, k) <==> old(Pinned(b, k)) || (b == a && k == id)
    {
      var keys := if a in authorities then authorities[a] else [];
      if id !in keys {
        authorities := authorities[a := keys + [id]];
      }
    }

    method Remove(authority: string, keyId: string) returns (r: Result<bool, PinError>)
      requires Valid()
      modifies this
      ensures Valid()
      ensures r.Err? <==> Normalize(authority).None?
      ensures r.Err? ==> authorities == old(authorities)
      ensures r.Ok? ==>
        && r.value == old(Pinned(Normalize(authority).value, keyId))
        && forall a, k :: Pinned(a, k) <==> old(Pinned(a, k)) && !(a == Normalize(authority).value && k == keyId)
    {
      var normalized := Normalize(authority);
      if normalized.None? {
        return Err(BadAuthority);
      }
      var removed := Unpin(normalized.value, keyId);
      return Ok(removed);
    }

    method Unpin(a: string, id: string) returns (removed: bool)
      requires Valid()
      modifies this
      ensures Valid() && removed == old(Pinned(a, id))
      ensures forall b, k :: Pinned(b, k) <==> old(Pinned(b, k)) && !(b == a && k == id)
    {
      if a !in authorities {
        return false;
      }
      var kept := Without(authorities[a], id);
      WithoutHolds(authorities[a], id);
      removed := |kept| != |authorities[a]|;
      authorities := if kept == [] then authorities - {a} else authorities[a := kept];
    }

    method IsTrusted(authority: string, keyId: string) returns (r: bool)
      ensures r <==> Normalize(authority).Some? && Pinned(Normalize(authority).value, keyId)
    {
      var normalized := Normalize(authority);
      return normalized.Some? && Pinned(normalized.value, keyId);
    }
  }

  function Without(keys: seq<string>, k: string): seq<string> {
    if keys == [] then []
    else Without(keys[..|keys| - 1], k) + if keys[|keys| - 1] == k then [] else [keys[|keys| - 1]]
  }

  lemma {:induction false} WithoutHolds(keys: seq<string>, k: string)
    requires forall i, j :: 0 <= i < j < |keys| ==> keys[i] != keys[j]
    ensures forall x :: x in Without(keys, k) <==> x in keys && x != k
    ensures |Without(keys, k)| == |keys| <==> k !in keys
    ensures |Without(keys, k)| <= |keys|
    ensures forall i, j :: 0 <= i < j < |Without(keys, k)| ==> Without(keys, k)[i] != Without(keys, k)[j]
  {
    if keys != [] {
      var front, last := keys[..|keys| - 1], keys[|keys| - 1];
      WithoutHolds(front, k);
      assert keys == front + [last];
      assert last !in front;
      assert Without(front, k) + [] == Without(front, k);
    }
  }
}
