/**
 The parser and printer of mURLs with the loops of murl.rs, each proved to
 compute the function of the same name in module MurlScheme.
 */
module MurlParser {
  import opened Wrappers
  import opened Text
  import opened MurlScheme
  import Utf8

  // What is read so far in front of what the rest of the input gives.
  function Prepend<T>(done: seq<T>, rest: Result<seq<T>, ParseError>): Result<seq<T>, ParseError> {
    if rest.Ok? then Ok(done + rest.value) else rest
  }

  method PercentDecode(s: string) returns (r: Result<string, ParseError>)
    ensures r == MurlScheme.PercentDecode(s)
  {
    var out: string := [];
    var i := 0;
    assert s[0..] == s;
    PrependEnds(out, MurlScheme.PercentDecode(s));
    while i < |s|
      invariant i <= |s|
      invariant Prepend(out, MurlScheme.PercentDecode(s[i..])) == MurlScheme.PercentDecode(s)
    {
      var rest := s[i..];
      if s[i] == '%' {
        if i + 3 > |s| {
          return Err(InvalidPercentEncoding);
        }
        var hi, lo := HexValue(s[i + 1]), HexValue(s[i + 2]);
        if hi.None? || lo.None? {
          return Err(InvalidPercentEncoding);
        }
        assert rest[3..] == s[i + 3..];
        PrependMore(out, (hi.value * 16 + lo.value) as char, MurlScheme.PercentDecode(s[i + 3..]));
        out := out + [(hi.value * 16 + lo.value) as char];
        i := i + 3;
      } else {
        assert rest[1..] == s[i + 1..];
        PrependMore(out, s[i], MurlScheme.PercentDecode(s[i + 1..]));
        out := out + [s[i]];
        i := i + 1;
      }
    }
    assert s[i..] == [];
    PrependEnds(out, MurlScheme.PercentDecode(s));
    return Ok(out);
  }

  lemma PrependEnds<T>(done: seq<T>, rest: Result<seq<T>, ParseError>)
    ensures Prepend([], rest) == rest && Prepend(done, Ok([])) == Ok(done)
  {
    assert done + [] == done;
    if rest.Ok? {
      assert [] + rest.value == rest.value;
    }
  }

  lemma PrependMore<T>(done: seq<T>, x: T, rest: Result<seq<T>, ParseError>)
    ensures Prepend(done, Prepend([x], rest)) == Prepend(done + [x], rest)
  {
    if rest.Ok? {
      assert done + ([x] + rest.value) == (done + [x]) + rest.value;
    }
  }

  method EncodeSegment(s: string) returns (out: string)
    requires Utf8.IsBytes(s)
    ensures out == MurlScheme.EncodeSegment(s)
  {
    out := [];
    for i := 0 to |s|
      invariant out + MurlScheme.EncodeSegment(s[i..]) == MurlScheme.EncodeSegment(s)
    {
      ghost var before := out;
      assert s[i..][1..] == s[i + 1..];
      if IsUnreserved(s[i]) {
        out := out + [s[i]];
        Assoc(before, [s[i]], MurlScheme.EncodeSegment(s[i + 1..]));
      } else {
        out := out + ['%'];
        out := out + [HexDigit(s[i] as int / 16)];
        out := out + [HexDigit(s[i] as int % 16)];
        assert out == before + Escape(s[i]);
        Assoc(before, Escape(s[i]), MurlScheme.EncodeSegment(s[i + 1..]));
      }
    }
  }

  method ParseVersion(s: string) returns (r: Result<Version, ParseError>)
    ensures r == MurlScheme.ParseVersion(s)
  {
    if s == "latest" {
      return Ok(Latest);
    }
    if s == "" {
      return Err(InvalidVersion);
    }
    var parts := Split(s, '.');
    if |parts| > 3 {
      return Err(InvalidVersion);
    }
    var nums: seq<nat> := [];
    assert parts[0..] == parts;
    PrependEnds(nums, NumbersOf(parts));
    for i := 0 to |parts|
      invariant Prepend(nums, NumbersOf(parts[i..])) == NumbersOf(parts)
    {
      var p := parts[i];
      if p == "" || |p| > 5 || !AllDigits(p) {
        return Err(InvalidVersion);
      }
      if |p| > 1 && p[0] == '0' {
        return Err(InvalidVersion);
      }
      assert parts[i..][1..] == parts[i + 1..];
      PrependMore(nums, NatValue(p), NumbersOf(parts[i + 1..]));
      nums := nums + [NatValue(p)];
    }
    assert parts[|parts|..] == [];
    PrependEnds(nums, NumbersOf(parts));
    return Ok(Pinned(nums));
  }

  method ParseSelector(f: string) returns (r: Result<seq<SelectorItem>, ParseError>)
    ensures r == MurlScheme.ParseSelector(f)
  {
    if f == "" {
      return Err(InvalidSelector);
    }
    var parts := Split(f, ',');
    if |parts| > MAX_SELECTOR_ITEMS {
      return Err(InvalidSelector);
    }
    var items: seq<SelectorItem> := [];
    assert parts[0..] == parts;
    PrependEnds(items, ParseItems(parts));
    for i := 0 to |parts|
      invariant Prepend(items, ParseItems(parts[i..])) == ParseItems(parts)
    {
      assert parts[i..][1..] == parts[i + 1..];
      var item := ParseItem(parts[i]);
      if item.Err? {
        return Err(item.error);
      }
      PrependMore(items, item.value, ParseItems(parts[i + 1..]));
      items := items + [item.value];
    }
    assert parts[|parts|..] == [];
    PrependEnds(items, ParseItems(parts));
    return Ok(items);
  }

  method DecodeSegment(raw: string) returns (r: Result<string, ParseError>)
    ensures r == MurlScheme.DecodeSegment(raw)
  {
    if raw == "" {
      return Err(EmptySegment);
    }
    var bytes := PercentDecode(raw);
    if bytes.Err? {
      return bytes;
    }
    if |bytes.value| > MAX_SEGMENT_BYTES {
      return Err(SegmentTooLong);
    }
    r := if ValidSegment(bytes.value) then Ok(bytes.value) else Err(InvalidSegment);
  }

  // Decoded segments in front of what the remaining raw segments decode to.
  function PrependName(done: seq<string>, rest: Result<(seq<string>, Version), ParseError>)
    : Result<(seq<string>, Version), ParseError>
  {
    if rest.Ok? then Ok((done + rest.value.0, rest.value.1)) else rest
  }

  lemma PrependNameMore(done: seq<string>, seg: string, rest: Result<(seq<string>, Version), ParseError>)
    ensures PrependName(done, PrependName([seg], rest)) == PrependName(done + [seg], rest)
  {
    if rest.Ok? {
      assert done + ([seg] + rest.value.0) == (done + [seg]) + rest.value.0;
    }
  }

  // The segment loop of `Murl::parse`: the version marker may only decorate the final one.
  method DecodeSegments(raws: seq<string>) returns (r: Result<(seq<string>, Version), ParseError>)
    requires |raws| >= 1
    ensures r == DecodeName(raws)
  {
    var segments: seq<string> := [];
    var last := |raws| - 1;
    assert raws[0..] == raws;
    assert PrependName([], DecodeName(raws)) == DecodeName(raws) by {
      if DecodeName(raws).Ok? {
        assert [] + DecodeName(raws).value.0 == DecodeName(raws).value.0;
      }
    }
    for i := 0 to last
      invariant PrependName(segments, DecodeName(raws[i..])) == DecodeName(raws)
    {
      assert raws[i..][1..] == raws[i + 1..];
      if '@' in raws[i] {
        return Err(MisplacedVersionMarker);
      }
      var seg := DecodeSegment(raws[i]);
      if seg.Err? {
        return Err(seg.error);
      }
      assert DecodeName(raws[i..]) == PrependName([seg.value], DecodeName(raws[i + 1..]));
      PrependNameMore(segments, seg.value, DecodeName(raws[i + 1..]));
      segments := segments + [seg.value];
    }
    assert raws[last..] == [raws[last]];
    var end := DecodeLast(raws[last]);
    if end.Err? {
      return Err(end.error);
    }
    return Ok((segments + [end.value.0], end.value.1));
  }

  method DecodeLast(raw: string) returns (r: Result<(string, Version), ParseError>)
    ensures r == MurlScheme.DecodeLast(raw)
  {
    var version, name := Latest, raw;
    match SplitOnce(raw, '@') {
      case None =>
      case Some((base, ver)) =>
        if '@' in ver {
          return Err(MisplacedVersionMarker);
        }
        if base == "" {
          return Err(EmptySegment);
        }
        var v := ParseVersion(ver);
        if v.Err? {
          return Err(v.error);
        }
        version, name := v.value, base;
    }
    var seg := DecodeSegment(name);
    if seg.Err? {
      return Err(seg.error);
    }
    return Ok((seg.value, version));
  }

  method ParsePath(path: string) returns (r: Result<(seq<string>, Version), ParseError>)
    ensures r == MurlScheme.ParsePath(path)
  {
    if path == "" {
      return Err(MissingName);
    }
    var raws := Split(path, '/');
    if |raws| > MAX_SEGMENTS {
      return Err(TooManySegments);
    }
    r := DecodeSegments(raws);
  }

  method ParseRest(rest: string) returns (r: Result<Murl, ParseError>)
    ensures r == MurlScheme.ParseRest(rest)
  {
    var (body, fragment) := CutAt(rest, '#');
    var (path, query) := CutAt(body, '?');
    match SplitOnce(path, '/') {
      case None => return Err(MissingName);
      case Some((auth, name)) =>
        var authority := ParseAuthority(auth);
        if authority.Err? {
          return Err(authority.error);
        }
        var segments := ParsePath(name);
        if segments.Err? {
          return Err(segments.error);
        }
        var selector: Option<seq<SelectorItem>> := None;
        if fragment.Some? {
          var items := ParseSelector(fragment.value);
          if items.Err? {
            return Err(items.error);
          }
          selector := Some(items.value);
        }
        if query.Some? && ('#' in query.value || |query.value| > MAX_QUERY_LEN) {
          return Err(InvalidQuery);
        }
        return Ok(Murl(authority.value, segments.value.0, segments.value.1, selector, query));
    }
  }

  predicate ByteName(name: seq<string>) {
    forall i :: 0 <= i < |name| ==> Utf8.IsBytes(name[i])
  }

  // `Murl::identity`.
  method Identity(m: Murl) returns (s: string)
    requires ByteName(m.name) && |m.name| >= 1
    ensures s == MurlScheme.Identity(m)
  {
    s := AppendSegments(SCHEME + m.authority.Text(), m.name);
    SlashedIsJoin(EncodeAll(m.name));
    if m.version.Pinned? {
      s := s + "@";
      s := s + m.version.Text();
    }
  }

  method AppendSegments(head: string, name: seq<string>) returns (s: string)
    requires ByteName(name)
    ensures s == head + Slashed(EncodeAll(name))
  {
    s := head;
    ghost var texts := EncodeAll(name);
    for i := 0 to |name|
      invariant s == head + Slashed(texts[..i])
    {
      var seg := EncodeSegment(name[i]);
      SlashedNext(head, texts, i);
      s := s + "/";
      s := s + seg;
    }
    assert texts[..|texts|] == texts;
  }

  lemma SlashedNext(head: string, texts: seq<string>, i: nat)
    requires i < |texts|
    ensures head + Slashed(texts[..i + 1]) == (head + Slashed(texts[..i])) + "/" + texts[i]
  {
    SlashedMore(texts[..i], texts[i]);
    assert texts[..i + 1] == texts[..i] + [texts[i]];
  }

  // Each text after a slash.
  function Slashed(texts: seq<string>): string {
    if texts == [] then "" else "/" + texts[0] + Slashed(texts[1..])
  }

  lemma {:induction false} SlashedMore(texts: seq<string>, t: string)
    ensures Slashed(texts + [t]) == Slashed(texts) + "/" + t
  {
    if texts != [] {
      assert (texts + [t])[1..] == texts[1..] + [t];
      SlashedMore(texts[1..], t);
    } else {
      assert Slashed([t]) == "/" + t + Slashed([t][1..]);
    }
  }

  lemma {:induction false} SlashedIsJoin(texts: seq<string>)
    requires |texts| >= 1
    ensures Slashed(texts) == "/" + Join(texts, '/')
  {
    if |texts| > 1 {
      SlashedIsJoin(texts[1..]);
    }
  }

  method Parse(input: string) returns (r: Result<Murl, ParseError>)
    ensures r == MurlScheme.Parse(input)
  {
    if |input| > MAX_MURL_LEN {
      return Err(TooLong);
    }
    for i := 0 to |input|
      invariant forall k :: 0 <= k < i ==> IsPrintable(input[k])
    {
      if !IsPrintable(input[i]) {
        assert FirstUnprintable(input) == i;
        return Err(InvalidCharacter(i));
      }
    }
    var rest := StripScheme(input);
    if rest.None? {
      return Err(MissingScheme);
    }
    var m := ParseRest(rest.value);
    if m.Err? {
      return m;
    }
    var identity := Identity(m.value);
    var canonical := |identity + Decoration(m.value)|;
    r := if canonical > MAX_MURL_LEN then Err(CanonicalTooLong(canonical)) else m;
  }
}
