/**
 What the parser accepts, told by the ways a mURL may be spelled: the scheme and the host in
 any case, ports with leading zeros, segments escaped at will, and `@latest` written or not.
 Everything else has one spelling.
 */
module MurlSpelling {
  import opened Wrappers
  import opened Text
  import opened Grammar
  import opened MurlScheme
  import opened MurlRoundTrip
  import Utf8

  // ----- segments -----

  predicate IsHex(c: char) {
    IsDigit(c) || 'a' <= c <= 'f' || 'A' <= c <= 'F'
  }

  function HexOf(c: char): nat
    requires IsHex(c)
  {
    if IsDigit(c) then c as int - '0' as int
    else c as int - (if 'a' <= c then 'a' else 'A') as int + 10
  }

  // A text that stands for some bytes, one by one: as they are, or each as a percent sign and
  // two hex digits of either case.
  predicate Stands(raw: string, bytes: string)
    decreases |bytes|
  {
    if bytes == "" then raw == ""
    else
      || (raw != "" && raw[0] != '%' && raw[0] == bytes[0] && Stands(raw[1..], bytes[1..]))
      || (&& |raw| >= 3 && raw[0] == '%' && IsHex(raw[1]) && IsHex(raw[2])
          && HexOf(raw[1]) * 16 + HexOf(raw[2]) == bytes[0] as int && Stands(raw[3..], bytes[1..]))
  }

  lemma HexValues(c: char)
    ensures HexValue(c) == if IsHex(c) then Some(HexOf(c)) else None
  {
  }

  lemma {:induction false} DecodedStands(raw: string)
    requires PercentDecode(raw).Ok?
    ensures Stands(raw, PercentDecode(raw).value)
    decreases |raw|
  {
    if raw != "" {
      var bytes := PercentDecode(raw).value;
      if raw[0] != '%' {
        DecodedStands(raw[1..]);
        assert bytes[1..] == PercentDecode(raw[1..]).value;
      } else {
        HexValues(raw[1]);
        HexValues(raw[2]);
        DecodedStands(raw[3..]);
        assert bytes[1..] == PercentDecode(raw[3..]).value;
      }
    }
  }

  lemma {:induction false} StandsDecoded(raw: string, bytes: string)
    requires Stands(raw, bytes)
    ensures PercentDecode(raw) == Ok(bytes)
    decreases |raw|
  {
    if bytes != "" {
      assert bytes == [bytes[0]] + bytes[1..];
      if raw[0] != '%' {
        StandsDecoded(raw[1..], bytes[1..]);
      } else {
        HexValues(raw[1]);
        HexValues(raw[2]);
        StandsDecoded(raw[3..], bytes[1..]);
      }
    }
  }

  lemma SegmentExactly(raw: string, seg: string)
    ensures DecodeSegment(raw) == Ok(seg) <==> Stands(raw, seg) && ValidSegment(seg)
  {
    if PercentDecode(raw).Ok? {
      DecodedStands(raw);
    }
    if Stands(raw, seg) {
      StandsDecoded(raw, seg);
    }
  }

  // ----- versions -----

  lemma TenTimes(f: nat, d: nat, n: nat)
    requires d < 10 && n == 10 * f + d
    ensures n / 10 == f && n % 10 == d
  {
  }

  lemma NumeralMore(f: nat, d: nat, n: nat)
    requires 0 < f && d < 10 && n == 10 * f + d
    ensures NatText(n) == NatText(f) + [DigitChar(d)]
  {
    TenTimes(f, d, n);
  }

  lemma LastDigit(p: string) returns (front: string, d: nat)
    requires AllDigits(p) && p != ""
    ensures d < 10 && p == front + [DigitChar(d)] && AllDigits(front) && NatValue(p) == 10 * NatValue(front) + d
  {
    var n := |p| - 1;
    assert IsDigit(p[n]);
    front, d := p[..n], p[n] as int - '0' as int;
    assert DigitChar(d) == p[n];
  }

  // A numeral without a leading zero is the text of its value.
  lemma {:induction false} NumeralIsText(p: string)
    requires AllDigits(p) && p != "" && (|p| > 1 ==> p[0] != '0')
    ensures NatText(NatValue(p)) == p && (p[0] != '0' ==> NatValue(p) > 0)
    decreases |p|
  {
    var front, d := LastDigit(p);
    if front == "" {
      assert p == [DigitChar(d)];
    } else {
      assert front[0] == p[0];
      NumeralIsText(front);
      NumeralMore(NatValue(front), d, NatValue(p));
    }
  }

  lemma NumberTextsMore(n: nat, nums: seq<nat>)
    ensures NumberTexts([n] + nums) == [NatText(n)] + NumberTexts(nums)
  {
  }

  lemma {:induction false} NumbersAreTexts(parts: seq<string>)
    requires NumbersOf(parts).Ok?
    ensures parts == NumberTexts(NumbersOf(parts).value)
  {
    if parts != [] {
      var first, rest := NatValue(parts[0]), NumbersOf(parts[1..]).value;
      NumeralIsText(parts[0]);
      NumbersAreTexts(parts[1..]);
      NumberTextsMore(first, rest);
      assert parts == [parts[0]] + parts[1..];
    }
  }

  // A version has one text.
  lemma VersionExactly(s: string, v: Version)
    ensures ParseVersion(s) == Ok(v) <==> ValidVersion(v) && s == v.Text()
  {
    if ParseVersion(s) == Ok(v) {
      VersionSound(s);
      if v.Pinned? {
        NumbersAreTexts(Split(s, '.'));
      }
    }
    if ValidVersion(v) && s == v.Text() {
      VersionRoundTrip(v);
    }
  }

  // What may follow the last segment.
  predicate Suffix(t: string, v: Version) {
    t == "@" + v.Text() || (v.Latest? && t == "")
  }

  // ----- names -----

  predicate Unmarked(raw: string) {
    '@' !in raw && PartOfPath(raw)
  }

  predicate PartOfPath(raw: string) {
    '/' !in raw && '?' !in raw && '#' !in raw
  }

  lemma LastParts(raw: string, base: string, ver: string) returns (seg: string, v: Version)
    requires DecodeLast(raw).Ok? && SplitOnce(raw, '@') == Some((base, ver))
    ensures DecodeLast(raw) == Ok((seg, v)) && ParseVersion(ver) == Ok(v) && DecodeSegment(base) == Ok(seg)
  {
    seg, v := DecodeLast(raw).value.0, DecodeLast(raw).value.1;
  }

  lemma LastAlone(raw: string) returns (seg: string)
    requires DecodeLast(raw).Ok? && SplitOnce(raw, '@') == None
    ensures DecodeLast(raw) == Ok((seg, Latest)) && DecodeSegment(raw) == Ok(seg)
  {
    seg := DecodeLast(raw).value.0;
  }

  lemma LastSpelled(raw: string, seg: string, v: Version) returns (base: string, suffix: string)
    requires DecodeLast(raw) == Ok((seg, v))
    ensures raw == base + suffix && '@' !in base
    ensures DecodeSegment(base) == Ok(seg) && Suffix(suffix, v) && ValidVersion(v)
  {
    match SplitOnce(raw, '@') {
      case None =>
        var alone := LastAlone(raw);
        base, suffix := raw, "";
      case Some((b, ver)) =>
        var s, u := LastParts(raw, b, ver);
        VersionExactly(ver, v);
        base, suffix := b, "@" + ver;
        Assoc(b, ['@'], ver);
    }
  }

  lemma SpelledLast(base: string, suffix: string, seg: string, v: Version)
    requires '@' !in base && base != "" && DecodeSegment(base) == Ok(seg) && Suffix(suffix, v) && ValidVersion(v)
    ensures DecodeLast(base + suffix) == Ok((seg, v))
  {
    if suffix == "" {
      assert base + suffix == base;
      DecodeLastUnmarked(base, seg);
    } else {
      var ver := v.Text();
      Assoc(base, ['@'], ver);
      SplitOnceAt(base, ver, '@');
      NoMark(v);
      VersionExactly(ver, v);
      DecodeLastPinned(base + suffix, base, ver, seg, v);
    }
  }

  lemma NonemptyRaw(raw: string, seg: string)
    requires DecodeSegment(raw) == Ok(seg)
    ensures raw != ""
  {
  }

  lemma NoMark(v: Version)
    requires ValidVersion(v)
    ensures Unmarked(v.Text())
  {
    if v.Pinned? {
      VersionChars(v);
      assert !IsVersionChar('@') && !IsVersionChar('/') && !IsVersionChar('?') && !IsVersionChar('#');
    }
  }

  // Segments that stand for those of a name.
  predicate AllStand(texts: seq<string>, name: seq<string>) {
    && |texts| == |name|
    && forall i :: 0 <= i < |name| ==> Stands(texts[i], name[i]) && Unmarked(texts[i])
  }

  // The last one followed by a suffix.
  function WithSuffix(texts: seq<string>, suffix: string): seq<string>
    requires texts != []
  {
    texts[..|texts| - 1] + [texts[|texts| - 1] + suffix]
  }

  lemma SuffixTail(texts: seq<string>, suffix: string)
    requires |texts| > 1
    ensures WithSuffix(texts, suffix)[0] == texts[0] && WithSuffix(texts, suffix)[1..] == WithSuffix(texts[1..], suffix)
  {
  }

  predicate PartsOfPath(raws: seq<string>) {
    forall i :: 0 <= i < |raws| ==> PartOfPath(raws[i])
  }

  lemma OneSpelled(raw: string, seg: string, v: Version) returns (base: string, suffix: string)
    requires PartOfPath(raw) && DecodeLast(raw) == Ok((seg, v))
    ensures raw == base + suffix && Unmarked(base) && Stands(base, seg) && Suffix(suffix, v) && ValidVersion(v)
  {
    base, suffix := LastSpelled(raw, seg, v);
    SegmentExactly(base, seg);
    assert forall i :: 0 <= i < |base| ==> base[i] == raw[i];
  }

  // A name of several segments, from its first on.
  lemma NameParts(raws: seq<string>, name: seq<string>, v: Version)
    requires |raws| > 1 && DecodeName(raws) == Ok((name, v))
    ensures '@' !in raws[0] && name != [] && DecodeSegment(raws[0]) == Ok(name[0])
    ensures DecodeName(raws[1..]) == Ok((name[1..], v))
  {
    var seg, rest := DecodeSegment(raws[0]).value, DecodeName(raws[1..]).value;
    assert name == [seg] + rest.0;
  }

  lemma AllStandOne(base: string, seg: string, name: seq<string>)
    requires Stands(base, seg) && Unmarked(base) && name == [seg]
    ensures AllStand([base], name)
  {
  }

  lemma AllStandMore(raw: string, texts: seq<string>, name: seq<string>)
    requires name != [] && Stands(raw, name[0]) && Unmarked(raw) && AllStand(texts, name[1..])
    ensures AllStand([raw] + texts, name)
  {
    var all := [raw] + texts;
    forall i | 0 <= i < |name| ensures Stands(all[i], name[i]) && Unmarked(all[i]) {
      if i > 0 {
        assert all[i] == texts[i - 1] && name[i] == name[1..][i - 1];
      }
    }
  }

  lemma WithSuffixMore(raw: string, texts: seq<string>, suffix: string)
    requires texts != []
    ensures WithSuffix([raw] + texts, suffix) == [raw] + WithSuffix(texts, suffix)
  {
  }

  lemma {:induction false} NameSpelled(raws: seq<string>, name: seq<string>, v: Version)
    returns (texts: seq<string>, suffix: string)
    requires |raws| >= 1 && PartsOfPath(raws) && DecodeName(raws) == Ok((name, v))
    ensures texts != [] && AllStand(texts, name) && Suffix(suffix, v) && ValidVersion(v)
    ensures raws == WithSuffix(texts, suffix)
  {
    if |raws| == 1 {
      var base, tail := OneSpelled(raws[0], name[0], v);
      texts, suffix := [base], tail;
      AllStandOne(base, name[0], name);
    } else {
      NameParts(raws, name, v);
      var more, tail := NameSpelled(raws[1..], name[1..], v);
      texts, suffix := [raws[0]] + more, tail;
      SegmentExactly(raws[0], name[0]);
      AllStandMore(raws[0], more, name);
      WithSuffixMore(raws[0], more, tail);
    }
  }

  lemma {:induction false} SpelledName(texts: seq<string>, suffix: string, name: seq<string>, v: Version)
    requires texts != [] && AllStand(texts, name) && ValidSegments(name) && Suffix(suffix, v) && ValidVersion(v)
    ensures DecodeName(WithSuffix(texts, suffix)) == Ok((name, v))
  {
    SegmentExactly(texts[0], name[0]);
    NonemptyRaw(texts[0], name[0]);
    if |texts| == 1 {
      SpelledLast(texts[0], suffix, name[0], v);
      OneName(texts[0] + suffix, name[0], v);
      OneText(texts, suffix, name);
    } else {
      SuffixTail(texts, suffix);
      AllStandTail(texts, name);
      SpelledName(texts[1..], suffix, name[1..], v);
      DecodeNameStep(WithSuffix(texts, suffix), name, v);
    }
  }

  lemma OneText(texts: seq<string>, suffix: string, name: seq<string>)
    requires |texts| == 1 == |name|
    ensures WithSuffix(texts, suffix) == [texts[0] + suffix] && name == [name[0]]
  {
  }

  lemma AllStandTail(texts: seq<string>, name: seq<string>)
    requires |texts| > 1 && AllStand(texts, name) && ValidSegments(name)
    ensures AllStand(texts[1..], name[1..]) && ValidSegments(name[1..])
  {
  }

  lemma OneName(raw: string, seg: string, v: Version)
    requires DecodeLast(raw) == Ok((seg, v))
    ensures DecodeName([raw]) == Ok(([seg], v))
  {
  }

  // ----- paths -----

  // A path spelled by some segments and a suffix.
  predicate SpelledBy(path: string, name: seq<string>, v: Version, texts: seq<string>, suffix: string) {
    texts != [] && AllStand(texts, name) && Suffix(suffix, v) && path == Join(texts, '/') + suffix
  }

  predicate FitName(name: seq<string>, v: Version) {
    ValidName(name) && ValidVersion(v)
  }

  lemma {:induction false} PartsOf(parts: seq<string>, t: string)
    requires t == Join(parts, '/') && '?' !in t && '#' !in t && forall i :: 0 <= i < |parts| ==> '/' !in parts[i]
    ensures PartsOfPath(parts)
    decreases |parts|
  {
    if |parts| > 1 {
      var tail := Join(parts[1..], '/');
      assert t == parts[0] + ['/'] + tail;
      assert forall i :: 0 <= i < |parts[0]| ==> parts[0][i] == t[i];
      assert forall i :: 0 <= i < |tail| ==> tail[i] == t[|parts[0]| + 1 + i];
      PartsOf(parts[1..], tail);
      assert parts == [parts[0]] + parts[1..];
    }
  }

  lemma PathSpelled(path: string, name: seq<string>, v: Version) returns (texts: seq<string>, suffix: string)
    requires ParsePath(path) == Ok((name, v)) && '?' !in path && '#' !in path
    ensures SpelledBy(path, name, v, texts, suffix)
  {
    var raws := Split(path, '/');
    PartsOf(raws, path);
    texts, suffix := NameSpelled(raws, name, v);
    JoinSuffix(texts, '/', suffix);
  }

  lemma SuffixedParts(texts: seq<string>, name: seq<string>, suffix: string, v: Version)
    requires texts != [] && AllStand(texts, name) && Suffix(suffix, v) && ValidVersion(v)
    ensures PartsOfPath(WithSuffix(texts, suffix))
  {
    NoMark(v);
    var raws := WithSuffix(texts, suffix);
    forall i | 0 <= i < |raws| ensures PartOfPath(raws[i]) {
      assert PartOfPath(texts[i]);
    }
  }

  lemma {:induction false} JoinedParts(parts: seq<string>)
    requires PartsOfPath(parts)
    ensures '?' !in Join(parts, '/') && '#' !in Join(parts, '/')
    decreases |parts|
  {
    if |parts| > 1 {
      JoinedParts(parts[1..]);
      assert PartOfPath(parts[0]);
    } else if |parts| == 1 {
      assert PartOfPath(parts[0]);
    }
  }

  lemma SpelledPath(path: string, name: seq<string>, v: Version, texts: seq<string>, suffix: string)
    requires FitName(name, v) && SpelledBy(path, name, v, texts, suffix)
    ensures ParsePath(path) == Ok((name, v)) && '?' !in path && '#' !in path
  {
    var raws := WithSuffix(texts, suffix);
    SpelledName(texts, suffix, name, v);
    JoinSuffix(texts, '/', suffix);
    SuffixedParts(texts, name, suffix, v);
    JoinedParts(raws);
    SplitParts(raws, path);
    NonemptyPath(path, texts[0], name[0], texts, suffix);
  }

  lemma SplitParts(raws: seq<string>, path: string)
    requires PartsOfPath(raws) && |raws| >= 1 && path == Join(raws, '/')
    ensures Split(path, '/') == raws
  {
    assert forall i :: 0 <= i < |raws| ==> PartOfPath(raws[i]);
    SplitJoin(raws, '/');
  }

  lemma NonemptyPath(path: string, first: string, seg: string, texts: seq<string>, suffix: string)
    requires texts != [] && first == texts[0] && Stands(first, seg) && seg != "" && path == Join(texts, '/') + suffix
    ensures path != ""
  {
  }

  // ----- authorities -----

  predicate PortText(p: string, port: nat) {
    1 <= |p| <= 5 && AllDigits(p) && NatValue(p) == port
  }

  // A host in any case, with its port.
  predicate SpelledHost(t: string, h: string, p: string, a: Authority) {
    match a
    case Local => t == h && Lowercase(h) == "local"
    case Remote(host, None) => t == h && Lowercase(h) == host
    case Remote(host, Some(port)) => t == h + ":" + p && Lowercase(h) == host && PortText(p, port)
  }

  lemma AuthoritySpelled(raw: string, a: Authority) returns (h: string, p: string)
    requires ParseAuthority(raw) == Ok(a)
    ensures SpelledHost(raw, h, p, a)
  {
    match SplitOnce(raw, ':') {
      case None => h, p := raw, "";
      case Some((host, port)) => h, p := host, port;
    }
  }

  // The characters of a host in any case.
  predicate CasedHost(h: string) {
    forall i :: 0 <= i < |h| ==> IsHostChar(ToLower(h[i]))
  }

  lemma CasedChars(h: string)
    requires CasedHost(h)
    ensures '@' !in h && '[' !in h && ']' !in h && '/' !in h && '?' !in h && '#' !in h && ':' !in h
  {
    forall i | 0 <= i < |h| ensures h[i] !in {'@', '[', ']', '/', '?', '#', ':'} {
      assert IsHostChar(ToLower(h[i]));
    }
  }

  lemma HostCased(t: string, h: string, p: string, a: Authority)
    requires ValidAuthority(a) && SpelledHost(t, h, p, a)
    ensures CasedHost(h) && h != ""
  {
    if a.Remote? {
      HostChars(a.host);
    }
    assert forall i :: 0 <= i < |h| ==> IsHostChar(Lowercase(h)[i]) && Lowercase(h)[i] == ToLower(h[i]);
  }

  lemma HostOnly(t: string, a: Authority)
    requires t != "" && CasedHost(t) && ValidAuthority(a) && (a.Remote? ==> a.port.None?)
    requires Lowercase(t) == if a.Local? then "local" else a.host
    ensures ParseAuthority(t) == Ok(a)
  {
    CasedChars(t);
    assert SplitOnce(t, ':') == None;
  }

  lemma HostPort(t: string, h: string, p: string, host: string, port: nat)
    requires t == h + ":" + p && h != "" && CasedHost(h) && ValidAuthority(Remote(host, Some(port)))
    requires Lowercase(h) == host && PortText(p, port)
    ensures ParseAuthority(t) == Ok(Remote(host, Some(port)))
  {
    CasedChars(h);
    SplitOnceAt(h, p, ':');
    Plain(t);
  }

  lemma Plain(t: string)
    requires forall i :: 0 <= i < |t| ==> IsHostChar(ToLower(t[i])) || t[i] == ':'
    ensures '@' !in t && '[' !in t && ']' !in t && '/' !in t && '?' !in t && '#' !in t
  {
    forall i | 0 <= i < |t| ensures t[i] !in {'@', '[', ']', '/', '?', '#'} {
      assert t[i] != ':' ==> IsHostChar(ToLower(t[i]));
    }
  }

  lemma SpelledAuthority(t: string, h: string, p: string, a: Authority)
    requires ValidAuthority(a) && SpelledHost(t, h, p, a)
    ensures ParseAuthority(t) == Ok(a) && '/' !in t && '?' !in t && '#' !in t
  {
    HostCased(t, h, p, a);
    if a.Remote? && a.port.Some? {
      HostPort(t, h, p, a.host, a.port.value);
    } else {
      HostOnly(t, a);
    }
    Plain(t);
  }

  // ----- selectors -----

  lemma ItemExactly(part: string, item: SelectorItem)
    ensures ParseItem(part) == Ok(item) <==> ValidItem(item) && part == item.Text()
  {
    if ParseItem(part) == Ok(item) {
      if StartsWith(part, "role=") {
        assert part == "role=" + part[5..];
      } else if StartsWith(part, "tag=") {
        assert part == "tag=" + part[4..];
      }
    }
    if ValidItem(item) && part == item.Text() {
      ItemRoundTrip(item);
    }
  }

  lemma {:induction false} ItemsSpelled(parts: seq<string>)
    requires ParseItems(parts).Ok?
    ensures parts == ItemTexts(ParseItems(parts).value)
  {
    if parts != [] {
      var items := ParseItems(parts).value;
      ItemExactly(parts[0], items[0]);
      ItemsSpelled(parts[1..]);
      assert ItemTexts(items)[1..] == ItemTexts(items[1..]);
      assert parts == [parts[0]] + parts[1..];
    }
  }

  // A selector has one text.
  lemma SelectorExactly(f: string, items: seq<SelectorItem>)
    ensures ParseSelector(f) == Ok(items) <==> ValidSelector(items) && f == Join(ItemTexts(items), ',')
  {
    if ParseSelector(f) == Ok(items) {
      ItemsSpelled(Split(f, ','));
      ItemsSound(Split(f, ','));
    }
    if ValidSelector(items) && f == Join(ItemTexts(items), ',') {
      SelectorRoundTrip(items);
    }
  }

  // ----- the parts a mURL may have -----

  predicate Letter(c: char) {
    'a' <= c <= 'z'
  }

  predicate WordChar(c: char) {
    Letter(c) || '0' <= c <= '9'
  }

  // Letters in lower case, digits, and hyphens inside.
  predicate ProperLabel(s: string) {
    && 1 <= |s| <= 63 && (forall i :: 0 <= i < |s| ==> WordChar(s[i]) || s[i] == '-')
    && !StartsWith(s, "-") && !EndsWith(s, "-")
  }

  predicate ProperAuthority(a: Authority) {
    match a
    case Local => true
    case Remote(host, port) =>
      && host != "local" && |host| <= 253 && (forall part :: part in Split(host, '.') ==> ProperLabel(part))
      && (port.Some? ==> 1 <= port.value <= 65535)
  }

  predicate ControlChar(c: char) {
    c as int <= 0x1f || 0x7f <= c as int <= 0x9f
  }

  // The UTF-8 of some text without control characters and separators, no dot segment.
  ghost predicate ProperSegment(s: string) {
    && 1 <= |s| <= 64 && s != "." && s != ".."
    && exists t :: Utf8.Encode(t) == s && forall i :: 0 <= i < |t| ==> !ControlChar(t[i]) && t[i] != '/' && t[i] != '\\'
  }

  predicate ProperVersion(v: Version) {
    v.Pinned? ==> 1 <= |v.nums| <= 3 && forall i :: 0 <= i < |v.nums| ==> v.nums[i] <= 99999
  }

  predicate ProperItem(item: SelectorItem) {
    var s := item.value;
    1 <= |s| &&
    match item
    case Id(_) =>
      |s| <= 64 && WordChar(s[0]) && forall i :: 0 <= i < |s| ==> WordChar(s[i]) || s[i] == '-' || s[i] == '_'
    case Role(_) => |s| <= 32 && WordChar(s[0]) && forall i :: 0 <= i < |s| ==> WordChar(s[i]) || s[i] == '-'
    case Tag(_) => |s| <= 32 && forall i :: 0 <= i < |s| ==> WordChar(s[i]) || s[i] == '-'
  }

  predicate Printable(s: string) {
    forall i :: 0 <= i < |s| ==> 0x21 <= s[i] as int <= 0x7e
  }

  ghost predicate Proper(m: Murl) {
    && ProperAuthority(m.authority) && ProperVersion(m.version)
    && 1 <= |m.name| <= 8 && (forall i :: 0 <= i < |m.name| ==> ProperSegment(m.name[i]))
    && (m.selector.Some? ==> 1 <= |m.selector.value| <= 8)
    && (m.selector.Some? ==> forall i :: 0 <= i < |m.selector.value| ==> ProperItem(m.selector.value[i]))
    && (m.query.Some? ==> |m.query.value| <= 512 && Printable(m.query.value) && '#' !in m.query.value)
    && |Print(m)| <= 1024
  }

  lemma LabelExactly(s: string)
    ensures ValidLabel(s) <==> ProperLabel(s)
  {
    if s != "" {
      assert StartsWith(s, "-") <==> s[0] == '-' by {
        assert s[..1] == [s[0]];
      }
      assert EndsWith(s, "-") <==> s[|s| - 1] == '-' by {
        assert s[|s| - 1..] == [s[|s| - 1]];
      }
    }
  }

  lemma AuthorityExactly(a: Authority)
    ensures ValidAuthority(a) <==> ProperAuthority(a)
  {
    if a.Remote? {
      var labels := Split(a.host, '.');
      forall part ensures ValidLabel(part) <==> ProperLabel(part) {
        LabelExactly(part);
      }
    }
  }

  lemma {:induction false} EncodedBytes(t: string)
    ensures Utf8.IsBytes(Utf8.Encode(t))
  {
    if t != "" {
      EncodedBytes(t[1..]);
    }
  }

  lemma ProperSegmentExactly(s: string)
    ensures ValidSegment(s) <==> ProperSegment(s)
  {
    if ValidSegment(s) {
      assert Utf8.Encode(Utf8.Decode(s).value) == s;
    }
    forall t | Utf8.Encode(t) == s ensures Utf8.Decode(s) == Some(t) && Utf8.IsBytes(s) {
      Utf8.DecodeEncode(t);
      EncodedBytes(t);
    }
  }

  lemma ItemProper(item: SelectorItem)
    ensures ValidItem(item) <==> ProperItem(item)
  {
  }

  lemma VersionProper(v: Version)
    ensures ValidVersion(v) <==> ProperVersion(v)
  {
  }

  lemma QueryProper(q: string)
    ensures ValidQuery(q) <==> |q| <= 512 && Printable(q) && '#' !in q
  {
  }

  lemma SelectorProper(items: seq<SelectorItem>)
    ensures ValidSelector(items) <==> 1 <= |items| <= 8 && forall i :: 0 <= i < |items| ==> ProperItem(items[i])
  {
    forall x ensures ValidItem(x) <==> ProperItem(x) {
      ItemProper(x);
    }
  }

  // The values the parser returns, part by part.
  lemma ProperExactly(m: Murl)
    ensures Valid(m) <==> Proper(m)
  {
    AuthorityExactly(m.authority);
    VersionProper(m.version);
    forall s ensures ValidSegment(s) <==> ProperSegment(s) {
      ProperSegmentExactly(s);
    }
    if m.selector.Some? {
      SelectorProper(m.selector.value);
    }
    if m.query.Some? {
      QueryProper(m.query.value);
    }
  }

  // ----- whole texts -----

  // How a mURL may be spelled: its scheme, its host and port, its segments, and what follows them.
  datatype Spelling = Spelling(scheme: string, host: string, port: string, texts: seq<string>, suffix: string)

  function AuthorityText(a: Authority, sp: Spelling): string {
    if a.Remote? && a.port.Some? then sp.host + ":" + sp.port else sp.host
  }

  function PathText(sp: Spelling): string {
    Join(sp.texts, '/') + sp.suffix
  }

  function TextOf(m: Murl, sp: Spelling): string {
    sp.scheme + (AuthorityText(m.authority, sp) + "/" + PathText(sp) + Decoration(m))
  }

  predicate SpellsHost(sp: Spelling, a: Authority) {
    && Lowercase(sp.host) == (if a.Local? then "local" else a.host)
    && (a.Remote? && a.port.Some? ==> PortText(sp.port, a.port.value))
  }

  predicate SpellsName(sp: Spelling, name: seq<string>, v: Version) {
    sp.texts != [] && AllStand(sp.texts, name) && Suffix(sp.suffix, v)
  }

  // A spelling of a mURL's parts.
  predicate Spells(sp: Spelling, m: Murl) {
    Lowercase(sp.scheme) == "murl://" && SpellsHost(sp, m.authority) && SpellsName(sp, m.name, m.version)
  }

  // The pieces a text is cut into.
  lemma RestPieces(rest: string, m: Murl)
    returns (body: string, fragment: Option<string>, path: string, a: string, name: string)
    requires ParseRest(rest) == Ok(m)
    ensures CutAt(rest, '#') == (body, fragment) && CutAt(body, '?') == (path, m.query)
    ensures SplitOnce(path, '/') == Some((a, name)) && ParseFragment(fragment) == Ok(m.selector)
    ensures ParseAuthority(a) == Ok(m.authority) && ParsePath(name) == Ok((m.name, m.version))
  {
    body, fragment := CutAt(rest, '#').0, CutAt(rest, '#').1;
    path := CutAt(body, '?').0;
    a, name := SplitOnce(path, '/').value.0, SplitOnce(path, '/').value.1;
  }

  lemma FragmentText(fragment: Option<string>, m: Murl)
    requires ParseFragment(fragment) == Ok(m.selector)
    ensures fragment.Some? <==> m.selector.Some?
    ensures fragment.Some? ==> fragment.value == Join(ItemTexts(m.selector.value), ',')
  {
    if fragment.Some? {
      SelectorExactly(fragment.value, m.selector.value);
    }
  }

  lemma CutParts(s: string, c: char)
    ensures var (head, tail) := CutAt(s, c);
      c !in head && s == head + (if tail.Some? then [c] + tail.value else "") && |head| <= |s| && head == s[..|head|]
  {
  }

  lemma Decorated(rest: string, body: string, path: string, m: Murl, fragment: Option<string>, query: Option<string>)
    requires rest == body + (if fragment.Some? then "#" + fragment.value else "") && '#' !in body
    requires body == path + (if query.Some? then "?" + query.value else "") && path == body[..|path|]
    requires m.query == query && (fragment.Some? <==> m.selector.Some?)
    requires fragment.Some? ==> fragment.value == Join(ItemTexts(m.selector.value), ',')
    ensures rest == path + Decoration(m) && '#' !in path
  {
    assert forall i :: 0 <= i < |path| ==> path[i] == body[i];
    Assoc(path, if query.Some? then "?" + query.value else "", if fragment.Some? then "#" + fragment.value else "");
  }

  // What is in front of query and selector, and the text they are.
  lemma RestCut(rest: string, m: Murl) returns (a: string, path: string)
    requires ParseRest(rest) == Ok(m)
    ensures rest == a + "/" + path + Decoration(m) && '?' !in path && '#' !in path
    ensures ParseAuthority(a) == Ok(m.authority) && ParsePath(path) == Ok((m.name, m.version))
  {
    var body, fragment, whole, authority, name := RestPieces(rest, m);
    a, path := authority, name;
    Undecorated(rest, body, fragment, whole, m);
    TailClean(whole, a, path);
  }

  lemma Undecorated(rest: string, body: string, fragment: Option<string>, whole: string, m: Murl)
    requires CutAt(rest, '#') == (body, fragment) && CutAt(body, '?') == (whole, m.query)
    requires ParseFragment(fragment) == Ok(m.selector)
    ensures rest == whole + Decoration(m) && '?' !in whole && '#' !in whole
  {
    FragmentText(fragment, m);
    CutParts(rest, '#');
    CutParts(body, '?');
    Decorated(rest, body, whole, m, fragment, m.query);
  }

  lemma TailClean(whole: string, a: string, path: string)
    requires whole == a + ['/'] + path && '?' !in whole && '#' !in whole
    ensures '?' !in path && '#' !in path && whole == a + "/" + path
  {
    assert forall i :: 0 <= i < |path| ==> path[i] == whole[|a| + 1 + i];
  }

  lemma HostSpells(raw: string, a: Authority, sp: Spelling)
    requires SpelledHost(raw, sp.host, sp.port, a)
    ensures SpellsHost(sp, a) && AuthorityText(a, sp) == raw
  {
  }

  lemma NameSpells(path: string, name: seq<string>, v: Version, sp: Spelling)
    requires SpelledBy(path, name, v, sp.texts, sp.suffix)
    ensures SpellsName(sp, name, v) && PathText(sp) == path
  {
  }

  lemma PartsSpelled(m: Murl, scheme: string, a: string, path: string) returns (sp: Spelling)
    requires ParseAuthority(a) == Ok(m.authority) && ParsePath(path) == Ok((m.name, m.version))
    requires '?' !in path && '#' !in path && Lowercase(scheme) == "murl://"
    ensures Spells(sp, m) && sp.scheme == scheme
    ensures AuthorityText(m.authority, sp) == a && PathText(sp) == path
  {
    var h, p := AuthoritySpelled(a, m.authority);
    var texts, suffix := PathSpelled(path, m.name, m.version);
    sp := Spelling(scheme, h, p, texts, suffix);
    HostSpells(a, m.authority, sp);
    NameSpells(path, m.name, m.version, sp);
  }

  lemma RestSpelled(rest: string, m: Murl, scheme: string) returns (sp: Spelling)
    requires ParseRest(rest) == Ok(m) && Lowercase(scheme) == "murl://"
    ensures Spells(sp, m) && sp.scheme == scheme
    ensures rest == AuthorityText(m.authority, sp) + "/" + PathText(sp) + Decoration(m)
  {
    var a, path := RestCut(rest, m);
    sp := PartsSpelled(m, scheme, a, path);
  }

  lemma RestParses(rest: string, m: Murl, body: string, whole: string, a: string, path: string,
                   fragment: Option<string>)
    requires CutAt(rest, '#') == (body, fragment) && CutAt(body, '?') == (whole, m.query)
    requires SplitOnce(whole, '/') == Some((a, path))
    requires ParseAuthority(a) == Ok(m.authority) && ParsePath(path) == Ok((m.name, m.version))
    requires ParseFragment(fragment) == Ok(m.selector) && (m.query.Some? ==> ValidQuery(m.query.value))
    ensures ParseRest(rest) == Ok(m)
  {
  }

  lemma FragmentParses(m: Murl)
    requires m.selector.Some? ==> ValidSelector(m.selector.value)
    ensures ParseFragment(if m.selector.Some? then Some(Join(ItemTexts(m.selector.value), ',')) else None) ==
            Ok(m.selector)
  {
    if m.selector.Some? {
      SelectorExactly(Join(ItemTexts(m.selector.value), ','), m.selector.value);
    }
  }

  lemma HostSpelled(a: Authority, sp: Spelling)
    requires ValidAuthority(a) && SpellsHost(sp, a)
    ensures var t := AuthorityText(a, sp); ParseAuthority(t) == Ok(a) && '/' !in t && '?' !in t && '#' !in t
  {
    SpelledAuthority(AuthorityText(a, sp), sp.host, sp.port, a);
  }

  lemma NameIsSpelled(name: seq<string>, v: Version, sp: Spelling)
    requires FitName(name, v) && SpellsName(sp, name, v)
    ensures var t := PathText(sp); ParsePath(t) == Ok((name, v)) && '?' !in t && '#' !in t
  {
    SpelledPath(PathText(sp), name, v, sp.texts, sp.suffix);
  }

  lemma JoinedRest(m: Murl, a: string, path: string)
    requires Valid(m) && ParseAuthority(a) == Ok(m.authority) && ParsePath(path) == Ok((m.name, m.version))
    requires '/' !in a && '?' !in a && '#' !in a && '?' !in path && '#' !in path
    ensures ParseRest(a + "/" + path + Decoration(m)) == Ok(m)
  {
    var whole := a + "/" + path;
    Slashed(a, path);
    DecorationRoundTrip(whole, m);
    FragmentParses(m);
    var (body, fragment) := CutAt(whole + Decoration(m), '#');
    RestParses(whole + Decoration(m), m, body, whole, a, path, fragment);
  }

  lemma SpelledRest(rest: string, m: Murl, sp: Spelling)
    requires Valid(m) && Spells(sp, m)
    requires rest == AuthorityText(m.authority, sp) + "/" + PathText(sp) + Decoration(m)
    ensures ParseRest(rest) == Ok(m)
  {
    var a, path := AuthorityText(m.authority, sp), PathText(sp);
    HostSpelled(m.authority, sp);
    NameIsSpelled(m.name, m.version, sp);
    JoinedRest(m, a, path);
  }

  lemma Slashed(a: string, path: string)
    requires '/' !in a && '?' !in a && '#' !in a && '?' !in path && '#' !in path
    ensures SplitOnce(a + "/" + path, '/') == Some((a, path)) && '?' !in a + "/" + path && '#' !in a + "/" + path
  {
    SplitOnceAt(a, path, '/');
    assert a + "/" + path == a + ['/'] + path;
  }

  // A text is read as a mURL exactly when it is one of its spellings, printable and within the
  // length limit.
  lemma ParsesExactly(s: string, m: Murl)
    ensures Parse(s) == Ok(m) <==>
      && Proper(m) && |s| <= 1024 && Printable(s)
      && exists sp :: Spells(sp, m) && s == TextOf(m, sp)
  {
    ProperExactly(m);
    assert AllPrintable(s) <==> Printable(s);
    if Parse(s) == Ok(m) {
      ParsedSpelled(s, m);
    }
    forall sp | Spells(sp, m) && s == TextOf(m, sp) && Valid(m) && |s| <= MAX_MURL_LEN && AllPrintable(s)
      ensures Parse(s) == Ok(m)
    {
      SpelledParsed(s, m, sp);
    }
  }

  lemma ParsedParts(s: string, m: Murl) returns (scheme: string, rest: string)
    requires Parse(s) == Ok(m)
    ensures |s| <= MAX_MURL_LEN && AllPrintable(s)
    ensures s == scheme + rest && Lowercase(scheme) == "murl://" && ParseRest(rest) == Ok(m)
  {
    scheme, rest := s[..7], s[7..];
  }

  lemma ParsedSpelled(s: string, m: Murl)
    requires Parse(s) == Ok(m)
    ensures Valid(m) && |s| <= MAX_MURL_LEN && AllPrintable(s)
    ensures exists sp :: Spells(sp, m) && s == TextOf(m, sp)
  {
    ParseSound(s);
    var scheme, rest := ParsedParts(s, m);
    var sp := RestSpelled(rest, m, scheme);
    assert s == TextOf(m, sp);
  }

  lemma SpelledParsed(s: string, m: Murl, sp: Spelling)
    requires Spells(sp, m) && s == TextOf(m, sp) && Valid(m) && |s| <= MAX_MURL_LEN && AllPrintable(s)
    ensures Parse(s) == Ok(m)
  {
    var rest := AuthorityText(m.authority, sp) + "/" + PathText(sp) + Decoration(m);
    SpelledRest(rest, m, sp);
    assert s[..7] == sp.scheme && s[7..] == rest;
    ParseSteps(s, rest, m);
  }

  // ----- this machine -----

  // What stands after the last separator.
  lemma {:induction false} LastPart(s: string, c: char, last: string)
    requires c !in last
    ensures var parts := Split(s, c); parts[|parts| - 1] == last <==> s == last || EndsWith(s, [c] + last)
    decreases |s|
  {
    match SplitOnce(s, c) {
      case None =>
        if EndsWith(s, [c] + last) {
          SuffixSeparator(s, c, last);
          assert false;
        }
      case Some((head, tail)) =>
        LastPart(tail, c, last);
        SuffixOfTail(head, tail, c, last);
    }
  }

  lemma SuffixSeparator(s: string, c: char, last: string)
    requires EndsWith(s, [c] + last)
    ensures c in s && s[|s| - |last| - 1] == c
  {
    assert s[|s| - |last| - 1..][0] == c;
  }

  lemma SuffixOfTail(head: string, tail: string, c: char, last: string)
    requires c !in head && c !in last
    ensures var s := head + [c] + tail;
      (s == last || EndsWith(s, [c] + last)) <==> (tail == last || EndsWith(tail, [c] + last))
  {
    var s, suffix := head + [c] + tail, [c] + last;
    assert s[|head|] == c;
    if |suffix| <= |tail| {
      assert s[|s| - |suffix|..] == tail[|tail| - |suffix|..];
    } else if EndsWith(s, suffix) {
      var at := |s| - |suffix|;
      SuffixSeparator(s, c, last);
      assert forall k :: 0 <= k < |head| ==> s[k] == head[k];
      assert s[at..] == [c] + tail;
      assert tail == (s[at..])[1..] == last;
    }
    if tail == last {
      assert s[|head|..] == suffix;
    }
  }

  lemma LocalLabel(host: string, name: string, suffix: string)
    requires '.' !in name && suffix == "." + name
    ensures var labels := Split(host, '.');
      labels[|labels| - 1] == name <==> host == name || EndsWith(host, suffix)
  {
    LastPart(host, '.', name);
    assert ['.'] + name == suffix;
  }

  // A host is a loopback one exactly when its last label is `localhost`, or it is 127.0.0.1.
  lemma LoopbackExactly(host: string, port: Option<nat>)
    ensures var labels := Split(host, '.');
      Remote(host, port).IsLoopback() <==> labels[|labels| - 1] == "localhost" || host == "127.0.0.1"
  {
    LocalLabel(host, "localhost", ".localhost");
  }
}
