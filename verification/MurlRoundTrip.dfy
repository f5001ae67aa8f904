/**
 Parsing and printing are inverse to each other: `Parse` returns exactly the
 valid mURLs, and reads back every one of them from its canonical text.
 */
module MurlRoundTrip {
  import opened Wrappers
  import opened Text
  import opened Grammar
  import opened MurlScheme
  import Utf8

  // ----- the values `Parse` returns -----

  predicate ValidHost(host: string) {
    && host != LOCAL_AUTHORITY
    && |host| <= MAX_AUTHORITY_LEN
    && ValidLabels(Split(host, '.'))
  }

  predicate ValidAuthority(a: Authority) {
    a.Remote? ==> ValidHost(a.host) && (a.port.Some? ==> 1 <= a.port.value <= 65535)
  }

  predicate SmallNumbers(nums: seq<nat>) {
    forall i :: 0 <= i < |nums| ==> nums[i] < 100000
  }

  predicate ValidVersion(v: Version) {
    v.Pinned? ==> 1 <= |v.nums| <= 3 && SmallNumbers(v.nums)
  }

  predicate ValidItem(item: SelectorItem) {
    match item
    case Id(s) => IsValidResourceId(s)
    case Role(s) => IsValidRole(s)
    case Tag(s) => IsValidTag(s)
  }

  predicate ValidSelector(items: seq<SelectorItem>) {
    1 <= |items| <= MAX_SELECTOR_ITEMS && forall i :: 0 <= i < |items| ==> ValidItem(items[i])
  }

  predicate ValidQuery(q: string) {
    |q| <= MAX_QUERY_LEN && forall i :: 0 <= i < |q| ==> IsPrintable(q[i]) && q[i] != '#'
  }

  predicate ValidName(name: seq<string>) {
    1 <= |name| <= MAX_SEGMENTS && ValidSegments(name)
  }

  predicate Valid(m: Murl) {
    && ValidAuthority(m.authority)
    && ValidName(m.name)
    && ValidVersion(m.version)
    && (m.selector.Some? ==> ValidSelector(m.selector.value))
    && (m.query.Some? ==> ValidQuery(m.query.value))
    && |Print(m)| <= MAX_MURL_LEN
  }

  // ----- authority -----

  predicate IsHostChar(c: char) {
    IsLowerAlnum(c) || c == '-' || c == '.'
  }

  predicate HostText(host: string) {
    forall i :: 0 <= i < |host| ==> IsHostChar(host[i])
  }

  lemma HostChars(host: string)
    requires ValidLabels(Split(host, '.'))
    ensures host != "" && HostText(host)
  {
    var parts := Split(host, '.');
    assert host == Join(parts, '.') && ValidLabel(parts[0]);
    JoinAll(parts, '.', IsHostChar);
  }

  lemma LowercaseHost(host: string)
    requires HostText(host)
    ensures Lowercase(host) == host
  {
  }

  lemma PortRoundTrip(port: nat)
    requires 1 <= port <= 65535
    ensures ParsePort(NatText(port)) == Ok(port)
  {
    NatRoundTrip(port);
    assert Pow10(5) == 100000 by { assert Pow10(3) == 1000; }
    NatTextLength(port, 5);
  }

  predicate IsAuthorityChar(c: char) {
    IsHostChar(c) || c == ':'
  }

  lemma AuthorityChars(a: Authority)
    requires ValidAuthority(a)
    ensures a.Text() != "" && forall i :: 0 <= i < |a.Text()| ==> IsAuthorityChar(a.Text()[i])
  {
    if a.Remote? {
      HostChars(a.host);
    }
  }

  lemma HostRoundTrip(host: string, port: Option<nat>)
    requires ValidHost(host)
    ensures ParseHost(host, port) == Ok(Remote(host, port))
  {
    HostChars(host);
    LowercaseHost(host);
  }

  lemma LocalRoundTrip()
    ensures ParseAuthority(LOCAL_AUTHORITY) == Ok(Local)
  {
    NoReserved(LOCAL_AUTHORITY);
    LowercaseHost(LOCAL_AUTHORITY);
    assert SplitOnce(LOCAL_AUTHORITY, ':') == None;
  }

  lemma HostOnlyRoundTrip(host: string)
    requires ValidAuthority(Remote(host, None)) && RawAuthority(host)
    ensures ParseAuthority(host) == Ok(Remote(host, None))
  {
    HostRoundTrip(host, None);
    HostChars(host);
    assert SplitOnce(host, ':') == None;
  }

  lemma HostPortRoundTrip(host: string, port: nat)
    requires ValidAuthority(Remote(host, Some(port))) && RawAuthority(host + ":" + NatText(port))
    ensures ParseAuthority(host + ":" + NatText(port)) == Ok(Remote(host, Some(port)))
  {
    HostRoundTrip(host, Some(port));
    HostChars(host);
    PortRoundTrip(port);
    SplitOnceAt(host, NatText(port), ':');
  }

  // Nothing that would be refused before the host is looked at.
  predicate RawAuthority(text: string) {
    text != "" && '@' !in text && '[' !in text && ']' !in text
  }

  lemma AuthorityRoundTrip(a: Authority)
    requires ValidAuthority(a)
    ensures ParseAuthority(a.Text()) == Ok(a)
  {
    AuthorityChars(a);
    NoReserved(a.Text());
    match a {
      case Local => LocalRoundTrip();
      case Remote(host, None) => HostOnlyRoundTrip(host);
      case Remote(host, Some(port)) => HostPortRoundTrip(host, port);
    }
  }

  lemma NoReserved(t: string)
    requires forall i :: 0 <= i < |t| ==> IsAuthorityChar(t[i])
    ensures '@' !in t && '[' !in t && ']' !in t && '/' !in t && '?' !in t && '#' !in t
    ensures forall i :: 0 <= i < |t| ==> IsPrintable(t[i])
  {
  }

  // ----- version -----

  lemma NumberRoundTrip(n: nat)
    requires n < 100000
    ensures ValidNumberText(NatText(n)) && NatValue(NatText(n)) == n
  {
    NatRoundTrip(n);
    assert Pow10(5) == 100000 by { assert Pow10(3) == 1000; }
    NatTextLength(n, 5);
  }

  lemma {:induction false} NumbersRoundTrip(nums: seq<nat>)
    requires SmallNumbers(nums)
    ensures NumbersOf(NumberTexts(nums)) == Ok(nums)
  {
    if nums != [] {
      NumberRoundTrip(nums[0]);
      NumbersRoundTrip(nums[1..]);
      assert NumberTexts(nums)[1..] == NumberTexts(nums[1..]);
      assert [nums[0]] + nums[1..] == nums;
    }
  }

  predicate IsVersionChar(c: char) {
    IsDigit(c) || c == '.'
  }

  lemma VersionChars(v: Version)
    requires ValidVersion(v) && v.Pinned?
    ensures v.Text() != "" && forall i :: 0 <= i < |v.Text()| ==> IsVersionChar(v.Text()[i])
  {
    var texts := NumberTexts(v.nums);
    assert forall i :: 0 <= i < |texts| ==> AllDigits(texts[i]);
    JoinAll(texts, '.', IsVersionChar);
  }

  lemma PinnedRoundTrip(v: Version)
    requires ValidVersion(v) && v.Pinned?
    ensures ParseVersion(v.Text()) == Ok(v)
  {
    VersionChars(v);
    var texts := NumberTexts(v.nums);
    assert forall i :: 0 <= i < |texts| ==> AllDigits(texts[i]);
    SplitJoin(texts, '.');
    NumbersRoundTrip(v.nums);
    assert IsVersionChar(v.Text()[0]) && !IsVersionChar("latest"[0]);
  }

  // The text of a version, `latest` included, reads back as that version.
  lemma VersionRoundTrip(v: Version)
    requires ValidVersion(v)
    ensures ParseVersion(v.Text()) == Ok(v)
  {
    if v.Pinned? {
      PinnedRoundTrip(v);
    }
  }

  // ----- name -----

  predicate IsRawChar(c: char) {
    IsUnreserved(c) || c == '%'
  }

  predicate RawText(t: string) {
    forall i :: 0 <= i < |t| ==> IsRawChar(t[i])
  }

  lemma {:induction false} SegmentRoundTrip(s: string)
    requires Utf8.IsBytes(s)
    ensures PercentDecode(EncodeSegment(s)) == Ok(s)
    ensures RawText(EncodeSegment(s))
    ensures |EncodeSegment(s)| >= |s|
  {
    if s != [] {
      SegmentRoundTrip(s[1..]);
      var rest := EncodeSegment(s[1..]);
      assert [s[0]] + s[1..] == s;
      if IsUnreserved(s[0]) {
        assert ([s[0]] + rest)[1..] == rest;
      } else {
        EscapeDecodes(s[0], rest, s[1..]);
      }
    }
  }

  lemma EscapeDecodes(c: char, rest: string, decoded: string)
    requires c as int < 256 && PercentDecode(rest) == Ok(decoded)
    ensures PercentDecode(Escape(c) + rest) == Ok([c] + decoded)
    ensures RawText(rest) ==> RawText(Escape(c) + rest)
  {
    assert (Escape(c) + rest)[3..] == rest;
    assert (c as int / 16 * 16 + c as int % 16) as char == c;
  }

  // Raw segments in which `texts` writes `name`.
  predicate Spells(texts: seq<string>, name: seq<string>) {
    && |texts| == |name|
    && (name != [] ==>
          && RawText(texts[0])
          && DecodeSegment(texts[0]) == Ok(name[0])
          && Spells(texts[1..], name[1..]))
  }

  lemma {:induction false} CanonicalSpells(name: seq<string>)
    requires ValidSegments(name)
    ensures Spells(EncodeAll(name), name)
  {
    if name != [] {
      SegmentRoundTrip(name[0]);
      CanonicalSpells(name[1..]);
      assert EncodeAll(name)[1..] == EncodeAll(name[1..]);
    }
  }

  lemma {:induction false} SpelledRaw(texts: seq<string>, name: seq<string>, i: nat)
    requires Spells(texts, name) && i < |name|
    ensures RawText(texts[i]) && texts[i] != ""
  {
    if i > 0 {
      SpelledRaw(texts[1..], name[1..], i - 1);
    }
  }

  // The suffix after the last segment belongs to the last part of the split.
  lemma {:induction false} JoinSuffix(parts: seq<string>, c: char, suffix: string)
    requires |parts| >= 1
    ensures Join(parts, c) + suffix == Join(parts[..|parts| - 1] + [parts[|parts| - 1] + suffix], c)
  {
    if |parts| > 1 {
      JoinSuffix(parts[1..], c, suffix);
      Assoc(parts[0] + [c], Join(parts[1..], c), suffix);
      var marked := parts[..|parts| - 1] + [parts[|parts| - 1] + suffix];
      assert marked[1..] == parts[1..][..|parts| - 2] + [parts[|parts| - 1] + suffix];
      assert marked[0] == parts[0];
    }
  }

  lemma DecodeLastPinned(raw: string, base: string, ver: string, seg: string, v: Version)
    requires SplitOnce(raw, '@') == Some((base, ver)) && '@' !in ver && base != ""
    requires ParseVersion(ver) == Ok(v) && DecodeSegment(base) == Ok(seg)
    ensures DecodeLast(raw) == Ok((seg, v))
  {
  }

  lemma VersionUnmarked(v: Version)
    requires ValidVersion(v) && v.Pinned?
    ensures '@' !in v.Text()
  {
    VersionChars(v);
    assert !IsVersionChar('@');
  }

  lemma VersionMark(raw: string, v: Version)
    requires RawText(raw) && ValidVersion(v) && v.Pinned?
    ensures SplitOnce(raw + VersionSuffix(v), '@') == Some((raw, v.Text())) && '@' !in v.Text()
  {
    VersionUnmarked(v);
    RawUnmarked(raw);
    SplitOnceAt(raw, v.Text(), '@');
    assert raw + VersionSuffix(v) == raw + ['@'] + v.Text();
  }

  lemma LastRoundTrip(raw: string, seg: string, v: Version)
    requires DecodeSegment(raw) == Ok(seg) && RawText(raw) && ValidVersion(v)
    ensures DecodeLast(raw + VersionSuffix(v)) == Ok((seg, v))
  {
    var marked := raw + VersionSuffix(v);
    if v.Pinned? {
      VersionRoundTrip(v);
      VersionMark(raw, v);
      DecodeLastPinned(marked, raw, v.Text(), seg, v);
    } else {
      assert marked == raw;
      RawUnmarked(raw);
      DecodeLastUnmarked(raw, seg);
    }
  }

  lemma RawUnmarked(raw: string)
    requires RawText(raw)
    ensures '@' !in raw
  {
  }

  lemma DecodeLastUnmarked(raw: string, seg: string)
    requires '@' !in raw && DecodeSegment(raw) == Ok(seg)
    ensures DecodeLast(raw) == Ok((seg, Latest))
  {
  }

  // The texts with the version written after the last one.
  function Marked(texts: seq<string>, v: Version): (marked: seq<string>)
    requires |texts| >= 1
    ensures |marked| == |texts|
  {
    texts[..|texts| - 1] + [texts[|texts| - 1] + VersionSuffix(v)]
  }

  lemma MarkedTail(texts: seq<string>, v: Version)
    requires |texts| > 1
    ensures Marked(texts, v)[0] == texts[0] && Marked(texts, v)[1..] == Marked(texts[1..], v)
  {
  }

  lemma DecodeNameStep(raws: seq<string>, name: seq<string>, v: Version)
    requires |raws| > 1 && '@' !in raws[0] && |name| > 1
    requires DecodeSegment(raws[0]) == Ok(name[0]) && DecodeName(raws[1..]) == Ok((name[1..], v))
    ensures DecodeName(raws) == Ok((name, v))
  {
    assert name == [name[0]] + name[1..];
  }

  lemma OneSegmentRoundTrip(raw: string, seg: string, v: Version)
    requires DecodeSegment(raw) == Ok(seg) && RawText(raw) && ValidVersion(v)
    ensures DecodeName(Marked([raw], v)) == Ok(([seg], v))
  {
    LastRoundTrip(raw, seg, v);
    assert Marked([raw], v) == [raw + VersionSuffix(v)];
  }

  lemma NameRoundTripStep(texts: seq<string>, name: seq<string>, v: Version)
    requires |name| == |texts| > 1
    requires RawText(texts[0]) && DecodeSegment(texts[0]) == Ok(name[0])
    requires DecodeName(Marked(texts[1..], v)) == Ok((name[1..], v))
    ensures DecodeName(Marked(texts, v)) == Ok((name, v))
  {
    var marked := Marked(texts, v);
    MarkedTail(texts, v);
    RawUnmarked(marked[0]);
    DecodeNameStep(marked, name, v);
  }

  lemma {:induction false} NameRoundTrip(texts: seq<string>, name: seq<string>, v: Version)
    requires |name| >= 1 && Spells(texts, name) && ValidVersion(v)
    ensures DecodeName(Marked(texts, v)) == Ok((name, v))
  {
    if |name| == 1 {
      OneSegmentRoundTrip(texts[0], name[0], v);
      assert texts == [texts[0]] && name == [name[0]];
    } else {
      NameRoundTrip(texts[1..], name[1..], v);
      NameRoundTripStep(texts, name, v);
    }
  }

  predicate IsPathChar(c: char) {
    IsRawChar(c) || c == '/' || c == '@'
  }

  lemma SuffixChars(raw: string, v: Version)
    requires RawText(raw) && ValidVersion(v)
    ensures forall j :: 0 <= j < |raw + VersionSuffix(v)| ==>
      IsPathChar((raw + VersionSuffix(v))[j]) && (raw + VersionSuffix(v))[j] != '/'
  {
    if v.Pinned? {
      VersionChars(v);
    }
  }

  lemma PathRoundTrip(texts: seq<string>, name: seq<string>, v: Version)
    requires 1 <= |name| <= MAX_SEGMENTS && Spells(texts, name) && ValidVersion(v)
    ensures ParsePath(NamePath(texts, v)) == Ok((name, v))
    ensures forall i :: 0 <= i < |NamePath(texts, v)| ==> IsPathChar(NamePath(texts, v)[i])
  {
    var marked := Marked(texts, v);
    JoinSuffix(texts, '/', VersionSuffix(v));
    forall i | 0 <= i < |marked|
      ensures forall j :: 0 <= j < |marked[i]| ==> IsPathChar(marked[i][j]) && marked[i][j] != '/'
    {
      SpelledRaw(texts, name, i);
      SuffixChars(texts[i], if i < |texts| - 1 then Latest else v);
      assert i < |texts| - 1 ==> texts[i] + VersionSuffix(Latest) == marked[i];
    }
    SplitJoin(marked, '/');
    NameRoundTrip(texts, name, v);
    JoinAll(marked, '/', IsPathChar);
    SpelledRaw(texts, name, |texts| - 1);
    PathNonempty(marked);
  }

  lemma PathNonempty(parts: seq<string>)
    requires |parts| >= 1 && parts[|parts| - 1] != ""
    ensures Join(parts, '/') != ""
  {
  }

  // ----- selector -----

  predicate IsFragmentChar(c: char) {
    IsPrintable(c) && c != '#'
  }

  lemma ItemRoundTrip(item: SelectorItem)
    requires ValidItem(item)
    ensures ParseItem(item.Text()) == Ok(item)
    ensures item.Text() != "" && ',' !in item.Text()
    ensures forall i :: 0 <= i < |item.Text()| ==> IsFragmentChar(item.Text()[i])
  {
    match item {
      case Id(s) =>
        NotPrefix(s, "role=", 4);
        NotPrefix(s, "tag=", 3);
      case Role(s) =>
        assert ("role=" + s)[5..] == s && ("role=" + s)[..5] == "role=";
      case Tag(s) =>
        assert ("tag=" + s)[4..] == s && ("tag=" + s)[..4] == "tag=";
        NotPrefix("tag=" + s, "role=", 0);
    }
  }

  lemma {:induction false} ItemsRoundTrip(items: seq<SelectorItem>)
    requires forall i :: 0 <= i < |items| ==> ValidItem(items[i])
    ensures ParseItems(ItemTexts(items)) == Ok(items)
  {
    if items != [] {
      ItemRoundTrip(items[0]);
      ItemsRoundTrip(items[1..]);
      assert ItemTexts(items)[1..] == ItemTexts(items[1..]);
      assert [items[0]] + items[1..] == items;
    }
  }

  lemma SelectorRoundTrip(items: seq<SelectorItem>)
    requires ValidSelector(items)
    ensures ParseSelector(Join(ItemTexts(items), ',')) == Ok(items)
    ensures forall i :: 0 <= i < |Join(ItemTexts(items), ',')| ==>
      IsFragmentChar(Join(ItemTexts(items), ',')[i])
  {
    var texts := ItemTexts(items);
    forall i | 0 <= i < |items|
      ensures texts[i] != "" && ',' !in texts[i]
      ensures forall j :: 0 <= j < |texts[i]| ==> IsFragmentChar(texts[i][j])
    {
      ItemRoundTrip(items[i]);
    }
    SplitJoin(texts, ',');
    ItemsRoundTrip(items);
    JoinAll(texts, ',', IsFragmentChar);
  }

  // ----- the whole string -----

  // Cutting at a character gives back what was appended after it.
  lemma CutBack(front: string, c: char, tail: Option<string>, whole: string)
    requires c !in front
    requires whole == front + if tail.Some? then [c] + tail.value else ""
    ensures CutAt(whole, c) == (front, tail)
  {
    if tail.Some? {
      assert whole == front + [c] + tail.value;
      SplitOnceAt(front, tail.value, c);
    } else {
      assert whole == front;
    }
  }

  lemma DecorationRoundTrip(path: string, m: Murl)
    requires '#' !in path && '?' !in path
    requires m.query.Some? ==> '#' !in m.query.value
    ensures
      var fragment := if m.selector.Some? then Some(Join(ItemTexts(m.selector.value), ',')) else None;
      var body := path + if m.query.Some? then "?" + m.query.value else "";
      CutAt(path + Decoration(m), '#') == (body, fragment) && CutAt(body, '?') == (path, m.query)
  {
    var fragment := if m.selector.Some? then Some(Join(ItemTexts(m.selector.value), ',')) else None;
    var tail := if m.query.Some? then "?" + m.query.value else "";
    CutBack(path, '?', m.query, path + tail);
    Assoc(path, tail, if fragment.Some? then "#" + fragment.value else "");
    CutBack(path + tail, '#', fragment, path + Decoration(m));
  }

  // The authority and the name, however the segments are written.
  function WrittenPath(m: Murl, texts: seq<string>): string {
    m.authority.Text() + "/" + NamePath(texts, m.version)
  }

  predicate IsWrittenChar(c: char) {
    IsAuthorityChar(c) || IsPathChar(c)
  }

  predicate WrittenText(t: string) {
    forall i :: 0 <= i < |t| ==> IsWrittenChar(t[i])
  }

  lemma WrittenTextPlain(t: string)
    requires WrittenText(t)
    ensures '#' !in t && '?' !in t && AllPrintable(t)
  {
  }

  lemma WrittenPathChars(m: Murl, texts: seq<string>)
    requires ValidAuthority(m.authority) && ValidName(m.name) && ValidVersion(m.version)
    requires Spells(texts, m.name)
    ensures WrittenText(WrittenPath(m, texts))
    ensures SplitOnce(WrittenPath(m, texts), '/') == Some((m.authority.Text(), NamePath(texts, m.version)))
  {
    var a, p := m.authority.Text(), NamePath(texts, m.version);
    AuthorityChars(m.authority);
    NoReserved(a);
    PathRoundTrip(texts, m.name, m.version);
    SplitOnceAt(a, p, '/');
    assert WrittenPath(m, texts) == a + ['/'] + p;
  }

  predicate AllPrintable(s: string) {
    forall i :: 0 <= i < |s| ==> IsPrintable(s[i])
  }

  lemma DecorationPrintable(m: Murl)
    requires m.selector.Some? ==> ValidSelector(m.selector.value)
    requires m.query.Some? ==> ValidQuery(m.query.value)
    ensures AllPrintable(Decoration(m))
  {
    if m.selector.Some? {
      SelectorRoundTrip(m.selector.value);
    }
  }

  lemma RestRoundTrip(m: Murl, texts: seq<string>)
    requires Valid(m) && Spells(texts, m.name)
    ensures ParseRest(WrittenPath(m, texts) + Decoration(m)) == Ok(m)
  {
    WrittenPathChars(m, texts);
    WrittenTextPlain(WrittenPath(m, texts));
    DecorationRoundTrip(WrittenPath(m, texts), m);
    AuthorityRoundTrip(m.authority);
    PathRoundTrip(texts, m.name, m.version);
    if m.selector.Some? {
      SelectorRoundTrip(m.selector.value);
      assert ParseFragment(Some(Join(ItemTexts(m.selector.value), ','))) == Ok(m.selector);
    }
  }

  lemma StripWritten(rest: string)
    ensures StripScheme(SCHEME + rest) == Some(rest)
  {
    var s := SCHEME + rest;
    assert s[..7] == SCHEME && s[7..] == rest && Lowercase(SCHEME) == SCHEME;
  }

  lemma ParseSteps(s: string, rest: string, m: Murl)
    requires AllPrintable(s) && |s| <= MAX_MURL_LEN
    requires StripScheme(s) == Some(rest) && ParseRest(rest) == Ok(m)
    requires |Print(m)| <= MAX_MURL_LEN
    ensures Parse(s) == Ok(m)
  {
  }

  lemma WrittenPrintable(m: Murl, texts: seq<string>)
    requires Valid(m) && Spells(texts, m.name)
    ensures AllPrintable(WrittenPath(m, texts) + Decoration(m))
  {
    WrittenPathChars(m, texts);
    WrittenTextPlain(WrittenPath(m, texts));
    DecorationPrintable(m);
  }

  lemma SchemePrintable(rest: string)
    requires AllPrintable(rest)
    ensures AllPrintable(SCHEME + rest)
  {
  }

  // A valid mURL is read back from any spelling of its segments that fits the length limit.
  lemma WrittenRoundTrip(m: Murl, texts: seq<string>)
    requires Valid(m) && Spells(texts, m.name)
    requires |SCHEME + (WrittenPath(m, texts) + Decoration(m))| <= MAX_MURL_LEN
    ensures Parse(SCHEME + (WrittenPath(m, texts) + Decoration(m))) == Ok(m)
  {
    var rest := WrittenPath(m, texts) + Decoration(m);
    RestRoundTrip(m, texts);
    WrittenPrintable(m, texts);
    SchemePrintable(rest);
    StripWritten(rest);
    ParseSteps(SCHEME + rest, rest, m);
  }

  lemma PrintWritten(m: Murl)
    ensures Print(m) == SCHEME + (WrittenPath(m, EncodeAll(m.name)) + Decoration(m))
  {
  }

  // Reading the canonical text of a valid mURL gives it back.
  lemma PrintParse(m: Murl)
    requires Valid(m)
    ensures Parse(Print(m)) == Ok(m)
  {
    CanonicalSpells(m.name);
    var texts := EncodeAll(m.name);
    PrintWritten(m);
    WrittenRoundTrip(m, texts);
  }

  // ----- everything `Parse` returns is valid -----

  lemma HostSound(raw: string, port: Option<nat>)
    requires ParseHost(raw, port).Ok? && (port.Some? ==> 1 <= port.value <= 65535)
    ensures ValidAuthority(ParseHost(raw, port).value)
  {
  }

  lemma AuthoritySound(raw: string)
    requires ParseAuthority(raw).Ok?
    ensures ValidAuthority(ParseAuthority(raw).value)
  {
    match SplitOnce(raw, ':') {
      case None => HostSound(raw, None);
      case Some((h, p)) => HostSound(h, Some(ParsePort(p).value));
    }
  }

  lemma {:induction false} NumbersSound(parts: seq<string>)
    requires NumbersOf(parts).Ok?
    ensures |NumbersOf(parts).value| == |parts| && SmallNumbers(NumbersOf(parts).value)
  {
    if parts != [] {
      NumbersSound(parts[1..]);
      NatValueBound(parts[0]);
      Pow10Monotone(|parts[0]|, 5);
      assert Pow10(5) == 100000 by { assert Pow10(3) == 1000; }
    }
  }

  lemma {:induction false} Pow10Monotone(j: nat, k: nat)
    requires j <= k
    ensures Pow10(j) <= Pow10(k)
  {
    if j < k {
      Pow10Monotone(j, k - 1);
    }
  }

  lemma VersionSound(s: string)
    requires ParseVersion(s).Ok?
    ensures ValidVersion(ParseVersion(s).value)
  {
    if s != "latest" {
      NumbersSound(Split(s, '.'));
    }
  }

  lemma {:induction false} NameSound(raws: seq<string>)
    requires |raws| >= 1 && DecodeName(raws).Ok?
    ensures ValidVersion(DecodeName(raws).value.1)
  {
    if |raws| == 1 {
      var at := SplitOnce(raws[0], '@');
      if at.Some? {
        VersionSound(at.value.1);
      }
    } else {
      NameSound(raws[1..]);
    }
  }

  lemma {:induction false} ItemsSound(parts: seq<string>)
    requires ParseItems(parts).Ok?
    ensures |ParseItems(parts).value| == |parts|
    ensures forall i :: 0 <= i < |parts| ==> ValidItem(ParseItems(parts).value[i])
  {
    if parts != [] {
      ItemsSound(parts[1..]);
    }
  }

  lemma FragmentSound(fragment: Option<string>)
    requires ParseFragment(fragment).Ok? && ParseFragment(fragment).value.Some?
    ensures ValidSelector(ParseFragment(fragment).value.value)
  {
    ItemsSound(Split(fragment.value, ','));
  }

  // Pieces of a printable string are printable.
  lemma CutPrintable(s: string, c: char)
    requires AllPrintable(s)
    ensures AllPrintable(CutAt(s, c).0)
    ensures CutAt(s, c).1.Some? ==> AllPrintable(CutAt(s, c).1.value)
  {
  }

  lemma RestSound(rest: string)
    requires AllPrintable(rest) && ParseRest(rest).Ok?
    ensures var m := ParseRest(rest).value;
      && ValidAuthority(m.authority)
      && ValidVersion(m.version)
      && (m.selector.Some? ==> ValidSelector(m.selector.value))
      && (m.query.Some? ==> ValidQuery(m.query.value))
  {
    var (body, fragment) := CutAt(rest, '#');
    var (path, query) := CutAt(body, '?');
    CutPrintable(rest, '#');
    CutPrintable(body, '?');
    var (auth, name) := SplitOnce(path, '/').value;
    AuthoritySound(auth);
    NameSound(Split(name, '/'));
    if fragment.Some? {
      FragmentSound(fragment);
    }
  }

  lemma ParseSound(s: string)
    requires Parse(s).Ok?
    ensures Valid(Parse(s).value)
  {
    var rest := StripScheme(s).value;
    assert AllPrintable(rest);
    RestSound(rest);
  }

  // ----- what parsing and printing promise together -----

  // `Parse` returns the valid mURLs and nothing else.
  lemma ParseRange(m: Murl)
    ensures Valid(m) <==> exists s :: Parse(s) == Ok(m)
  {
    if Valid(m) {
      PrintParse(m);
    }
    if s :| Parse(s) == Ok(m) {
      ParseSound(s);
    }
  }

  // Whatever is accepted prints to a string within the length limit that reads back the same.
  lemma RoundTrip(s: string)
    requires Parse(s).Ok?
    ensures |Print(Parse(s).value)| <= MAX_MURL_LEN
    ensures Parse(Print(Parse(s).value)) == Parse(s)
  {
    ParseSound(s);
    PrintParse(Parse(s).value);
  }

  // Different mURLs print differently.
  lemma PrintInjective(a: Murl, b: Murl)
    requires Valid(a) && Valid(b) && Print(a) == Print(b)
    ensures a == b
  {
    PrintParse(a);
    PrintParse(b);
  }

  lemma BareValid(m: Murl)
    requires Valid(m)
    ensures Valid(m.Bare()) && Print(m.Bare()) == Identity(m) == Identity(m.Bare())
  {
    assert Decoration(m.Bare()) == "";
  }

  // The identity names the mURL without selector and query, and is its own identity.
  lemma IdentityFixpoint(m: Murl)
    requires Valid(m)
    ensures Parse(Identity(m)) == Ok(m.Bare()) && Identity(m.Bare()) == Identity(m)
  {
    BareValid(m);
    PrintParse(m.Bare());
  }

  // So it is injective on authority, name and version: fit for a cache key or a cycle key.
  lemma IdentityInjective(a: Murl, b: Murl)
    requires Valid(a) && Valid(b)
    ensures Identity(a) == Identity(b) <==> a.Bare() == b.Bare()
  {
    IdentityFixpoint(a);
    IdentityFixpoint(b);
  }
}
