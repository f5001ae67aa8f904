/** Identifier grammars shared by the mURL parser and the manifest validator. */
module Grammar {
  import opened Text

  predicate IsLowerAlnum(c: char) {
    IsLower(c) || IsDigit(c)
  }

  predicate IsValidResourceId(s: string) {
    && 1 <= |s| <= 64 && IsLowerAlnum(s[0])
    && forall i :: 0 <= i < |s| ==> IsLowerAlnum(s[i]) || s[i] == '-' || s[i] == '_'
  }

  predicate IsValidRole(s: string) {
    1 <= |s| <= 32 && IsLowerAlnum(s[0]) && forall i :: 0 <= i < |s| ==> IsLowerAlnum(s[i]) || s[i] == '-'
  }

  predicate IsValidTag(s: string) {
    1 <= |s| <= 32 && forall i :: 0 <= i < |s| ==> IsLowerAlnum(s[i]) || s[i] == '-'
  }
}

/**
 The mURL value, its canonical text, and what parsing a string means. The
 methods of module MurlParser compute these functions with the loops of
 murl.rs; module MurlRoundTrip proves what they promise together.
 */
module MurlScheme {
  import opened Wrappers
  import opened Text
  import opened Grammar
  import Utf8

  const MAX_MURL_LEN := 1024
  const MAX_SEGMENTS := 8
  const MAX_SEGMENT_BYTES := 64
  const MAX_AUTHORITY_LEN := 253
  const MAX_SELECTOR_ITEMS := 8
  const MAX_QUERY_LEN := 512
  const SCHEME := "murl://"
  const LOCAL_AUTHORITY := "local"

  datatype ParseError =
    | TooLong
    | CanonicalTooLong(length: nat)
    | InvalidCharacter(offset: nat)
    | MissingScheme
    | MissingAuthority
    | UserinfoForbidden
    | Ipv6NotSupported
    | InvalidAuthority
    | InvalidPort
    | MissingName
    | EmptySegment
    | TooManySegments
    | SegmentTooLong
    | InvalidSegment
    | InvalidPercentEncoding
    | MisplacedVersionMarker
    | InvalidVersion
    | InvalidSelector
    | InvalidQuery

  datatype Authority = Local | Remote(host: string, port: Option<nat>) {

    predicate IsLoopback() {
      Remote? && (host == "localhost" || host == "127.0.0.1" || EndsWith(host, ".localhost"))
    }

    function Text(): string {
      match this
      case Local => LOCAL_AUTHORITY
      case Remote(host, None) => host
      case Remote(host, Some(port)) => host + ":" + NatText(port)
    }
  }

  datatype Version = Latest | Pinned(nums: seq<nat>) {

    function Text(): string {
      match this
      case Latest => "latest"
      case Pinned(nums) => Join(NumberTexts(nums), '.')
    }
  }

  function NumberTexts(nums: seq<nat>): seq<string> {
    seq(|nums|, i requires 0 <= i < |nums| => NatText(nums[i]))
  }

  datatype SelectorItem = Id(value: string) | Role(value: string) | Tag(value: string) {

    function Text(): string {
      match this
      case Id(s) => s
      case Role(s) => "role=" + s
      case Tag(s) => "tag=" + s
    }
  }

  function ItemTexts(items: seq<SelectorItem>): seq<string> {
    seq(|items|, i requires 0 <= i < |items| => items[i].Text())
  }

  // Name segments are decoded: the UTF-8 bytes of the text they spell.
  datatype Murl = Murl(
    authority: Authority,
    name: seq<string>,
    version: Version,
    selector: Option<seq<SelectorItem>>,
    query: Option<string>)
  {
    // The part resolution looks at: no selector, no query.
    function Bare(): Murl {
      this.(selector := None, query := None)
    }
  }

  // ----- printing -----

  predicate IsUnreserved(c: char) {
    IsAlnum(c) || c == '-' || c == '.' || c == '_' || c == '~'
  }

  function HexDigit(n: nat): (c: char)
    requires n < 16
    ensures HexValue(c) == Some(n)
    ensures IsDigit(c) || 'A' <= c <= 'F'
  {
    if n < 10 then ('0' as int + n) as char else ('A' as int + (n - 10)) as char
  }

  function HexValue(c: char): (v: Option<nat>)
    ensures v.Some? ==> v.value < 16
  {
    if IsDigit(c) then Some(c as int - '0' as int)
    else if 'a' <= c <= 'f' then Some(c as int - 'a' as int + 10)
    else if 'A' <= c <= 'F' then Some(c as int - 'A' as int + 10)
    else None
  }

  // Segments are byte strings; the modulus only makes the function total.
  function Escape(c: char): (s: string)
    ensures |s| == 3
  {
    ['%', HexDigit(c as int / 16 % 16), HexDigit(c as int % 16)]
  }

  function EncodeSegment(s: string): string {
    if s == [] then []
    else (if IsUnreserved(s[0]) then [s[0]] else Escape(s[0])) + EncodeSegment(s[1..])
  }

  function EncodeAll(name: seq<string>): seq<string> {
    seq(|name|, i requires 0 <= i < |name| => EncodeSegment(name[i]))
  }

  function VersionSuffix(v: Version): string {
    if v.Pinned? then "@" + v.Text() else ""
  }

  // The text of a name given how its segments are written.
  function NamePath(texts: seq<string>, v: Version): string {
    Join(texts, '/') + VersionSuffix(v)
  }

  // Canonical resolution identity: cache key, cycle key and binding key.
  function Identity(m: Murl): string {
    SCHEME + m.authority.Text() + "/" + NamePath(EncodeAll(m.name), m.version)
  }

  function Decoration(m: Murl): string {
    (if m.query.Some? then "?" + m.query.value else "") +
    (if m.selector.Some? then "#" + Join(ItemTexts(m.selector.value), ',') else "")
  }

  function Print(m: Murl): string {
    Identity(m) + Decoration(m)
  }

  // ----- parsing -----

  predicate IsPrintable(c: char) {
    0x21 as char <= c <= 0x7e as char
  }

  function FirstUnprintable(s: string): (i: nat)
    ensures i <= |s|
    ensures forall k :: 0 <= k < i ==> IsPrintable(s[k])
    ensures i < |s| ==> !IsPrintable(s[i])
  {
    if s == [] || !IsPrintable(s[0]) then 0 else 1 + FirstUnprintable(s[1..])
  }

  // Optional tail after the first `c`.
  function CutAt(s: string, c: char): (string, Option<string>) {
    match SplitOnce(s, c)
    case None => (s, None)
    case Some((head, tail)) => (head, Some(tail))
  }

  predicate ValidLabel(s: string) {
    && 1 <= |s| <= 63
    && (forall i :: 0 <= i < |s| ==> IsLowerAlnum(s[i]) || s[i] == '-')
    && s[0] != '-' && s[|s| - 1] != '-'
  }

  predicate ValidLabels(parts: seq<string>) {
    forall i :: 0 <= i < |parts| ==> ValidLabel(parts[i])
  }

  function ParsePort(p: string): Result<nat, ParseError> {
    if p == "" || |p| > 5 || !AllDigits(p) then Err(InvalidPort)
    else
      var port := NatValue(p);
      if port == 0 || port > 65535 then Err(InvalidPort) else Ok(port)
  }

  function ParseHost(raw: string, port: Option<nat>): Result<Authority, ParseError> {
    var host := Lowercase(raw);
    if |host| > MAX_AUTHORITY_LEN then Err(InvalidAuthority)
    else if host == LOCAL_AUTHORITY then
      if port.Some? then Err(InvalidAuthority) else Ok(Local)
    else if ValidLabels(Split(host, '.')) then Ok(Remote(host, port))
    else Err(InvalidAuthority)
  }

  function ParseAuthority(raw: string): Result<Authority, ParseError> {
    if raw == "" then Err(MissingAuthority)
    else if '@' in raw then Err(UserinfoForbidden)
    else if '[' in raw || ']' in raw then Err(Ipv6NotSupported)
    else
      match SplitOnce(raw, ':')
      case None => ParseHost(raw, None)
      case Some((h, p)) =>
        var port :- ParsePort(p);
        ParseHost(h, Some(port))
  }

  predicate ValidNumberText(p: string) {
    1 <= |p| <= 5 && AllDigits(p) && !(|p| > 1 && p[0] == '0')
  }

  function NumbersOf(parts: seq<string>): Result<seq<nat>, ParseError> {
    if parts == [] then Ok([])
    else if !ValidNumberText(parts[0]) then Err(InvalidVersion)
    else
      var rest :- NumbersOf(parts[1..]);
      Ok([NatValue(parts[0])] + rest)
  }

  function ParseVersion(s: string): Result<Version, ParseError> {
    if s == "latest" then Ok(Latest)
    else if s == "" then Err(InvalidVersion)
    else
      var parts := Split(s, '.');
      if |parts| > 3 then Err(InvalidVersion)
      else
        var nums :- NumbersOf(parts);
        Ok(Pinned(nums))
  }

  function PercentDecode(s: string): Result<string, ParseError> {
    if s == [] then Ok([])
    else if s[0] != '%' then
      var rest :- PercentDecode(s[1..]);
      Ok([s[0]] + rest)
    else if |s| < 3 then Err(InvalidPercentEncoding)
    else
      match (HexValue(s[1]), HexValue(s[2]))
      case (Some(h), Some(l)) =>
        var rest :- PercentDecode(s[3..]);
        Ok([(h * 16 + l) as char] + rest)
      case _ => Err(InvalidPercentEncoding)
  }

  predicate IsControl(c: char) {
    c as int < 0x20 || 0x7f <= c as int <= 0x9f
  }

  predicate PlainText(t: string) {
    forall i :: 0 <= i < |t| ==> !IsControl(t[i]) && t[i] != '/' && t[i] != '\\'
  }

  predicate ValidSegments(name: seq<string>) {
    forall i :: 0 <= i < |name| ==> ValidSegment(name[i])
  }

  // What a decoded segment must look like.
  predicate ValidSegment(s: string) {
    && Utf8.IsBytes(s)
    && 1 <= |s| <= MAX_SEGMENT_BYTES
    && Utf8.Decode(s).Some?
    && PlainText(Utf8.Decode(s).value)
    && s != "." && s != ".."
  }

  function DecodeSegment(raw: string): (r: Result<string, ParseError>)
    ensures r.Ok? ==> ValidSegment(r.value)
  {
    if raw == "" then Err(EmptySegment)
    else
      var bytes :- PercentDecode(raw);
      if |bytes| > MAX_SEGMENT_BYTES then Err(SegmentTooLong)
      else if ValidSegment(bytes) then Ok(bytes)
      else Err(InvalidSegment)
  }

  function DecodeLast(raw: string): (r: Result<(string, Version), ParseError>)
    ensures r.Ok? ==> ValidSegment(r.value.0)
  {
    match SplitOnce(raw, '@')
    case None =>
      var seg :- DecodeSegment(raw);
      Ok((seg, Latest))
    case Some((base, ver)) =>
      if '@' in ver then Err(MisplacedVersionMarker)
      else if base == "" then Err(EmptySegment)
      else
        var version :- ParseVersion(ver);
        var seg :- DecodeSegment(base);
        Ok((seg, version))
  }

  function DecodeName(raws: seq<string>): (r: Result<(seq<string>, Version), ParseError>)
    requires |raws| >= 1
    ensures r.Ok? ==> |r.value.0| == |raws| && ValidSegments(r.value.0)
  {
    if |raws| == 1 then
      var (seg, version) :- DecodeLast(raws[0]);
      Ok(([seg], version))
    else if '@' in raws[0] then Err(MisplacedVersionMarker)
    else
      var seg :- DecodeSegment(raws[0]);
      var (rest, version) :- DecodeName(raws[1..]);
      Ok(([seg] + rest, version))
  }

  function ParseItem(part: string): Result<SelectorItem, ParseError> {
    if StartsWith(part, "role=") then
      if IsValidRole(part[5..]) then Ok(Role(part[5..])) else Err(InvalidSelector)
    else if StartsWith(part, "tag=") then
      if IsValidTag(part[4..]) then Ok(Tag(part[4..])) else Err(InvalidSelector)
    else if IsValidResourceId(part) then Ok(Id(part))
    else Err(InvalidSelector)
  }

  function ParseItems(parts: seq<string>): Result<seq<SelectorItem>, ParseError> {
    if parts == [] then Ok([])
    else
      var item :- ParseItem(parts[0]);
      var rest :- ParseItems(parts[1..]);
      Ok([item] + rest)
  }

  function ParseSelector(f: string): Result<seq<SelectorItem>, ParseError> {
    if f == "" then Err(InvalidSelector)
    else
      var parts := Split(f, ',');
      if |parts| > MAX_SELECTOR_ITEMS then Err(InvalidSelector) else ParseItems(parts)
  }

  function ParseFragment(fragment: Option<string>): Result<Option<seq<SelectorItem>>, ParseError> {
    match fragment
    case None => Ok(None)
    case Some(f) =>
      var items :- ParseSelector(f);
      Ok(Some(items))
  }

  function ParsePath(path: string): (r: Result<(seq<string>, Version), ParseError>)
    ensures r.Ok? ==> 1 <= |r.value.0| <= MAX_SEGMENTS && ValidSegments(r.value.0)
  {
    if path == "" then Err(MissingName)
    else
      var raws := Split(path, '/');
      if |raws| > MAX_SEGMENTS then Err(TooManySegments) else DecodeName(raws)
  }

  function StripScheme(s: string): Option<string> {
    if |s| >= 7 && Lowercase(s[..7]) == SCHEME then Some(s[7..]) else None
  }

  // Everything after the scheme, up to the length of the canonical form.
  function ParseRest(rest: string): (r: Result<Murl, ParseError>)
    ensures r.Ok? ==> 1 <= |r.value.name| <= MAX_SEGMENTS && ValidSegments(r.value.name)
  {
    var (body, fragment) := CutAt(rest, '#');
    var (path, query) := CutAt(body, '?');
    match SplitOnce(path, '/')
    case None => Err(MissingName)
    case Some((auth, name)) =>
      var authority :- ParseAuthority(auth);
      var (segments, version) :- ParsePath(name);
      var selector :- ParseFragment(fragment);
      if query.Some? && ('#' in query.value || |query.value| > MAX_QUERY_LEN) then Err(InvalidQuery)
      else Ok(Murl(authority, segments, version, selector, query))
  }

  function Parse(input: string): Result<Murl, ParseError> {
    var bad := FirstUnprintable(input);
    if |input| > MAX_MURL_LEN then Err(TooLong)
    else if bad < |input| then Err(InvalidCharacter(bad))
    else
      match StripScheme(input)
      case None => Err(MissingScheme)
      case Some(rest) =>
        var m :- ParseRest(rest);
        if |Print(m)| > MAX_MURL_LEN then Err(CanonicalTooLong(|Print(m)|)) else Ok(m)
  }
}
