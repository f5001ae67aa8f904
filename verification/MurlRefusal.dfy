/** What the parser's errors say: every text it refuses is wrong in the way it says. */
module MurlRefusal {
  import opened Wrappers
  import opened Text
  import opened MurlScheme
  import opened MurlRoundTrip
  import opened MurlSpelling

  // ----- the authority -----

  predicate IsPort(p: string) {
    1 <= |p| <= 5 && AllDigits(p) && 1 <= NatValue(p) <= 65535
  }

  predicate HostFits(host: string) {
    |host| <= 253 && forall part :: part in Split(host, '.') ==> ProperLabel(part)
  }

  predicate HostWrong(host: string, ported: bool) {
    !HostFits(host) || (host == "local" && ported)
  }

  predicate AuthorityWrong(raw: string, e: ParseError) {
    var (host, port) := CutAt(raw, ':');
    match e
    case MissingAuthority => raw == ""
    case UserinfoForbidden => '@' in raw
    case Ipv6NotSupported => '[' in raw || ']' in raw
    case InvalidPort => port.Some? && !IsPort(port.value)
    case InvalidAuthority => HostWrong(Lowercase(host), port.Some?)
    case _ => false
  }

  lemma LabelsFit(host: string)
    ensures ValidLabels(Split(host, '.')) <==> forall part :: part in Split(host, '.') ==> ProperLabel(part)
  {
    forall part ensures ValidLabel(part) <==> ProperLabel(part) {
      LabelExactly(part);
    }
  }

  lemma HostRefused(raw: string, port: Option<nat>)
    requires ParseHost(raw, port).Err?
    ensures ParseHost(raw, port).error == InvalidAuthority && HostWrong(Lowercase(raw), port.Some?)
  {
    LabelsFit(Lowercase(raw));
  }

  lemma PortRefused(p: string)
    ensures ParsePort(p).Err? ==> ParsePort(p).error == InvalidPort && !IsPort(p)
  {
  }

  lemma AuthorityRefused(raw: string)
    requires ParseAuthority(raw).Err?
    ensures AuthorityWrong(raw, ParseAuthority(raw).error)
  {
    match SplitOnce(raw, ':') {
      case None =>
        if ParseHost(raw, None).Err? {
          HostRefused(raw, None);
        }
      case Some((host, p)) =>
        PortRefused(p);
        if ParsePort(p).Ok? && ParseHost(host, Some(ParsePort(p).value)).Err? {
          HostRefused(host, Some(ParsePort(p).value));
        }
    }
  }

  // ----- segments and versions -----

  ghost predicate SegmentWrong(raw: string, e: ParseError) {
    match e
    case EmptySegment => raw == ""
    case InvalidPercentEncoding => forall bytes :: !Stands(raw, bytes)
    case SegmentTooLong => exists bytes :: Stands(raw, bytes) && |bytes| > 64
    case InvalidSegment => exists bytes :: Stands(raw, bytes) && !ProperSegment(bytes)
    case _ => false
  }

  lemma SegmentRefused(raw: string)
    requires DecodeSegment(raw).Err?
    ensures SegmentWrong(raw, DecodeSegment(raw).error)
  {
    if raw != "" {
      match PercentDecode(raw) {
        case Err(_) =>
          DecodeErrs(raw);
          forall bytes ensures !Stands(raw, bytes) {
            if Stands(raw, bytes) {
              StandsDecoded(raw, bytes);
            }
          }
        case Ok(bytes) =>
          DecodedStands(raw);
          ProperSegmentExactly(bytes);
      }
    }
  }

  lemma {:induction false} DecodeErrs(raw: string)
    requires PercentDecode(raw).Err?
    ensures PercentDecode(raw).error == InvalidPercentEncoding
    decreases |raw|
  {
    if raw[0] != '%' {
      DecodeErrs(raw[1..]);
    } else if |raw| >= 3 && HexValue(raw[1]).Some? && HexValue(raw[2]).Some? {
      DecodeErrs(raw[3..]);
    }
  }

  ghost predicate NoVersion(t: string) {
    forall v :: ProperVersion(v) ==> v.Text() != t
  }

  lemma {:induction false} NumbersErr(parts: seq<string>)
    requires NumbersOf(parts).Err?
    ensures NumbersOf(parts).error == InvalidVersion
  {
    if ValidNumberText(parts[0]) {
      NumbersErr(parts[1..]);
    }
  }

  lemma VersionRefused(t: string)
    requires ParseVersion(t).Err?
    ensures ParseVersion(t).error == InvalidVersion && NoVersion(t)
  {
    if NumbersOf(Split(t, '.')).Err? {
      NumbersErr(Split(t, '.'));
    }
    forall v | ProperVersion(v) ensures v.Text() != t {
      VersionProper(v);
      VersionExactly(t, v);
    }
  }

  // ----- the path -----

  // What is wrong with a segment, the last one with what follows its name.
  ghost predicate PartWrong(raw: string, last: bool, e: ParseError) {
    var (base, mark) := CutAt(raw, '@');
    match e
    case MisplacedVersionMarker => mark.Some? && (!last || '@' in mark.value)
    case InvalidVersion => last && mark.Some? && NoVersion(mark.value)
    case _ => SegmentWrong(base, e)
  }

  lemma LastRefused(raw: string)
    requires DecodeLast(raw).Err?
    ensures PartWrong(raw, true, DecodeLast(raw).error)
  {
    match SplitOnce(raw, '@') {
      case None => SegmentRefused(raw);
      case Some((base, ver)) =>
        if '@' !in ver && base != "" {
          MarkedRefused(raw, base, ver);
        }
    }
  }

  lemma MarkedRefused(raw: string, base: string, ver: string)
    requires DecodeLast(raw).Err? && SplitOnce(raw, '@') == Some((base, ver)) && '@' !in ver && base != ""
    ensures PartWrong(raw, true, DecodeLast(raw).error)
  {
    if ParseVersion(ver).Err? {
      VersionRefused(ver);
    } else {
      SegmentRefused(base);
    }
  }

  ghost predicate NameWrong(raws: seq<string>, e: ParseError) {
    exists i :: 0 <= i < |raws| && PartWrong(raws[i], i == |raws| - 1, e)
  }

  lemma FirstRefused(raw: string)
    requires if '@' in raw then true else DecodeSegment(raw).Err?
    ensures PartWrong(raw, false, if '@' in raw then MisplacedVersionMarker else DecodeSegment(raw).error)
  {
    if '@' !in raw {
      SegmentRefused(raw);
    }
  }

  lemma NameErr(raws: seq<string>)
    requires |raws| > 1 && DecodeName(raws).Err?
    ensures DecodeName(raws).error ==
      if '@' in raws[0] then MisplacedVersionMarker
      else if DecodeSegment(raws[0]).Err? then DecodeSegment(raws[0]).error
      else if DecodeName(raws[1..]).Err? then DecodeName(raws[1..]).error else TooLong
    ensures '@' !in raws[0] && DecodeSegment(raws[0]).Ok? ==> DecodeName(raws[1..]).Err?
  {
  }

  lemma {:induction false} NameRefused(raws: seq<string>)
    requires |raws| >= 1 && DecodeName(raws).Err?
    ensures NameWrong(raws, DecodeName(raws).error)
  {
    var e := DecodeName(raws).error;
    if |raws| == 1 {
      LastRefused(raws[0]);
      assert PartWrong(raws[0], true, e);
    } else {
      NameErr(raws);
      if '@' in raws[0] || DecodeSegment(raws[0]).Err? {
        FirstRefused(raws[0]);
        assert PartWrong(raws[0], false, e);
      } else {
        NameRefused(raws[1..]);
        TailWrong(raws, e);
      }
    }
  }

  lemma TailWrong(raws: seq<string>, e: ParseError)
    requires |raws| > 1 && NameWrong(raws[1..], e)
    ensures NameWrong(raws, e)
  {
    var tail := raws[1..];
    var i :| 0 <= i < |tail| && PartWrong(tail[i], i == |tail| - 1, e);
    var j := i + 1;
    assert tail[i] == raws[j];
    assert PartWrong(raws[j], j == |raws| - 1, e);
  }

  ghost predicate PathWrong(path: string, e: ParseError) {
    match e
    case MissingName => path == ""
    case TooManySegments => |Split(path, '/')| > 8
    case _ => NameWrong(Split(path, '/'), e)
  }

  lemma PathRefused(path: string)
    requires ParsePath(path).Err?
    ensures PathWrong(path, ParsePath(path).error)
  {
    var raws := Split(path, '/');
    if path != "" && |raws| <= MAX_SEGMENTS {
      NameRefused(raws);
      NameErrors(raws, DecodeName(raws).error);
    }
  }

  lemma NameErrors(raws: seq<string>, e: ParseError)
    requires NameWrong(raws, e)
    ensures !e.MissingName? && !e.TooManySegments?
  {
  }

  // ----- the selector -----

  ghost predicate NoSelector(t: string) {
    forall items :: 1 <= |items| <= 8 && (forall i :: 0 <= i < |items| ==> ProperItem(items[i])) ==>
      Join(ItemTexts(items), ',') != t
  }

  lemma {:induction false} ItemsErr(parts: seq<string>)
    requires ParseItems(parts).Err?
    ensures ParseItems(parts).error == InvalidSelector
  {
    if ParseItem(parts[0]).Ok? {
      ItemsErr(parts[1..]);
    }
  }

  lemma SelectorRefused(t: string)
    requires ParseSelector(t).Err?
    ensures ParseSelector(t).error == InvalidSelector && NoSelector(t)
  {
    if ParseItems(Split(t, ',')).Err? {
      ItemsErr(Split(t, ','));
    }
    forall items | 1 <= |items| <= 8 && forall i :: 0 <= i < |items| ==> ProperItem(items[i])
      ensures Join(ItemTexts(items), ',') != t
    {
      SelectorProper(items);
      SelectorExactly(t, items);
    }
  }

  // ----- the whole text -----

  // What follows the scheme: up to the first `#` a body, up to its first `?` a name, up to its
  // first `/` an authority.
  datatype Parts = Parts(authority: string, path: Option<string>, query: Option<string>, fragment: Option<string>)

  function PartsOfRest(rest: string): Parts {
    var (body, fragment) := CutAt(rest, '#');
    var (name, query) := CutAt(body, '?');
    var (authority, path) := CutAt(name, '/');
    Parts(authority, path, query, fragment)
  }

  ghost predicate RestWrong(p: Parts, e: ParseError) {
    match e
    case MissingName => p.path.None? || p.path.value == ""
    case InvalidQuery => p.query.Some? && |p.query.value| > 512
    case InvalidSelector => p.fragment.Some? && NoSelector(p.fragment.value)
    case _ => AuthorityWrong(p.authority, e) || (p.path.Some? && PathWrong(p.path.value, e))
  }

  lemma RestRefused(rest: string)
    requires ParseRest(rest).Err?
    ensures RestWrong(PartsOfRest(rest), ParseRest(rest).error)
  {
    var p := PartsOfRest(rest);
    if p.path.Some? {
      if ParseAuthority(p.authority).Err? {
        AuthorityRefused(p.authority);
      } else if ParsePath(p.path.value).Err? {
        PathRefused(p.path.value);
      } else {
        TailRefused(rest, p);
      }
    }
  }

  // With authority and path in order, the selector is looked at, then the query.
  lemma TailError(rest: string, p: Parts)
    requires ParseRest(rest).Err? && p == PartsOfRest(rest) && p.path.Some?
    requires ParseAuthority(p.authority).Ok? && ParsePath(p.path.value).Ok?
    ensures
      if p.fragment.Some? && ParseSelector(p.fragment.value).Err? then
        ParseRest(rest).error == ParseSelector(p.fragment.value).error
      else
        && ParseRest(rest).error == InvalidQuery
        && p.query.Some? && ('#' in p.query.value || |p.query.value| > MAX_QUERY_LEN)
  {
  }

  lemma FreeTail(head: string, tail: string, c: char, d: char)
    requires c !in head + [d] + tail
    ensures c !in tail
  {
    assert forall i :: 0 <= i < |tail| ==> (head + [d] + tail)[|head| + 1 + i] == tail[i];
  }

  lemma QueryClean(rest: string, body: string, name: string, query: string)
    requires body == CutAt(rest, '#').0 && CutAt(body, '?') == (name, Some(query))
    ensures '#' !in query
  {
    CutParts(rest, '#');
    FreeTail(name, query, '#', '?');
  }

  lemma TailRefused(rest: string, p: Parts)
    requires ParseRest(rest).Err? && p == PartsOfRest(rest) && p.path.Some?
    requires ParseAuthority(p.authority).Ok? && ParsePath(p.path.value).Ok?
    ensures RestWrong(p, ParseRest(rest).error)
  {
    TailError(rest, p);
    if p.fragment.Some? && ParseSelector(p.fragment.value).Err? {
      SelectorRefused(p.fragment.value);
    } else {
      QueryClean(rest, CutAt(rest, '#').0, CutAt(CutAt(rest, '#').0, '?').0, p.query.value);
    }
  }

  function AfterScheme(s: string): string {
    if |s| >= 7 then s[7..] else ""
  }

  ghost predicate SpellsLong(s: string, n: nat) {
    exists m, sp :: MurlSpelling.Spells(sp, m) && s == TextOf(m, sp) && |Print(m)| == n
  }

  // The first character that is no printable ASCII one.
  predicate FirstForeign(s: string, at: nat) {
    at < |s| && !(0x21 <= s[at] as int <= 0x7e) && Printable(s[..at])
  }

  ghost predicate Wrong(s: string, e: ParseError) {
    match e
    case TooLong => |s| > 1024
    case InvalidCharacter(at) => FirstForeign(s, at)
    case MissingScheme => |s| < 7 || Lowercase(s[..7]) != "murl://"
    case CanonicalTooLong(n) => n > 1024 && SpellsLong(s, n)
    case _ => RestWrong(PartsOfRest(AfterScheme(s)), e)
  }

  lemma RestErrors(p: Parts, e: ParseError)
    requires RestWrong(p, e)
    ensures !e.TooLong? && !e.InvalidCharacter? && !e.MissingScheme? && !e.CanonicalTooLong?
  {
  }

  // The parser's checks, in order.
  lemma TooLongFirst(s: string)
    requires |s| > MAX_MURL_LEN
    ensures Parse(s) == Err(TooLong)
  {
  }

  lemma CharacterNext(s: string, bad: nat)
    requires |s| <= MAX_MURL_LEN && bad == FirstUnprintable(s) && bad < |s|
    ensures Parse(s) == Err(InvalidCharacter(bad))
  {
  }

  lemma SchemeNext(s: string)
    requires |s| <= MAX_MURL_LEN && FirstUnprintable(s) == |s| && StripScheme(s).None?
    ensures Parse(s) == Err(MissingScheme)
  {
  }

  lemma RestNext(s: string, rest: string, e: ParseError)
    requires |s| <= MAX_MURL_LEN && FirstUnprintable(s) == |s| && StripScheme(s) == Some(rest)
    requires ParseRest(rest) == Err(e)
    ensures Parse(s) == Err(e)
  {
  }

  lemma LengthLast(s: string, rest: string, m: Murl, n: nat)
    requires |s| <= MAX_MURL_LEN && FirstUnprintable(s) == |s| && StripScheme(s) == Some(rest)
    requires ParseRest(rest) == Ok(m) && n == |Print(m)|
    ensures Parse(s) == if n > MAX_MURL_LEN then Err(CanonicalTooLong(n)) else Ok(m)
  {
  }

  lemma CharacterWrong(s: string, bad: nat)
    requires bad == FirstUnprintable(s) && bad < |s|
    ensures FirstForeign(s, bad)
  {
    assert forall k :: 0 <= k < bad ==> s[..bad][k] == s[k] && IsPrintable(s[k]);
  }

  lemma SchemeWrong(s: string)
    requires StripScheme(s).None?
    ensures Wrong(s, MissingScheme)
  {
  }

  lemma RestMeans(s: string, rest: string, e: ParseError)
    requires AfterScheme(s) == rest && RestWrong(PartsOfRest(rest), e)
    ensures Wrong(s, e)
  {
    RestErrors(PartsOfRest(rest), e);
  }

  // Every refused text is wrong as the error says.
  lemma RefusalMeans(s: string)
    requires Parse(s).Err?
    ensures Wrong(s, Parse(s).error)
  {
    var bad := FirstUnprintable(s);
    if |s| > MAX_MURL_LEN {
      TooLongFirst(s);
    } else if bad < |s| {
      CharacterNext(s, bad);
      CharacterWrong(s, bad);
    } else {
      match StripScheme(s) {
        case None =>
          SchemeNext(s);
          SchemeWrong(s);
        case Some(rest) => RestMeansWrong(s, rest);
      }
    }
  }

  lemma RestMeansWrong(s: string, rest: string)
    requires Parse(s).Err? && |s| <= MAX_MURL_LEN && FirstUnprintable(s) == |s| && StripScheme(s) == Some(rest)
    ensures Wrong(s, Parse(s).error)
  {
    match ParseRest(rest) {
      case Err(e) =>
        RestNext(s, rest, e);
        RestRefused(rest);
        RestMeans(s, rest, e);
      case Ok(m) =>
        LengthLast(s, rest, m, |Print(m)|);
        LongRefused(s, rest, m);
    }
  }

  lemma LongRefused(s: string, rest: string, m: Murl)
    requires |s| >= 7 && Lowercase(s[..7]) == "murl://" && rest == s[7..] && ParseRest(rest) == Ok(m)
    ensures SpellsLong(s, |Print(m)|)
  {
    var sp := RestSpelled(rest, m, s[..7]);
    assert s == s[..7] + rest;
    assert s == TextOf(m, sp);
  }
}
