/**
 A reader of JSON, written from the grammar of RFC 8259: literals, integers, strings with
 every escape the grammar has, arrays and objects. Insignificant whitespace is not read, and
 the members of an object must ascend (sections 3.2.1 and 3.2.3 of RFC 8785). It reads every
 canonical text back, and no spelling of a character it reads is shorter than the canonical one.
 */
module CanonicalReader {
  import opened Wrappers
  import opened Text
  import opened Sorting
  import opened Canonical
  import Utf8

  // ----- strings -----

  function HexValue(c: char): (r: Option<nat>)
    ensures r.Some? ==> r.value < 16
  {
    if '0' <= c <= '9' then Some(c as int - '0' as int)
    else if 'a' <= c <= 'f' then Some(c as int - 'a' as int + 10)
    else if 'A' <= c <= 'F' then Some(c as int - 'A' as int + 10)
    else None
  }

  // Four hex digits, of either case.
  function HexNumber(s: string): (r: Option<nat>)
    requires |s| == 4
    ensures r.Some? ==> r.value < 0x1_0000
  {
    var a, b, c, d := HexValue(s[0]), HexValue(s[1]), HexValue(s[2]), HexValue(s[3]);
    if a.Some? && b.Some? && c.Some? && d.Some?
    then Some(a.value * 4096 + b.value * 256 + c.value * 16 + d.value) else None
  }

  // What follows a backslash. Halves of surrogate pairs are not read.
  function ReadEscape(s: string): (r: Option<(char, string)>)
    ensures r.Some? ==> |r.value.1| < |s|
  {
    if s == "" then None
    else if s[0] == '"' || s[0] == '\\' || s[0] == '/' then Some((s[0], s[1..]))
    else if s[0] == 'b' then Some(('\U{0008}', s[1..]))
    else if s[0] == 'f' then Some(('\U{000c}', s[1..]))
    else if s[0] == 'n' then Some(('\n', s[1..]))
    else if s[0] == 'r' then Some(('\r', s[1..]))
    else if s[0] == 't' then Some(('\t', s[1..]))
    else if s[0] == 'u' && |s| >= 5 then
      match HexNumber(s[1..5])
      case Some(n) => if 0xD800 <= n < 0xE000 then None else Some((n as char, s[5..]))
      case None => None
    else None
  }

  // One character of a string, escaped or as it is.
  function ReadChar(s: string): (r: Option<(char, string)>)
    ensures r.Some? ==> |r.value.1| < |s|
  {
    if s == "" || s[0] == '"' || s[0] < ' ' then None
    else if s[0] == '\\' then ReadEscape(s[1..])
    else Some((s[0], s[1..]))
  }

  // Up to the closing quote.
  function ReadChars(s: string): (r: Option<(string, string)>)
    ensures r.Some? ==> |r.value.1| < |s|
    decreases |s|
  {
    if s == "" then None
    else if s[0] == '"' then Some(("", s[1..]))
    else
      match ReadChar(s)
      case None => None
      case Some((c, rest)) =>
        match ReadChars(rest)
        case None => None
        case Some((text, after)) => Some(([c] + text, after))
  }

  // ----- numbers -----

  function DigitRun(s: string): (n: nat)
    ensures n <= |s| && AllDigits(s[..n])
  {
    if s == "" || !IsDigit(s[0]) then 0
    else
      var n := DigitRun(s[1..]);
      assert s[..n + 1] == [s[0]] + s[1..][..n];
      n + 1
  }

  // Digits without a leading zero.
  function ReadNat(s: string): (r: Option<(nat, string)>)
    ensures r.Some? ==> |r.value.1| < |s|
  {
    var n := DigitRun(s);
    if n == 0 || (n > 1 && s[0] == '0') then None else Some((NatValue(s[..n]), s[n..]))
  }

  function ReadInt(s: string): (r: Option<(int, string)>)
    ensures r.Some? ==> |r.value.1| < |s|
  {
    if s != "" && s[0] == '-' then
      match ReadNat(s[1..])
      case None => None
      case Some((n, rest)) => Some((-(n as int), rest))
    else
      match ReadNat(s)
      case None => None
      case Some((n, rest)) => Some((n, rest))
  }

  // ----- values -----

  function ReadLiteral(s: string, word: string, v: Json): (r: Option<(Json, string)>)
    requires word != ""
    ensures r.Some? ==> |r.value.1| < |s|
  {
    if StartsWith(s, word) then Some((v, s[|word|..])) else None
  }

  // A value, and what follows it.
  function ReadValue(s: string): (r: Option<(Json, string)>)
    ensures r.Some? ==> |r.value.1| < |s|
    decreases |s|, 0
  {
    if s == "" then None
    else if s[0] == 'n' then ReadLiteral(s, "null", Null)
    else if s[0] == 't' then ReadLiteral(s, "true", Bool(true))
    else if s[0] == 'f' then ReadLiteral(s, "false", Bool(false))
    else if s[0] == '"' then
      match ReadChars(s[1..])
      case None => None
      case Some((text, rest)) => Some((Str(text), rest))
    else if s[0] == '[' then
      match ReadItems(s[1..])
      case None => None
      case Some((items, rest)) => Some((Arr(items), rest))
    else if s[0] == '{' then
      match ReadMembers(s[1..])
      case None => None
      case Some((members, rest)) => Some((Obj(members), rest))
    else
      match ReadInt(s)
      case None => None
      case Some((n, rest)) => Some((Int(n), rest))
  }

  // What follows an opening bracket.
  function ReadItems(s: string): (r: Option<(seq<Json>, string)>)
    ensures r.Some? ==> |r.value.1| < |s|
    decreases |s|, 1
  {
    if s != "" && s[0] == ']' then Some(([], s[1..]))
    else
      match ReadValue(s)
      case None => None
      case Some((v, rest)) =>
        match MoreItems(rest)
        case None => None
        case Some((items, after)) => Some(([v] + items, after))
  }

  // What follows an item.
  function MoreItems(s: string): (r: Option<(seq<Json>, string)>)
    ensures r.Some? ==> |r.value.1| < |s|
    decreases |s|, 1
  {
    if s == "" then None
    else if s[0] == ']' then Some(([], s[1..]))
    else if s[0] == ',' then
      match ReadValue(s[1..])
      case None => None
      case Some((v, rest)) =>
        match MoreItems(rest)
        case None => None
        case Some((items, after)) => Some(([v] + items, after))
    else None
  }

  // A name, a colon and a value.
  function ReadMember(s: string): (r: Option<(string, Json, string)>)
    ensures r.Some? ==> |r.value.2| < |s|
    decreases |s|, 1
  {
    if s == "" || s[0] != '"' then None
    else
      match ReadChars(s[1..])
      case None => None
      case Some((name, rest)) =>
        if rest == "" || rest[0] != ':' then None
        else
          match ReadValue(rest[1..])
          case None => None
          case Some((v, after)) => Some((name, v, after))
  }

  // What follows an opening brace.
  function ReadMembers(s: string): (r: Option<(map<string, Json>, string)>)
    ensures r.Some? ==> |r.value.1| < |s|
    decreases |s|, 2
  {
    if s != "" && s[0] == '}' then Some((map[], s[1..]))
    else
      match ReadMember(s)
      case None => None
      case Some((name, v, rest)) => MoreMembers(rest, name, map[name := v])
  }

  // What follows a member.
  function MoreMembers(s: string, last: string, read: map<string, Json>): (r: Option<(map<string, Json>, string)>)
    ensures r.Some? ==> |r.value.1| < |s|
    decreases |s|, 2
  {
    if s == "" then None
    else if s[0] == '}' then Some((read, s[1..]))
    else if s[0] == ',' then
      match ReadMember(s[1..])
      case None => None
      case Some((name, v, rest)) =>
        if Utf8.LexLess(last, name) then MoreMembers(rest, name, read[name := v]) else None
    else None
  }

  // A whole text.
  function ReadJson(s: string): Option<Json> {
    match ReadValue(s)
    case None => None
    case Some((v, rest)) => if rest == "" then Some(v) else None
  }

  function ReadBytes(bytes: string): Option<Json> {
    match Utf8.Decode(bytes)
    case None => None
    case Some(text) => ReadJson(text)
  }

  // ----- strings are read back -----

  lemma HexDigitRead(n: nat)
    requires n < 16
    ensures HexValue(HexLower(n)) == Some(n)
  {
  }

  lemma Hex4Read(n: nat)
    requires n < 0x100
    ensures HexNumber(Hex4(n)) == Some(n)
  {
    LowHex(n);
    HexDigitRead(0);
    HexDigitRead(n / 16);
    HexDigitRead(n % 16);
    assert n / 256 == 0;
    assert n / 4096 == 0;
  }

  lemma EscapeRead(c: char, t: string)
    ensures ReadChar(Escaped(c) + t) == Some((c, t)) && (Escaped(c) + t)[0] != '"'
  {
    var s := Escaped(c) + t;
    assert s[0] == Escaped(c)[0] && s[|Escaped(c)|..] == t;
    if |Escaped(c)| == 2 {
      assert s[1] == Escaped(c)[1] && s[1..][1..] == t;
    } else if |Escaped(c)| == 6 {
      Hex4Read(c as int);
      assert s[1..][1..5] == Hex4(c as int) && s[1..][5..] == t;
      assert s[1..][0] == 'u';
    }
  }

  lemma {:induction false} CharsRead(a: string, t: string)
    ensures ReadChars(EscapedAll(a) + "\"" + t) == Some((a, t))
  {
    var s := EscapedAll(a) + "\"" + t;
    if a == "" {
      assert s[0] == '"' && s[1..] == t;
    } else {
      var rest := EscapedAll(a[1..]) + "\"" + t;
      EscapedStep(a, t);
      EscapeRead(a[0], rest);
      CharsRead(a[1..], t);
      assert [a[0]] + a[1..] == a;
    }
  }

  lemma QuotedRead(a: string, t: string)
    ensures (Quoted(a) + t)[0] == '"' && ReadChars((Quoted(a) + t)[1..]) == Some((a, t))
  {
    QuotedTail(a, t);
    CharsRead(a, t);
    assert (Quoted(a) + t)[1..] == EscapedAll(a) + "\"" + t;
  }

  // ----- numbers are read back -----

  lemma {:induction false} RunOf(a: string, t: string)
    requires AllDigits(a) && Stops(t)
    ensures DigitRun(a + t) == |a|
  {
    if a != "" {
      assert (a + t)[1..] == a[1..] + t;
      RunOf(a[1..], t);
    }
  }

  lemma NatRead(n: nat, t: string)
    requires Stops(t)
    ensures ReadNat(NatText(n) + t) == Some((n, t))
  {
    var a := NatText(n);
    RunOf(a, t);
    NatRoundTrip(n);
    assert (a + t)[..|a|] == a && (a + t)[|a|..] == t && (a + t)[0] == a[0];
  }

  lemma IntRead(n: int, t: string)
    requires Stops(t)
    ensures ReadInt(IntText(n) + t) == Some((n, t))
  {
    IntHead(n, t);
    if n < 0 {
      NatRead(-n, t);
      assert ("-" + (NatText(-n) + t))[1..] == NatText(-n) + t;
    } else {
      NatRead(n, t);
    }
  }

  // ----- values are read back -----

  lemma {:induction false} FormRead(v: Json, t: string)
    requires Writable(v) && Stops(t)
    ensures ReadValue(Form(v) + t) == Some((v, t))
    decreases v, 1
  {
    Head(v, t);
    match v {
      case Null => LiteralRead("null", Null, t);
      case Bool(flag) => LiteralRead(if flag then "true" else "false", v, t);
      case Int(n) => IntRead(n, t);
      case Str(text) => QuotedRead(text, t);
      case Arr(_) => ArrRead(v, t);
      case Obj(_) => ObjRead(v, t);
      case Fraction(_) =>
    }
  }

  lemma LiteralRead(word: string, v: Json, t: string)
    requires word != ""
    ensures ReadLiteral(word + t, word, v) == Some((v, t))
  {
    assert (word + t)[..|word|] == word && (word + t)[|word|..] == t;
  }

  lemma BracketRead(s: string, items: seq<Json>, t: string)
    requires ReadItems(s) == Some((items, t))
    ensures ReadValue("[" + s) == Some((Arr(items), t))
  {
    assert ("[" + s)[1..] == s;
  }

  lemma BraceRead(s: string, members: map<string, Json>, t: string)
    requires ReadMembers(s) == Some((members, t))
    ensures ReadValue("{" + s) == Some((Obj(members), t))
  {
    assert ("{" + s)[1..] == s;
  }

  lemma {:induction false} ArrRead(v: Json, t: string)
    requires Writable(v) && v.Arr?
    ensures ReadValue(Form(v) + t) == Some((v, t))
    decreases v, 0, |v.items| + 2
  {
    FirstRead(v, t);
    BracketRead(FormItems(v, 0) + t, v.items, t);
    Assoc("[", FormItems(v, 0), t);
  }

  lemma {:induction false} FirstRead(v: Json, t: string)
    requires Writable(v) && v.Arr?
    ensures ReadItems(FormItems(v, 0) + t) == Some((v.items, t))
    decreases v, 0, |v.items| + 1
  {
    if v.items == [] {
      assert FormItems(v, 0) + t == "]" + t;
    } else {
      var first, rest := v.items[0], FormItems(v, 1) + t;
      FormItemsStep(v, 0, t);
      NoComma(Form(first) + rest);
      FormItemsStops(v, 1, t);
      Head(first, rest);
      FormRead(first, rest);
      ItemsRead(v, 1, t);
      assert v.items == [first] + v.items[1..];
    }
  }

  lemma {:induction false} ItemsRead(v: Json, i: nat, t: string)
    requires Writable(v) && v.Arr? && 0 < i <= |v.items|
    ensures MoreItems(FormItems(v, i) + t) == Some((v.items[i..], t))
    decreases v, 0, |v.items| - i
  {
    var s := FormItems(v, i) + t;
    if i == |v.items| {
      assert s == "]" + t && v.items[i..] == [];
    } else {
      var next := i + 1;
      var rest := FormItems(v, next) + t;
      FormItemsStep(v, i, t);
      assert s[1..] == Form(v.items[i]) + rest;
      FormItemsStops(v, next, t);
      FormRead(v.items[i], rest);
      ItemsRead(v, next, t);
      assert v.items[i..] == [v.items[i]] + v.items[next..];
    }
  }

  // The members whose names are among the first i.
  ghost function Members(v: Json, ks: seq<string>, i: nat): map<string, Json>
    requires Names(v, ks) && i <= |ks|
  {
    map k | k in v.members && k in ks[..i] :: v.members[k]
  }

  lemma MembersMore(v: Json, ks: seq<string>, i: nat, next: nat)
    requires Names(v, ks) && i < |ks| && next == i + 1
    ensures Members(v, ks, i)[ks[i] := v.members[ks[i]]] == Members(v, ks, next)
  {
    assert ks[..next] == ks[..i] + [ks[i]];
  }

  lemma {:induction false} MemberRead(v: Json, ks: seq<string>, i: nat, t: string)
    requires Writable(v) && Names(v, ks) && i < |ks|
    ensures var rest := FormMembers(v, ks, i + 1) + t;
      && FormMembers(v, ks, i) + t == Comma(i) + (Quoted(ks[i]) + (":" + (Form(v.members[ks[i]]) + rest)))
      && ReadMember(Quoted(ks[i]) + (":" + (Form(v.members[ks[i]]) + rest))) == Some((ks[i], v.members[ks[i]], rest))
    decreases v, 0, |ks| - i, 0
  {
    var next := i + 1;
    var rest := FormMembers(v, ks, next) + t;
    var after := Form(v.members[ks[i]]) + rest;
    FormMembersStep(v, ks, i, t);
    QuotedRead(ks[i], ":" + after);
    assert (":" + after)[1..] == after;
    FormMembersStops(v, ks, next, t);
    FormRead(v.members[ks[i]], rest);
  }

  lemma {:induction false} MembersRead(v: Json, ks: seq<string>, i: nat, t: string)
    requires Writable(v) && Names(v, ks) && 0 < i <= |ks| && Ascending(ks, Utf8.LexLess)
    ensures MoreMembers(FormMembers(v, ks, i) + t, ks[i - 1], Members(v, ks, i)) == Some((Members(v, ks, |ks|), t))
    decreases v, 0, |ks| - i, 1
  {
    var s := FormMembers(v, ks, i) + t;
    if i == |ks| {
      assert s == "}" + t;
    } else {
      var next := i + 1;
      MemberRead(v, ks, i, t);
      assert s[0] == ',' && s[1..] == Quoted(ks[i]) + (":" + (Form(v.members[ks[i]]) + (FormMembers(v, ks, next) + t)));
      MembersMore(v, ks, i, next);
      MembersRead(v, ks, next, t);
    }
  }

  lemma {:induction false} ObjRead(v: Json, t: string)
    requires Writable(v) && v.Obj?
    ensures ReadValue(Form(v) + t) == Some((v, t))
    decreases v, 0, |KeyList(v.members.Keys)| + 2, 0
  {
    var ks := KeyList(v.members.Keys);
    KeyListHolds(v.members.Keys);
    FormObj(v, t);
    AllMembers(v, ks);
    FirstMemberRead(v, ks, t);
    BraceRead(FormMembers(v, ks, 0) + t, v.members, t);
  }

  lemma MembersStart(s: string, name: string, v: Json, rest: string)
    requires s != "" && s[0] == '"' && ReadMember(s) == Some((name, v, rest))
    ensures ReadMembers(s) == MoreMembers(rest, name, map[name := v])
  {
  }

  lemma NoComma(s: string)
    ensures Comma(0) + s == s
  {
  }

  lemma {:induction false} FirstMemberRead(v: Json, ks: seq<string>, t: string)
    requires Writable(v) && Names(v, ks) && Ascending(ks, Utf8.LexLess)
    ensures ReadMembers(FormMembers(v, ks, 0) + t) == Some((Members(v, ks, |ks|), t))
    decreases v, 0, |ks| + 1, 0
  {
    var s := FormMembers(v, ks, 0) + t;
    assert Members(v, ks, 0) == map[];
    if ks == [] {
      assert s == "}" + t;
    } else {
      var first, rest := v.members[ks[0]], FormMembers(v, ks, 1) + t;
      MemberRead(v, ks, 0, t);
      NoComma(Quoted(ks[0]) + (":" + (Form(first) + rest)));
      QuotedRead(ks[0], ":" + (Form(first) + rest));
      MembersStart(s, ks[0], first, rest);
      MembersMore(v, ks, 0, 1);
      MembersRead(v, ks, 1, t);
    }
  }

  lemma AllMembers(v: Json, ks: seq<string>)
    requires Names(v, ks) && forall k :: k in ks <==> k in v.members
    ensures Members(v, ks, |ks|) == v.members
  {
    assert ks[..|ks|] == ks;
  }

  // Every canonical text is read back as the value it was written for.
  lemma ReadsBack(v: Json)
    requires Writable(v)
    ensures ReadJson(Form(v)) == Some(v)
  {
    FormRead(v, "");
    assert Form(v) + "" == Form(v);
  }

  lemma ReadsBytesBack(v: Json)
    requires Writable(v)
    ensures ReadBytes(Bytes(v)) == Some(v)
  {
    Utf8.DecodeEncode(Form(v));
    ReadsBack(v);
  }

  // ----- no spelling is shorter -----

  // How a character may be spelled in a string.
  predicate Spells(e: string, c: char) {
    ReadChar(e) == Some((c, ""))
  }

  lemma LowerDigit(c: char)
    requires HexValue(c).Some?
    ensures ToLower(c) == HexLower(HexValue(c).value)
  {
  }

  lemma HexLowered(s: string)
    requires |s| == 4 && HexNumber(s).Some? && HexNumber(s).value < 0x20
    ensures Lowercase(s) == Hex4(HexNumber(s).value)
  {
    var n, low := HexNumber(s).value, Lowercase(s);
    SmallHex(s);
    LowHex(n);
    LowerDigit(s[0]);
    LowerDigit(s[1]);
    LowerDigit(s[2]);
    LowerDigit(s[3]);
    assert low == [HexLower(0), HexLower(0), HexLower(n / 16), HexLower(n % 16)];
  }

  lemma SmallHex(s: string)
    requires |s| == 4 && HexNumber(s).Some? && HexNumber(s).value < 0x20
    ensures var n := HexNumber(s).value;
      && HexValue(s[0]) == Some(0) && HexValue(s[1]) == Some(0)
      && HexValue(s[2]) == Some(n / 16) && HexValue(s[3]) == Some(n % 16)
  {
  }

  lemma LowerHex(c: char)
    requires |Escaped(c)| == 6
    ensures Lowercase(Escaped(c)) == Escaped(c)
  {
    var e, n := Escaped(c), c as int;
    LowHex(n);
    assert e[2] == HexLower(n / 4096) && e[3] == HexLower(n / 256 % 16);
    assert e[4] == HexLower(n / 16) && e[5] == HexLower(n % 16);
  }

  lemma HexSpelling(e: string, c: char)
    requires |e| == 6 && e[..2] == "\\u" && HexNumber(e[2..]) == Some(c as int) && |Escaped(c)| == 6
    ensures Lowercase(e) == Escaped(c)
  {
    HexLowered(e[2..]);
    assert Lowercase(e)[2..] == Lowercase(e[2..]);
    assert Lowercase(e) == "\\u" + Lowercase(e[2..]);
  }

  lemma ShortSpelling(c: char, d: char)
    requires ReadEscape([d]) == Some((c, ""))
    ensures Escaped(c) == ['\\', d] || (d == '/' && |Escaped(c)| == 1)
  {
  }

  lemma EscapedSpelling(e: string, c: char)
    requires Spells(e, c) && e[0] == '\\'
    ensures |Escaped(c)| <= |e|
    ensures |e| == |Escaped(c)| ==> e == Escaped(c) || (|e| == 6 && Lowercase(e) == Escaped(c))
  {
    var t := e[1..];
    EscapeShape(c);
    if t[0] == 'u' {
      assert t[5..] == "" && t[1..5] == e[2..] && e[..2] == "\\u";
      if |Escaped(c)| == 6 {
        HexSpelling(e, c);
      }
    } else {
      assert t == [t[0]] && e == ['\\', t[0]];
      ShortSpelling(c, t[0]);
    }
  }

  // The canonical escape is among the shortest spellings, and the only one of its length, but
  // for the case of hex digits, which are in lower case.
  lemma ShortestSpelling(e: string, c: char)
    requires Spells(e, c)
    ensures Spells(Escaped(c), c) && |Escaped(c)| <= |e|
    ensures |e| == |Escaped(c)| ==> e == Escaped(c) || (|e| == 6 && Lowercase(e) == Escaped(c))
    ensures |Escaped(c)| == 6 ==> Lowercase(Escaped(c)) == Escaped(c)
  {
    EscapeRead(c, "");
    assert Escaped(c) + "" == Escaped(c);
    if e[0] == '\\' {
      EscapedSpelling(e, c);
    } else {
      assert e == [c];
    }
    if |Escaped(c)| == 6 {
      LowerHex(c);
    }
  }
}
