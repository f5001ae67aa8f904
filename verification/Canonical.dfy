/**
 MCF-1, the canonical form of JSON that hashes and signatures cover: section 3.2
 of RFC 8785, restricted to integers, with members sorted by code point.
 */
module Canonical {
  import opened Wrappers
  import opened Text
  import opened Sorting
  import Utf8

  // Text is a list of code points here; bytes are its UTF-8 encoding.
  datatype Json =
    | Null
    | Bool(flag: bool)
    | Int(n: int)
    | Fraction(digits: string)
    | Str(text: string)
    | Arr(items: seq<Json>)
    | Obj(members: map<string, Json>)

  const INT_MIN: int := -0x8000_0000_0000_0000
  const INT_MAX: int := 0xFFFF_FFFF_FFFF_FFFF

  // Values with a canonical form: every number in them is an integer of 64 bits.
  predicate Writable(v: Json) {
    match v
    case Int(n) => INT_MIN <= n <= INT_MAX
    case Fraction(_) => false
    case Arr(items) => forall i :: 0 <= i < |items| ==> Writable(items[i])
    case Obj(members) => forall k :: k in members ==> Writable(members[k])
    case _ => true
  }

  // ----- strings -----

  function HexLower(n: nat): char
    requires n < 16
  {
    if n < 10 then ('0' as int + n) as char else ('a' as int + (n - 10)) as char
  }

  // Four lowercase hex digits.
  function Hex4(n: nat): string
    requires n < 0x1_0000
  {
    [HexLower(n / 4096), HexLower(n / 256 % 16), HexLower(n / 16 % 16), HexLower(n % 16)]
  }

  // Section 3.2.2.2 of RFC 8785.
  function Escaped(c: char): string {
    if c == '"' then "\\\""
    else if c == '\\' then "\\\\"
    else if c == '\U{0008}' then "\\b"
    else if c == '\U{000c}' then "\\f"
    else if c == '\n' then "\\n"
    else if c == '\r' then "\\r"
    else if c == '\t' then "\\t"
    else if c < ' ' then "\\u" + Hex4(c as int)
    else [c]
  }

  function EscapedAll(s: string): string {
    if s == "" then "" else Escaped(s[0]) + EscapedAll(s[1..])
  }

  function Quoted(s: string): string {
    "\"" + EscapedAll(s) + "\""
  }

  function IntText(n: int): string {
    if n < 0 then "-" + NatText(-n) else NatText(n)
  }

  // ----- values -----

  ghost function AnyOf(keys: set<string>): (k: string)
    requires keys != {}
    ensures k in keys
  {
    var k :| k in keys;
    k
  }

  // The names of an object in code-point order.
  ghost function KeyList(keys: set<string>): seq<string> {
    if keys == {} then [] else Insert(KeyList(keys - {AnyOf(keys)}), AnyOf(keys), Utf8.LexLess)
  }

  lemma {:induction false} KeyListHolds(keys: set<string>)
    ensures Ascending(KeyList(keys), Utf8.LexLess)
    ensures forall k :: k in KeyList(keys) <==> k in keys
  {
    if keys != {} {
      var k := AnyOf(keys);
      var rest := KeyList(keys - {k});
      KeyListHolds(keys - {k});
      LexIsTotal();
      InsertAscending(rest, k, Utf8.LexLess);
      InsertHolds(rest, k, Utf8.LexLess);
    }
  }

  ghost predicate Names(v: Json, ks: seq<string>) {
    v.Obj? && forall i :: 0 <= i < |ks| ==> ks[i] in v.members
  }

  ghost function Form(v: Json): string
    requires Writable(v)
    decreases v, 1
  {
    match v
    case Null => "null"
    case Bool(flag) => if flag then "true" else "false"
    case Int(n) => IntText(n)
    case Str(s) => Quoted(s)
    case Arr(_) => "[" + FormItems(v, 0)
    case Obj(members) =>
      KeyListHolds(members.Keys);
      "{" + FormMembers(v, KeyList(members.Keys), 0)
  }

  function Comma(i: nat): string {
    if i > 0 then "," else ""
  }

  // Items from i on, and the closing bracket.
  ghost function FormItems(v: Json, i: nat): string
    requires Writable(v) && v.Arr? && i <= |v.items|
    decreases v, 0, |v.items| - i
  {
    if i == |v.items| then "]" else Comma(i) + Form(v.items[i]) + FormItems(v, i + 1)
  }

  // Members from the i-th name on, and the closing brace.
  ghost function FormMembers(v: Json, ks: seq<string>, i: nat): string
    requires Writable(v) && Names(v, ks) && i <= |ks|
    decreases v, 0, |ks| - i
  {
    if i == |ks| then "}"
    else Comma(i) + Quoted(ks[i]) + ":" + Form(v.members[ks[i]]) + FormMembers(v, ks, i + 1)
  }

  // Canonical bytes: what is hashed and signed.
  ghost function Bytes(v: Json): string
    requires Writable(v)
  {
    Utf8.Encode(Form(v))
  }

  // ----- unique reading -----

  lemma Cancel(p: string, x: string, y: string)
    requires p + x == p + y
    ensures x == y
  {
    assert (p + x)[|p|..] == x && (p + y)[|p|..] == y;
  }

  // An escape has one, two or six characters; which, its first two tell.
  lemma EscapeShape(c: char)
    ensures |Escaped(c)| in {1, 2, 6} && (|Escaped(c)| > 1 <==> Escaped(c)[0] == '\\')
    ensures |Escaped(c)| > 1 ==> (|Escaped(c)| == 6 <==> Escaped(c)[1] == 'u')
  {
  }

  lemma HexDigit(m: nat, n: nat)
    requires m < 16 && n < 16 && HexLower(m) == HexLower(n)
    ensures m == n
  {
  }

  lemma LowHex(n: nat)
    requires n < 0x100
    ensures Hex4(n)[2] == HexLower(n / 16) && Hex4(n)[3] == HexLower(n % 16)
  {
    assert n / 16 % 16 == n / 16;
  }

  lemma HexTells(m: nat, n: nat)
    requires m < 0x100 && n < 0x100 && Hex4(m) == Hex4(n)
    ensures m == n
  {
    LowHex(m);
    LowHex(n);
    HexDigit(m / 16, n / 16);
    HexDigit(m % 16, n % 16);
  }

  lemma EscapeTells(c: char, d: char)
    requires Escaped(c) == Escaped(d)
    ensures c == d
  {
    if |Escaped(c)| == 6 {
      assert Escaped(c)[2..] == Hex4(c as int) && Escaped(d)[2..] == Hex4(d as int);
      HexTells(c as int, d as int);
    } else {
      assert Escaped(c)[0] == Escaped(d)[0];
      if |Escaped(c)| == 2 {
        assert Escaped(c)[1] == Escaped(d)[1];
      }
    }
  }

  // No escape is the beginning of another, and none begins with a quote.
  lemma EscapeReads(c: char, d: char, s: string, t: string)
    requires Escaped(c) + s == Escaped(d) + t
    ensures c == d && s == t
  {
    EscapesAlign(c, d, s, t);
    assert Escaped(c) == (Escaped(c) + s)[..|Escaped(c)|];
    assert Escaped(d) == (Escaped(d) + t)[..|Escaped(d)|];
    EscapeTells(c, d);
    Cancel(Escaped(c), s, t);
  }

  lemma EscapesAlign(c: char, d: char, s: string, t: string)
    requires Escaped(c) + s == Escaped(d) + t
    ensures |Escaped(c)| == |Escaped(d)|
  {
    EscapeShape(c);
    EscapeShape(d);
    var x, y := Escaped(c) + s, Escaped(d) + t;
    assert x[0] == Escaped(c)[0] && y[0] == Escaped(d)[0];
    if |Escaped(c)| > 1 {
      assert x[1] == Escaped(c)[1] && y[1] == Escaped(d)[1];
    }
  }

  lemma EscapedStep(a: string, s: string)
    requires a != ""
    ensures EscapedAll(a) + "\"" + s == Escaped(a[0]) + (EscapedAll(a[1..]) + "\"" + s)
  {
  }

  lemma EscapedHead(a: string, s: string)
    ensures (EscapedAll(a) + "\"" + s)[0] == '"' <==> a == ""
  {
  }

  lemma {:induction false} StringReads(a: string, b: string, s: string, t: string)
    requires EscapedAll(a) + "\"" + s == EscapedAll(b) + "\"" + t
    ensures a == b && s == t
  {
    EscapedHead(a, s);
    EscapedHead(b, t);
    if a == "" {
      assert "" + "\"" == "\"";
      Cancel("\"", s, t);
    } else {
      var u, v := EscapedAll(a[1..]) + "\"" + s, EscapedAll(b[1..]) + "\"" + t;
      EscapedStep(a, s);
      EscapedStep(b, t);
      EscapeReads(a[0], b[0], u, v);
      StringReads(a[1..], b[1..], s, t);
      assert a == [a[0]] + a[1..] && b == [b[0]] + b[1..];
    }
  }

  lemma QuotedTail(a: string, s: string)
    ensures Quoted(a) + s == "\"" + (EscapedAll(a) + "\"" + s)
  {
    Assoc("\"", EscapedAll(a), "\"");
    Assoc("\"", EscapedAll(a) + "\"", s);
  }

  lemma QuotedReads(a: string, b: string, s: string, t: string)
    requires Quoted(a) + s == Quoted(b) + t
    ensures a == b && s == t
  {
    QuotedTail(a, s);
    QuotedTail(b, t);
    Cancel("\"", EscapedAll(a) + "\"" + s, EscapedAll(b) + "\"" + t);
    StringReads(a, b, s, t);
  }

  // What can follow a value.
  predicate Stops(s: string) {
    s == "" || s[0] == ',' || s[0] == ']' || s[0] == '}'
  }

  function LeadingDigits(s: string): nat {
    if s == "" || !IsDigit(s[0]) then 0 else 1 + LeadingDigits(s[1..])
  }

  lemma {:induction false} LeadingOf(a: string, s: string)
    requires AllDigits(a) && Stops(s)
    ensures LeadingDigits(a + s) == |a|
  {
    if a != "" {
      assert (a + s)[1..] == a[1..] + s;
      LeadingOf(a[1..], s);
    }
  }

  lemma DigitsRead(a: string, b: string, s: string, t: string)
    requires AllDigits(a) && AllDigits(b) && Stops(s) && Stops(t) && a + s == b + t
    ensures a == b && s == t
  {
    LeadingOf(a, s);
    LeadingOf(b, t);
    assert (a + s)[..|a|] == a && (b + t)[..|b|] == b;
    Cancel(a, s, t);
  }

  lemma IntHead(n: int, s: string)
    ensures (IntText(n) + s)[0] == '-' <==> n < 0
    ensures n < 0 ==> IntText(n) + s == "-" + (NatText(-n) + s)
  {
  }

  lemma NatReads(m: nat, n: nat, s: string, t: string)
    requires Stops(s) && Stops(t) && NatText(m) + s == NatText(n) + t
    ensures m == n && s == t
  {
    DigitsRead(NatText(m), NatText(n), s, t);
    NatRoundTrip(m);
    NatRoundTrip(n);
  }

  lemma IntReads(m: int, n: int, s: string, t: string)
    requires Stops(s) && Stops(t) && IntText(m) + s == IntText(n) + t
    ensures m == n && s == t
  {
    IntHead(m, s);
    IntHead(n, t);
    if m < 0 {
      Cancel("-", NatText(-m) + s, NatText(-n) + t);
      NatReads(-m, -n, s, t);
    } else {
      NatReads(m, n, s, t);
    }
  }

  // The first character tells the kind of a value.
  function Kind(c: char): nat {
    if c == 'n' then 0
    else if c == 't' then 1
    else if c == 'f' then 2
    else if c == '-' || IsDigit(c) then 3
    else if c == '"' then 4
    else if c == '[' then 5
    else if c == '{' then 6
    else 7
  }

  function KindOf(v: Json): nat {
    match v
    case Null => 0
    case Bool(flag) => if flag then 1 else 2
    case Int(_) => 3
    case Fraction(_) => 7
    case Str(_) => 4
    case Arr(_) => 5
    case Obj(_) => 6
  }

  lemma Head(v: Json, s: string)
    requires Writable(v)
    ensures |Form(v)| > 0 && Kind((Form(v) + s)[0]) == KindOf(v)
  {
  }

  // A value is read from its form in one way only, wherever it stands.
  lemma {:induction false} Reads(a: Json, b: Json, s: string, t: string)
    requires Writable(a) && Writable(b) && Stops(s) && Stops(t)
    requires Form(a) + s == Form(b) + t
    ensures a == b && s == t
    decreases a, 1
  {
    Head(a, s);
    Head(b, t);
    match a {
      case Int(m) => IntReads(m, b.n, s, t);
      case Str(x) => QuotedReads(x, b.text, s, t);
      case Arr(_) => ArrReads(a, b, s, t);
      case Obj(_) => ObjReads(a, b, s, t);
      case Null => Cancel("null", s, t);
      case Bool(flag) => Cancel(if flag then "true" else "false", s, t);
      case Fraction(_) =>
    }
  }

  lemma {:induction false} ArrReads(a: Json, b: Json, s: string, t: string)
    requires Writable(a) && Writable(b) && a.Arr? && b.Arr?
    requires Form(a) + s == Form(b) + t
    ensures a == b && s == t
    decreases a, 0, |a.items| + 1
  {
    assert Form(a) + s == "[" + (FormItems(a, 0) + s) && Form(b) + t == "[" + (FormItems(b, 0) + t);
    Cancel("[", FormItems(a, 0) + s, FormItems(b, 0) + t);
    ItemsRead(a, b, 0, s, t);
  }

  lemma FormItemsStops(v: Json, i: nat, s: string)
    requires Writable(v) && v.Arr? && 0 < i <= |v.items|
    ensures Stops(FormItems(v, i) + s)
  {
  }

  lemma FormItemsStep(v: Json, i: nat, s: string)
    requires Writable(v) && v.Arr? && i < |v.items|
    ensures FormItems(v, i) + s == Comma(i) + (Form(v.items[i]) + (FormItems(v, i + 1) + s))
  {
  }

  // A list that ends differs at once from one that goes on.
  lemma ItemsEnd(a: Json, b: Json, i: nat, s: string, t: string)
    requires Writable(a) && Writable(b) && a.Arr? && b.Arr? && i <= |a.items| && i <= |b.items|
    requires FormItems(a, i) + s == FormItems(b, i) + t
    ensures i == |a.items| <==> i == |b.items|
  {
    var x, y := FormItems(a, i) + s, FormItems(b, i) + t;
    assert x[0] == y[0];
    if i < |a.items| {
      FormItemsStep(a, i, s);
      Head(a.items[i], FormItems(a, i + 1) + s);
    }
    if i < |b.items| {
      FormItemsStep(b, i, t);
      Head(b.items[i], FormItems(b, i + 1) + t);
    }
  }

  lemma {:induction false} ItemsRead(a: Json, b: Json, i: nat, s: string, t: string)
    requires Writable(a) && Writable(b) && a.Arr? && b.Arr?
    requires i <= |a.items| && i <= |b.items| && a.items[..i] == b.items[..i]
    requires FormItems(a, i) + s == FormItems(b, i) + t
    ensures a == b && s == t
    decreases a, 0, |a.items| - i
  {
    ItemsEnd(a, b, i, s, t);
    if i == |a.items| {
      assert a.items == a.items[..i] && b.items == b.items[..i];
      Cancel("]", s, t);
    } else {
      FormItemsStep(a, i, s);
      FormItemsStep(b, i, t);
      var u, v := FormItems(a, i + 1) + s, FormItems(b, i + 1) + t;
      Cancel(Comma(i), Form(a.items[i]) + u, Form(b.items[i]) + v);
      FormItemsStops(a, i + 1, s);
      FormItemsStops(b, i + 1, t);
      Reads(a.items[i], b.items[i], u, v);
      assert a.items[..i + 1] == a.items[..i] + [a.items[i]] && b.items[..i + 1] == b.items[..i] + [b.items[i]];
      ItemsRead(a, b, i + 1, s, t);
    }
  }

  lemma FormObj(v: Json, s: string)
    requires Writable(v) && v.Obj?
    ensures Names(v, KeyList(v.members.Keys))
    ensures Form(v) + s == "{" + (FormMembers(v, KeyList(v.members.Keys), 0) + s)
  {
    KeyListHolds(v.members.Keys);
  }

  // An object says itself where it ends: what follows it may be anything.
  lemma {:induction false} ObjReads(a: Json, b: Json, s: string, t: string)
    requires Writable(a) && Writable(b) && a.Obj? && b.Obj?
    requires Form(a) + s == Form(b) + t
    ensures a == b && s == t
    decreases a, 0, |KeyList(a.members.Keys)| + 1
  {
    var ka, kb := KeyList(a.members.Keys), KeyList(b.members.Keys);
    FormObj(a, s);
    FormObj(b, t);
    Cancel("{", FormMembers(a, ka, 0) + s, FormMembers(b, kb, 0) + t);
    MembersRead(a, b, ka, kb, 0, s, t);
    KeyListHolds(a.members.Keys);
    KeyListHolds(b.members.Keys);
    SameObjects(a, b, ka);
  }

  lemma SameObjects(a: Json, b: Json, ks: seq<string>)
    requires a.Obj? && b.Obj? && Names(a, ks) && Names(b, ks) && SameMembers(a, b, ks)
    requires forall k :: k in ks <==> k in a.members.Keys
    requires forall k :: k in ks <==> k in b.members.Keys
    ensures a == b
  {
    forall k | k in a.members ensures a.members[k] == b.members[k] {
      assert k in ks;
    }
    assert a.members == b.members;
  }

  lemma FormMembersStep(v: Json, ks: seq<string>, i: nat, s: string)
    requires Writable(v) && Names(v, ks) && i < |ks|
    ensures FormMembers(v, ks, i) + s ==
      Comma(i) + (Quoted(ks[i]) + (":" + (Form(v.members[ks[i]]) + (FormMembers(v, ks, i + 1) + s))))
  {
  }

  lemma FormMembersStops(v: Json, ks: seq<string>, i: nat, s: string)
    requires Writable(v) && Names(v, ks) && 0 < i <= |ks|
    ensures Stops(FormMembers(v, ks, i) + s)
  {
  }

  lemma MembersEnd(a: Json, b: Json, ka: seq<string>, kb: seq<string>, i: nat, s: string, t: string)
    requires Writable(a) && Writable(b) && Names(a, ka) && Names(b, kb) && i <= |ka| && i <= |kb|
    requires FormMembers(a, ka, i) + s == FormMembers(b, kb, i) + t
    ensures i == |ka| <==> i == |kb|
  {
    var x, y := FormMembers(a, ka, i) + s, FormMembers(b, kb, i) + t;
    assert x[0] == y[0];
    if i < |ka| {
      FormMembersStep(a, ka, i, s);
    }
    if i < |kb| {
      FormMembersStep(b, kb, i, t);
    }
  }

  ghost predicate SameMembers(a: Json, b: Json, ks: seq<string>)
    requires Names(a, ks) && Names(b, ks)
  {
    forall i :: 0 <= i < |ks| ==> a.members[ks[i]] == b.members[ks[i]]
  }

  ghost predicate Alike(a: Json, b: Json, ka: seq<string>, kb: seq<string>, i: nat)
    requires Names(a, ka) && Names(b, kb)
  {
    && i <= |ka| && i <= |kb|
    && forall j :: 0 <= j < i ==> ka[j] == kb[j] && a.members[ka[j]] == b.members[kb[j]]
  }

  lemma AlikeMore(a: Json, b: Json, ka: seq<string>, kb: seq<string>, i: nat, next: nat)
    requires Names(a, ka) && Names(b, kb) && Alike(a, b, ka, kb, i) && i < |ka| && i < |kb| && next == i + 1
    requires ka[i] == kb[i] && a.members[ka[i]] == b.members[kb[i]]
    ensures Alike(a, b, ka, kb, next)
  {
  }

  lemma AlikeAll(a: Json, b: Json, ka: seq<string>, kb: seq<string>)
    requires Names(a, ka) && Names(b, kb) && |ka| == |kb| && Alike(a, b, ka, kb, |ka|)
    ensures ka == kb && SameMembers(a, b, ka)
  {
  }

  lemma {:induction false} MembersRead(a: Json, b: Json, ka: seq<string>, kb: seq<string>, i: nat, s: string, t: string)
    requires Writable(a) && Writable(b) && Names(a, ka) && Names(b, kb)
    requires Alike(a, b, ka, kb, i)
    requires FormMembers(a, ka, i) + s == FormMembers(b, kb, i) + t
    ensures ka == kb && SameMembers(a, b, ka) && s == t
    decreases a, 0, |ka| - i
  {
    MembersEnd(a, b, ka, kb, i, s, t);
    if i == |ka| {
      AlikeAll(a, b, ka, kb);
      Cancel("}", s, t);
    } else {
      var next := i + 1;
      var u, v := FormMembers(a, ka, next) + s, FormMembers(b, kb, next) + t;
      MemberReads(a, b, ka, kb, i, s, t);
      FormMembersStops(a, ka, next, s);
      FormMembersStops(b, kb, next, t);
      Reads(a.members[ka[i]], b.members[kb[i]], u, v);
      AlikeMore(a, b, ka, kb, i, next);
      MembersRead(a, b, ka, kb, next, s, t);
    }
  }

  // Two members that read alike have one name, and what is left is their values.
  lemma MemberReads(a: Json, b: Json, ka: seq<string>, kb: seq<string>, i: nat, s: string, t: string)
    requires Writable(a) && Writable(b) && Names(a, ka) && Names(b, kb) && i < |ka| && i < |kb|
    requires FormMembers(a, ka, i) + s == FormMembers(b, kb, i) + t
    ensures ka[i] == kb[i]
    ensures Form(a.members[ka[i]]) + (FormMembers(a, ka, i + 1) + s) ==
            Form(b.members[kb[i]]) + (FormMembers(b, kb, i + 1) + t)
  {
    FormMembersStep(a, ka, i, s);
    FormMembersStep(b, kb, i, t);
    var p := Form(a.members[ka[i]]) + (FormMembers(a, ka, i + 1) + s);
    var q := Form(b.members[kb[i]]) + (FormMembers(b, kb, i + 1) + t);
    Cancel(Comma(i), Quoted(ka[i]) + (":" + p), Quoted(kb[i]) + (":" + q));
    QuotedReads(ka[i], kb[i], ":" + p, ":" + q);
    Cancel(":", p, q);
  }

  lemma {:induction false} MembersEndInBrace(v: Json, ks: seq<string>, i: nat)
    requires Writable(v) && Names(v, ks) && i <= |ks|
    ensures var f := FormMembers(v, ks, i); f != "" && f[|f| - 1] == '}'
    decreases |ks| - i
  {
    if i < |ks| {
      MembersEndInBrace(v, ks, i + 1);
    }
  }

  lemma ObjectEndsInBrace(v: Json)
    requires Writable(v) && v.Obj?
    ensures var f := Form(v); f != "" && f[|f| - 1] == '}'
  {
    KeyListHolds(v.members.Keys);
    MembersEndInBrace(v, KeyList(v.members.Keys), 0);
  }

  // Different values have different canonical bytes.
  lemma BytesInjective(a: Json, b: Json)
    requires Writable(a) && Writable(b)
    ensures Bytes(a) == Bytes(b) <==> a == b
  {
    if Bytes(a) == Bytes(b) {
      Utf8.DecodeEncode(Form(a));
      Utf8.DecodeEncode(Form(b));
      assert Form(a) + "" == Form(b) + "";
      Reads(a, b, "", "");
    }
  }
}
