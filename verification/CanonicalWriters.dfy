/**
 The two writers of the canonical form: the Rust one appends UTF-8 to one string and
 takes members in byte order; the Python one appends pieces of text to a list, takes
 members in code-point order, and encodes at the end. Both write the same bytes.
 */
module CanonicalWriters {
  import opened Wrappers
  import opened Text
  import opened Sorting
  import opened Canonical
  import Utf8

  // ----- member order -----

  predicate ByteLess(a: string, b: string) {
    Utf8.LexLess(Utf8.Encode(a), Utf8.Encode(b))
  }

  lemma ByteOrderIsCodeOrder()
    ensures forall a, b :: ByteLess(a, b) <==> Utf8.LexLess(a, b)
  {
    forall a, b ensures ByteLess(a, b) <==> Utf8.LexLess(a, b) {
      Utf8.OrderPreserved(a, b);
    }
  }

  method SortKeys(keys: set<string>, less: (string, string) -> bool) returns (ks: seq<string>)
    requires IsTotal(less)
    ensures Ascending(ks, less) && forall k :: k in ks <==> k in keys
  {
    ks := [];
    var todo := keys;
    while todo != {}
      invariant todo <= keys && Ascending(ks, less) && forall k :: k in ks <==> k in keys - todo
      decreases todo
    {
      var k :| k in todo;
      InsertAscending(ks, k, less);
      InsertHolds(ks, k, less);
      ks := Insert(ks, k, less);
      todo := todo - {k};
    }
  }

  lemma IsKeyList(ks: seq<string>, keys: set<string>)
    requires Ascending(ks, Utf8.LexLess) && forall k :: k in ks <==> k in keys
    ensures ks == KeyList(keys)
  {
    KeyListHolds(keys);
    LexIsTotal();
    AscendingUnique(ks, KeyList(keys), Utf8.LexLess);
  }

  method KeysByBytes(keys: set<string>) returns (ks: seq<string>)
    ensures ks == KeyList(keys)
  {
    ByteOrderIsCodeOrder();
    LexIsTotal();
    ks := SortKeys(keys, ByteLess);
    IsKeyList(ks, keys);
  }

  method KeysByCodePoints(keys: set<string>) returns (ks: seq<string>)
    ensures ks == KeyList(keys)
  {
    LexIsTotal();
    ks := SortKeys(keys, Utf8.LexLess);
    IsKeyList(ks, keys);
  }

  // ----- the Rust writer -----

  // Written so far, and what is still to be written, make up the whole.
  predicate Writes(before: string, now: string, rest: string, total: string) {
    now + Utf8.Encode(rest) == before + Utf8.Encode(total)
  }

  lemma WritesMore(before: string, now: string, piece: string, rest: string, total: string)
    requires Writes(before, now, piece + rest, total)
    ensures Writes(before, now + Utf8.Encode(piece), rest, total)
  {
    Utf8.EncodeConcat(piece, rest);
    Assoc(now, Utf8.Encode(piece), Utf8.Encode(rest));
  }

  // The values under the first i names have a form.
  predicate WritableUpTo(v: Json, ks: seq<string>, i: nat) {
    && v.Obj? && i <= |ks|
    && forall j :: 0 <= j < i ==> ks[j] in v.members && Writable(v.members[ks[j]])
  }

  class Utf8String {
    var out: string

    constructor ()
      ensures out == ""
    {
      out := "";
    }

    method Push(c: char)
      modifies this
      ensures out == old(out) + Utf8.Encode([c])
    {
      out := out + Utf8.EncodeChar(c);
    }

    method PushStr(s: string)
      modifies this
      ensures out == old(out) + Utf8.Encode(s)
    {
      out := out + Utf8.Encode(s);
    }

    method WriteChar(c: char)
      modifies this
      ensures out == old(out) + Utf8.Encode(Escaped(c))
    {
      match c {
        case '"' => PushStr("\\\"");
        case '\\' => PushStr("\\\\");
        case '\U{0008}' => PushStr("\\b");
        case '\U{000c}' => PushStr("\\f");
        case '\n' => PushStr("\\n");
        case '\r' => PushStr("\\r");
        case '\t' => PushStr("\\t");
        case _ =>
          if c as int < 0x20 {
            PushStr("\\u" + Hex4(c as int));
          } else {
            Push(c);
          }
      }
    }

    method WriteString(s: string)
      modifies this
      ensures out == old(out) + Utf8.Encode(Quoted(s))
    {
      ghost var total := Quoted(s);
      assert "\"" + (EscapedAll(s) + "\"") == total;
      WritesMore(old(out), out, "\"", EscapedAll(s) + "\"", total);
      Push('"');
      var i := 0;
      while i < |s|
        invariant i <= |s| && Writes(old(out), out, EscapedAll(s[i..]) + "\"", total)
      {
        NextEscape(s, i);
        WritesMore(old(out), out, Escaped(s[i]), EscapedAll(s[i + 1..]) + "\"", total);
        WriteChar(s[i]);
        i := i + 1;
      }
      assert EscapedAll(s[i..]) + "\"" == "\"" + "";
      WritesMore(old(out), out, "\"", "", total);
      Push('"');
    }

    // True when the value has a canonical form, which is then appended.
    method WriteValue(v: Json) returns (ok: bool)
      modifies this
      ensures ok == Writable(v)
      ensures ok ==> out == old(out) + Utf8.Encode(Form(v))
      decreases v, 1
    {
      ok := true;
      match v {
        case Null => PushStr("null");
        case Bool(flag) => PushStr(if flag then "true" else "false");
        case Int(n) =>
          if INT_MIN <= n <= INT_MAX {
            PushStr(IntText(n));
          } else {
            ok := false;
          }
        case Fraction(_) => ok := false;
        case Str(s) => WriteString(s);
        case Arr(_) => ok := WriteItems(v);
        case Obj(_) => ok := WriteMembers(v);
      }
    }

    method WriteItems(v: Json) returns (ok: bool)
      requires v.Arr?
      modifies this
      ensures ok == Writable(v)
      ensures ok ==> out == old(out) + Utf8.Encode(Form(v))
      decreases v, 0
    {
      ghost var before := out;
      if Writable(v) {
        WritesMore(before, out, "[", FormItems(v, 0), Form(v));
      }
      Push('[');
      var i := 0;
      while i < |v.items|
        invariant i <= |v.items| && forall j :: 0 <= j < i ==> Writable(v.items[j])
        invariant Writable(v) ==> Writes(before, out, FormItems(v, i), Form(v))
      {
        if Writable(v) {
          ItemWritten(before, out, v, i);
        }
        PushStr(Comma(i));
        ok := WriteValue(v.items[i]);
        if !ok {
          return;
        }
        i := i + 1;
      }
      WritesMore(before, out, "]", "", Form(v));
      Push(']');
      ok := true;
    }

    method WriteMembers(v: Json) returns (ok: bool)
      requires v.Obj?
      modifies this
      ensures ok == Writable(v)
      ensures ok ==> out == old(out) + Utf8.Encode(Form(v))
      decreases v, 0, 2
    {
      ghost var before := out;
      var ks := KeysByBytes(v.members.Keys);
      KeyListHolds(v.members.Keys);
      if Writable(v) {
        WritesMore(before, out, "{", FormMembers(v, ks, 0), Form(v));
      }
      Push('{');
      ok := WriteEach(v, ks, before);
      if !ok {
        return;
      }
      AllWritable(v, ks);
      WritesMore(before, out, "}", "", Form(v));
      Push('}');
    }

    // The members one after the other, up to the closing brace.
    method WriteEach(v: Json, ks: seq<string>, ghost before: string) returns (ok: bool)
      requires Names(v, ks) && (Writable(v) ==> Writes(before, out, FormMembers(v, ks, 0), Form(v)))
      modifies this
      ensures if ok then WritableUpTo(v, ks, |ks|) else !Writable(v)
      ensures ok && Writable(v) ==> Writes(before, out, "}", Form(v))
      decreases v, 0, 1
    {
      var i := 0;
      while i < |ks|
        invariant WritableUpTo(v, ks, i)
        invariant Writable(v) ==> Writes(before, out, FormMembers(v, ks, i), Form(v))
      {
        ok := WriteMember(v, ks, i, before);
        if !ok {
          return;
        }
        i := i + 1;
      }
      ok := true;
    }

    // Member i, with what goes before and after its name.
    method WriteMember(v: Json, ks: seq<string>, i: nat, ghost before: string) returns (ok: bool)
      requires Names(v, ks) && i < |ks| && (Writable(v) ==> Writes(before, out, FormMembers(v, ks, i), Form(v)))
      modifies this
      ensures ok == Writable(v.members[ks[i]])
      ensures ok && Writable(v) ==> Writes(before, out, FormMembers(v, ks, i + 1), Form(v))
      decreases v, 0, 0
    {
      if Writable(v) {
        MemberWritten(before, out, v, ks, i);
      }
      PushStr(Comma(i));
      WriteString(ks[i]);
      Push(':');
      ok := WriteValue(v.members[ks[i]]);
    }
  }

  // What is left of a string from one character on.
  lemma NextEscape(s: string, i: nat)
    requires i < |s|
    ensures EscapedAll(s[i..]) + "\"" == Escaped(s[i]) + (EscapedAll(s[i + 1..]) + "\"")
  {
    assert s[i..][1..] == s[i + 1..];
    Assoc(Escaped(s[i]), EscapedAll(s[i + 1..]), "\"");
  }

  lemma AllWritable(v: Json, ks: seq<string>)
    requires v.Obj? && (forall k :: k in ks <==> k in v.members.Keys)
    requires WritableUpTo(v, ks, |ks|)
    ensures Writable(v)
  {
    forall k | k in v.members ensures Writable(v.members[k]) {
      assert k in ks;
    }
  }

  lemma ItemWritten(before: string, now: string, v: Json, i: nat)
    requires Writable(v) && v.Arr? && i < |v.items| && Writes(before, now, FormItems(v, i), Form(v))
    ensures Writes(before, now + Utf8.Encode(Comma(i)) + Utf8.Encode(Form(v.items[i])), FormItems(v, i + 1), Form(v))
  {
    var rest := FormItems(v, i + 1);
    assert FormItems(v, i) == Comma(i) + (Form(v.items[i]) + rest);
    WritesMore(before, now, Comma(i), Form(v.items[i]) + rest, Form(v));
    WritesMore(before, now + Utf8.Encode(Comma(i)), Form(v.items[i]), rest, Form(v));
  }

  // Three pieces in a row.
  lemma WritesThree(before: string, now: string, a: string, b: string, c: string, rest: string, total: string)
    requires Writes(before, now, a + (b + (c + rest)), total)
    ensures Writes(before, now + Utf8.Encode(a) + Utf8.Encode(b) + Utf8.Encode(c), rest, total)
  {
    WritesMore(before, now, a, b + (c + rest), total);
    WritesMore(before, now + Utf8.Encode(a), b, c + rest, total);
    WritesMore(before, now + Utf8.Encode(a) + Utf8.Encode(b), c, rest, total);
  }

  lemma MemberForm(v: Json, ks: seq<string>, i: nat)
    requires Writable(v) && Names(v, ks) && i < |ks|
    ensures FormMembers(v, ks, i) ==
      Comma(i) + (Quoted(ks[i]) + (":" + (Form(v.members[ks[i]]) + FormMembers(v, ks, i + 1))))
  {
    FiveInARow(Comma(i), Quoted(ks[i]), ":", Form(v.members[ks[i]]), FormMembers(v, ks, i + 1));
  }

  lemma FiveInARow(a: string, b: string, c: string, d: string, e: string)
    ensures a + b + c + d + e == a + (b + (c + (d + e)))
  {
    Assoc(a + b + c, d, e);
    Assoc(a + b, c, d + e);
    Assoc(a, b, c + (d + e));
  }

  lemma MemberWritten(before: string, now: string, v: Json, ks: seq<string>, i: nat)
    requires Writable(v) && Names(v, ks) && i < |ks| && Writes(before, now, FormMembers(v, ks, i), Form(v))
    ensures Writes(before,
                   now + Utf8.Encode(Comma(i)) + Utf8.Encode(Quoted(ks[i])) + Utf8.Encode(":")
                   + Utf8.Encode(Form(v.members[ks[i]])),
                   FormMembers(v, ks, i + 1), Form(v))
  {
    var k, value, rest := Quoted(ks[i]), Form(v.members[ks[i]]), FormMembers(v, ks, i + 1);
    MemberForm(v, ks, i);
    WritesThree(before, now, Comma(i), k, ":", value + rest, Form(v));
    WritesMore(before, now + Utf8.Encode(Comma(i)) + Utf8.Encode(k) + Utf8.Encode(":"), value, rest, Form(v));
  }

  // `canonical_json_bytes`.
  method RustBytes(v: Json) returns (r: Option<string>)
    ensures r == if Writable(v) then Some(Bytes(v)) else None
  {
    var w := new Utf8String();
    var ok := w.WriteValue(v);
    if ok {
      assert "" + Bytes(v) == Bytes(v);
      return Some(w.out);
    }
    return None;
  }

  // ----- the Python writer -----

  const SHORT_ESCAPES: map<char, string> := map[
    '"' := "\\\"", '\\' := "\\\\", '\U{0008}' := "\\b", '\U{000c}' := "\\f", '\n' := "\\n",
    '\r' := "\\r", '\t' := "\\t"]

  // `"".join(out)`.
  function Flat(pieces: seq<string>): string {
    if pieces == [] then "" else Flat(pieces[..|pieces| - 1]) + pieces[|pieces| - 1]
  }

  lemma FlatMore(pieces: seq<string>, piece: string)
    ensures Flat(pieces + [piece]) == Flat(pieces) + piece
  {
    assert (pieces + [piece])[..|pieces|] == pieces;
  }

  // Joined so far, and what is still to be appended, make up the whole.
  predicate Joins(before: string, now: string, rest: string, total: string) {
    now + rest == before + total
  }

  lemma JoinsMore(before: string, now: string, piece: string, rest: string, total: string)
    requires Joins(before, now, piece + rest, total)
    ensures Joins(before, now + piece, rest, total)
  {
    assert now + (piece + rest) == now + piece + rest;
  }

  class Pieces {
    var out: seq<string>

    constructor ()
      ensures out == []
    {
      out := [];
    }

    function Joined(): string
      reads this
    {
      Flat(out)
    }

    method Append(piece: string)
      modifies this
      ensures Joined() == old(Joined()) + piece
    {
      FlatMore(out, piece);
      out := out + [piece];
    }

    method WriteString(text: string)
      modifies this
      ensures Joined() == old(Joined()) + Quoted(text)
    {
      ghost var before, total := Joined(), Quoted(text);
      assert total == "\"" + (EscapedAll(text) + "\"");
      JoinsMore(before, Joined(), "\"", EscapedAll(text) + "\"", total);
      Append("\"");
      var i := 0;
      while i < |text|
        invariant i <= |text| && Joins(before, Joined(), EscapedAll(text[i..]) + "\"", total)
      {
        var c := text[i];
        NextEscape(text, i);
        JoinsMore(before, Joined(), Escaped(c), EscapedAll(text[i + 1..]) + "\"", total);
        WriteChar(c);
        i := i + 1;
      }
      assert EscapedAll(text[i..]) + "\"" == "\"" + "";
      JoinsMore(before, Joined(), "\"", "", total);
      Append("\"");
    }

    method WriteChar(c: char)
      modifies this
      ensures Joined() == old(Joined()) + Escaped(c)
    {
      if c in SHORT_ESCAPES {
        Append(SHORT_ESCAPES[c]);
      } else if c as int < 0x20 {
        Append("\\u" + Hex4(c as int));
      } else {
        Append([c]);
      }
    }

    method Write(v: Json) returns (ok: bool)
      modifies this
      ensures ok == Writable(v)
      ensures ok ==> Joined() == old(Joined()) + Form(v)
      decreases v, 1
    {
      ok := true;
      if v.Null? {
        Append("null");
      } else if v == Bool(true) {
        Append("true");
      } else if v == Bool(false) {
        Append("false");
      } else if v.Int? {
        if !(INT_MIN <= v.n <= INT_MAX) {
          return false;
        }
        Append(IntText(v.n));
      } else if v.Fraction? {
        return false;
      } else if v.Str? {
        WriteString(v.text);
      } else if v.Arr? {
        ok := WriteList(v);
      } else {
        ok := WriteDict(v);
      }
    }

    method WriteList(v: Json) returns (ok: bool)
      requires v.Arr?
      modifies this
      ensures ok == Writable(v)
      ensures ok ==> Joined() == old(Joined()) + Form(v)
      decreases v, 0, 1
    {
      ghost var before := Joined();
      if Writable(v) {
        JoinsMore(before, Joined(), "[", FormItems(v, 0), Form(v));
      }
      Append("[");
      var i := 0;
      while i < |v.items|
        invariant i <= |v.items| && forall j :: 0 <= j < i ==> Writable(v.items[j])
        invariant Writable(v) ==> Joins(before, Joined(), FormItems(v, i), Form(v))
      {
        if Writable(v) {
          ItemJoined(before, Joined(), v, i);
        }
        ok := WriteItem(v, i);
        if !ok {
          return;
        }
        i := i + 1;
      }
      JoinsMore(before, Joined(), "]", "", Form(v));
      Append("]");
      ok := true;
    }

    method WriteItem(v: Json, i: nat) returns (ok: bool)
      requires v.Arr? && i < |v.items|
      modifies this
      ensures ok == Writable(v.items[i])
      ensures ok ==> Joined() == old(Joined()) + Comma(i) + Form(v.items[i])
      decreases v, 0, 0
    {
      if i > 0 {
        Append(",");
      }
      ok := Write(v.items[i]);
    }

    method WriteDict(v: Json) returns (ok: bool)
      requires v.Obj?
      modifies this
      ensures ok == Writable(v)
      ensures ok ==> Joined() == old(Joined()) + Form(v)
      decreases v, 0, 2
    {
      ghost var before := Joined();
      var ks := KeysByCodePoints(v.members.Keys);
      KeyListHolds(v.members.Keys);
      if Writable(v) {
        JoinsMore(before, Joined(), "{", FormMembers(v, ks, 0), Form(v));
      }
      Append("{");
      ok := WriteEach(v, ks, before);
      if !ok {
        return;
      }
      AllWritable(v, ks);
      JoinsMore(before, Joined(), "}", "", Form(v));
      Append("}");
    }

    method WriteEach(v: Json, ks: seq<string>, ghost before: string) returns (ok: bool)
      requires Names(v, ks) && (Writable(v) ==> Joins(before, Joined(), FormMembers(v, ks, 0), Form(v)))
      modifies this
      ensures if ok then WritableUpTo(v, ks, |ks|) else !Writable(v)
      ensures ok && Writable(v) ==> Joins(before, Joined(), "}", Form(v))
      decreases v, 0, 1
    {
      var i := 0;
      while i < |ks|
        invariant WritableUpTo(v, ks, i)
        invariant Writable(v) ==> Joins(before, Joined(), FormMembers(v, ks, i), Form(v))
      {
        ok := WriteMember(v, ks, i, before);
        if !ok {
          return;
        }
        i := i + 1;
      }
      ok := true;
    }

    method WriteMember(v: Json, ks: seq<string>, i: nat, ghost before: string) returns (ok: bool)
      requires Names(v, ks) && i < |ks| && (Writable(v) ==> Joins(before, Joined(), FormMembers(v, ks, i), Form(v)))
      modifies this
      ensures ok == Writable(v.members[ks[i]])
      ensures ok && Writable(v) ==> Joins(before, Joined(), FormMembers(v, ks, i + 1), Form(v))
      decreases v, 0, 0
    {
      if Writable(v) {
        MemberJoined(before, Joined(), v, ks, i);
      }
      ghost var now := Joined();
      if i > 0 {
        Append(",");
      }
      assert Joined() == now + Comma(i);
      WriteString(ks[i]);
      Append(":");
      ok := Write(v.members[ks[i]]);
    }
  }

  lemma ItemJoined(before: string, now: string, v: Json, i: nat)
    requires Writable(v) && v.Arr? && i < |v.items| && Joins(before, now, FormItems(v, i), Form(v))
    ensures Joins(before, now + Comma(i) + Form(v.items[i]), FormItems(v, i + 1), Form(v))
  {
    var rest := FormItems(v, i + 1);
    assert FormItems(v, i) == Comma(i) + (Form(v.items[i]) + rest);
    JoinsMore(before, now, Comma(i), Form(v.items[i]) + rest, Form(v));
    JoinsMore(before, now + Comma(i), Form(v.items[i]), rest, Form(v));
  }

  lemma JoinsThree(before: string, now: string, a: string, b: string, c: string, rest: string, total: string)
    requires Joins(before, now, a + (b + (c + rest)), total)
    ensures Joins(before, now + a + b + c, rest, total)
  {
    JoinsMore(before, now, a, b + (c + rest), total);
    JoinsMore(before, now + a, b, c + rest, total);
    JoinsMore(before, now + a + b, c, rest, total);
  }

  lemma MemberJoined(before: string, now: string, v: Json, ks: seq<string>, i: nat)
    requires Writable(v) && Names(v, ks) && i < |ks| && Joins(before, now, FormMembers(v, ks, i), Form(v))
    ensures Joins(before, now + Comma(i) + Quoted(ks[i]) + ":" + Form(v.members[ks[i]]), FormMembers(v, ks, i + 1),
                  Form(v))
  {
    var k, value, rest := Quoted(ks[i]), Form(v.members[ks[i]]), FormMembers(v, ks, i + 1);
    MemberForm(v, ks, i);
    JoinsThree(before, now, Comma(i), k, ":", value + rest, Form(v));
    JoinsMore(before, now + Comma(i) + k + ":", value, rest, Form(v));
  }

  // `canonical_bytes`.
  method PythonBytes(v: Json) returns (r: Option<string>)
    ensures r == if Writable(v) then Some(Bytes(v)) else None
  {
    var p := new Pieces();
    var ok := p.Write(v);
    if ok {
      assert "" + Form(v) == Form(v);
      return Some(Utf8.Encode(p.Joined()));
    }
    return None;
  }

  // The two implementations agree on every value, and on which values they refuse.
  method Agree(v: Json) returns (rust: Option<string>, python: Option<string>)
    ensures rust == python
    ensures rust.Some? <==> Writable(v)
  {
    rust := RustBytes(v);
    python := PythonBytes(v);
  }
}
