/**
 UTF-16 and the order of member names. Section 3.2.3 of RFC 8785 sorts names by UTF-16
 code units, the canonical form by code points; the two orders differ on some names.
 */
module Utf16 {
  import opened Sorting
  import Canonical
  import Utf8

  // The code units of a character (section 2.1 of RFC 2781).
  function Units(c: char): (u: seq<nat>)
    ensures |u| >= 1
  {
    var n := c as int;
    if n < 0x1_0000 then [n] else [0xD800 + (n - 0x1_0000) / 0x400, 0xDC00 + (n - 0x1_0000) % 0x400]
  }

  function Encode(s: string): seq<nat> {
    if s == "" then [] else Units(s[0]) + Encode(s[1..])
  }

  predicate UnitsLess(a: seq<nat>, b: seq<nat>) {
    b != [] && (a == [] || a[0] < b[0] || (a[0] == b[0] && UnitsLess(a[1..], b[1..])))
  }

  predicate Less(a: string, b: string) {
    UnitsLess(Encode(a), Encode(b))
  }

  // One character from U+E000 to U+FFFF, the other beyond U+FFFF: the second begins with a
  // surrogate, which is the smaller unit.
  predicate Swapped(c: char, d: char) {
    (0xE000 <= c as int < 0x1_0000 && d as int >= 0x1_0000) || (0xE000 <= d as int < 0x1_0000 && c as int >= 0x1_0000)
  }

  // The names first differ in two such characters.
  predicate Crossed(a: string, b: string) {
    a != "" && b != "" && if a[0] == b[0] then Crossed(a[1..], b[1..]) else Swapped(a[0], b[0])
  }

  lemma {:induction false} CommonPrefix(p: seq<nat>, a: seq<nat>, b: seq<nat>)
    ensures UnitsLess(p + a, p + b) <==> UnitsLess(a, b)
  {
    if p == [] {
      assert p + a == a && p + b == b;
    } else {
      assert (p + a)[1..] == p[1..] + a && (p + b)[1..] == p[1..] + b;
      CommonPrefix(p[1..], a, b);
    }
  }

  // Two different characters are ordered by their first different unit.
  lemma UnitsOrder(c: char, d: char, a: seq<nat>, b: seq<nat>)
    requires c != d
    ensures UnitsLess(Units(c) + a, Units(d) + b) <==> ((c < d) != Swapped(c, d))
  {
    var x, y := Units(c) + a, Units(d) + b;
    assert x[0] == Units(c)[0] && y[0] == Units(d)[0];
    if c as int >= 0x1_0000 && d as int >= 0x1_0000 {
      assert x[1] == Units(c)[1] && y[1] == Units(d)[1];
      assert x[1..][0] == x[1] && y[1..][0] == y[1];
      SurrogateOrder(c as int - 0x1_0000, d as int - 0x1_0000);
    }
  }

  lemma SurrogateOrder(m: nat, n: nat)
    requires m != n
    ensures m < n <==> m / 0x400 < n / 0x400 || (m / 0x400 == n / 0x400 && m % 0x400 < n % 0x400)
    ensures m / 0x400 == n / 0x400 ==> m % 0x400 != n % 0x400
  {
  }

  // The orders agree exactly on names that do not cross.
  lemma {:induction false} OrderExactly(a: string, b: string)
    ensures Less(a, b) <==> (Utf8.LexLess(a, b) != Crossed(a, b))
  {
    if a != "" && b != "" {
      if a[0] == b[0] {
        CommonPrefix(Units(a[0]), Encode(a[1..]), Encode(b[1..]));
        OrderExactly(a[1..], b[1..]);
      } else {
        UnitsOrder(a[0], b[0], Encode(a[1..]), Encode(b[1..]));
      }
    }
  }

  predicate InPlane(s: string) {
    forall i :: 0 <= i < |s| ==> s[i] as int < 0x1_0000
  }

  // Names within the basic plane never cross.
  lemma {:induction false} InPlaneAgrees(a: string, b: string)
    requires InPlane(a) && InPlane(b)
    ensures !Crossed(a, b)
  {
    if a != "" && b != "" && a[0] == b[0] {
      InPlaneAgrees(a[1..], b[1..]);
    }
  }

  ghost predicate NoneCross(keys: set<string>) {
    forall a, b :: a in keys && b in keys ==> !Crossed(a, b)
  }

  // The members of an object stand in the order of RFC 8785 exactly when no two names cross.
  lemma MembersAgree(keys: set<string>)
    ensures Ascending(Canonical.KeyList(keys), Less) <==> NoneCross(keys)
  {
    var ks := Canonical.KeyList(keys);
    Canonical.KeyListHolds(keys);
    forall a, b ensures Less(a, b) <==> (Utf8.LexLess(a, b) != Crossed(a, b)) {
      OrderExactly(a, b);
    }
    if NoneCross(keys) {
      forall i, j | 0 <= i < j < |ks| ensures Less(ks[i], ks[j]) {
        assert ks[i] in keys && ks[j] in keys;
      }
    }
    if Ascending(ks, Less) {
      forall a, b | a in keys && b in keys ensures !Crossed(a, b) {
        Uncrossed(ks, a, b);
      }
    }
  }

  lemma Uncrossed(ks: seq<string>, a: string, b: string)
    requires Ascending(ks, Less) && Ascending(ks, Utf8.LexLess) && a in ks && b in ks
    ensures !Crossed(a, b)
  {
    var i :| 0 <= i < |ks| && ks[i] == a;
    var j :| 0 <= j < |ks| && ks[j] == b;
    OrderExactly(a, b);
    OrderExactly(b, a);
    CrossedBack(a, b);
    if i == j {
      NotCrossedItself(a);
    }
  }

  lemma {:induction false} CrossedBack(a: string, b: string)
    ensures Crossed(a, b) <==> Crossed(b, a)
  {
    if a != "" && b != "" && a[0] == b[0] {
      CrossedBack(a[1..], b[1..]);
    }
  }

  lemma {:induction false} NotCrossedItself(a: string)
    ensures !Crossed(a, a)
  {
    if a != "" {
      NotCrossedItself(a[1..]);
    }
  }

  // Two names that do.
  lemma CrossingNames()
    ensures Crossed("\U{FF5E}", "\U{1F600}")
    ensures Utf8.LexLess("\U{FF5E}", "\U{1F600}") && Less("\U{1F600}", "\U{FF5E}")
  {
    OrderExactly("\U{1F600}", "\U{FF5E}");
  }
}
