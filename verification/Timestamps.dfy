/**
 Strict UTC timestamps, section 5.1 of RFC 3339: the civil calendar, the parser,
 and the agreement of numeric and textual order.
 */
module Timestamps {
  import opened Wrappers
  import opened Text
  import Utf8

  // ----- the calendar -----

  predicate IsLeap(y: int) {
    (y % 4 == 0 && y % 100 != 0) || y % 400 == 0
  }

  function DaysInMonth(y: int, m: int): int {
    if m in {1, 3, 5, 7, 8, 10, 12} then 31
    else if m in {4, 6, 9, 11} then 30
    else if m == 2 then (if IsLeap(y) then 29 else 28)
    else 0
  }

  datatype Date = Date(year: int, month: int, day: int) {

    predicate Valid() {
      1970 <= year && 1 <= month <= 12 && 1 <= day <= DaysInMonth(year, month)
    }
  }

  const EPOCH := Date(1970, 1, 1)

  // Rust's division truncates toward zero.
  function Truncated(a: int, b: int): int
    requires b > 0
  {
    if a >= 0 then a / b else -(-a / b)
  }

  function DaysFromCivil(date: Date): int {
    var y := if date.month <= 2 then date.year - 1 else date.year;
    var era := Truncated(if y >= 0 then y else y - 399, 400);
    var yoe := y - era * 400;
    var shifted := if date.month > 2 then date.month - 3 else date.month + 9;
    var doy := Truncated(153 * shifted + 2, 5) + date.day - 1;
    var doe := yoe * 365 + Truncated(yoe, 4) - Truncated(yoe, 100) + doy;
    era * 146097 + doe - 719468
  }

  // The day before, for a date after the epoch.
  function Yesterday(date: Date): Date {
    if date.day > 1 then date.(day := date.day - 1)
    else if date.month > 1 then Date(date.year, date.month - 1, DaysInMonth(date.year, date.month - 1))
    else Date(date.year - 1, 12, 31)
  }

  // Days counted one by one from the epoch.
  function DayCount(date: Date): nat
    requires date.Valid()
    decreases date.year, date.month, date.day
  {
    if date == EPOCH then 0 else 1 + DayCount(Yesterday(date))
  }

  // Days in all years before the March of year y.
  function YearDays(y: int): int {
    365 * y + y / 4 - y / 100 + y / 400
  }

  lemma EraSplit(y: int, era: int, yoe: int)
    requires y >= 0 && era == y / 400 && yoe == y % 400
    ensures era * 146097 + yoe * 365 + yoe / 4 - yoe / 100 == YearDays(y)
  {
    assert y == 400 * era + yoe;
    assert y / 4 == 100 * era + yoe / 4;
    assert y / 100 == 4 * era + yoe / 100;
  }

  lemma YearStep(y: int)
    ensures YearDays(y + 1) - YearDays(y) == if IsLeap(y + 1) then 366 else 365
  {
    assert (y + 1) / 4 - y / 4 == if (y + 1) % 4 == 0 then 1 else 0;
    assert (y + 1) / 100 - y / 100 == if (y + 1) % 100 == 0 then 1 else 0;
    assert (y + 1) / 400 - y / 400 == if (y + 1) % 400 == 0 then 1 else 0;
  }

  // Days from the first of March to the first of a month.
  function MonthOffset(m: int): int {
    (153 * (if m > 2 then m - 3 else m + 9) + 2) / 5
  }

  // The year that a month belongs to when years begin in March.
  function MarchYear(date: Date): int {
    if date.month <= 2 then date.year - 1 else date.year
  }

  // The formula without eras.
  lemma CivilFormula(date: Date)
    requires date.Valid()
    ensures DaysFromCivil(date) == YearDays(MarchYear(date)) + MonthOffset(date.month) + date.day - 1 - 719468
  {
    var y := MarchYear(date);
    EraSplit(y, y / 400, y % 400);
  }

  lemma MonthStep(y: int, m: int)
    requires 1 < m <= 12 && m != 3
    ensures MonthOffset(m) - MonthOffset(m - 1) == DaysInMonth(y, m - 1)
  {
  }

  lemma NextMonth(date: Date)
    requires date.Valid() && date.day == 1 && date.month > 1
    ensures Yesterday(date).Valid() && DaysFromCivil(date) == DaysFromCivil(Yesterday(date)) + 1
  {
    if date.month == 3 {
      NextMarch(date);
    } else {
      CivilFormula(date);
      CivilFormula(Yesterday(date));
      MonthStep(date.year, date.month);
    }
  }

  lemma NextMarch(date: Date)
    requires date.Valid() && date.day == 1 && date.month == 3
    ensures Yesterday(date).Valid() && DaysFromCivil(date) == DaysFromCivil(Yesterday(date)) + 1
  {
    LastOfFebruary(date.year);
    FirstOfMarch(date.year);
    YearStep(date.year - 1);
  }

  lemma FirstOfMarch(y: int)
    requires y >= 1970
    ensures DaysFromCivil(Date(y, 3, 1)) == YearDays(y) - 719468
  {
    CivilFormula(Date(y, 3, 1));
  }

  lemma LastOfFebruary(y: int)
    requires y >= 1970
    ensures var last := Date(y, 2, if IsLeap(y) then 29 else 28);
      Yesterday(Date(y, 3, 1)) == last && last.Valid()
      && DaysFromCivil(last) == YearDays(y - 1) + 337 + last.day - 1 - 719468
  {
    CivilFormula(Date(y, 2, if IsLeap(y) then 29 else 28));
  }

  lemma NextDay(date: Date)
    requires date.Valid() && date.day > 1
    ensures Yesterday(date).Valid() && DaysFromCivil(date) == DaysFromCivil(Yesterday(date)) + 1
  {
  }

  lemma NextYear(date: Date)
    requires date.Valid() && date.day == 1 && date.month == 1 && date != EPOCH
    ensures Yesterday(date).Valid() && DaysFromCivil(date) == DaysFromCivil(Yesterday(date)) + 1
  {
  }

  lemma CivilStep(date: Date)
    requires date.Valid() && date != EPOCH
    ensures Yesterday(date).Valid() && DaysFromCivil(date) == DaysFromCivil(Yesterday(date)) + 1
  {
    if date.day > 1 {
      NextDay(date);
    } else if date.month > 1 {
      NextMonth(date);
    } else {
      NextYear(date);
    }
  }

  // The closed formula counts the days, for every date from 1970 on.
  lemma {:induction false} CivilCounts(date: Date)
    requires date.Valid()
    ensures DaysFromCivil(date) == DayCount(date)
    decreases date.year, date.month, date.day
  {
    if date != EPOCH {
      CivilStep(date);
      CivilCounts(Yesterday(date));
    }
  }

  predicate Earlier(a: Date, b: Date) {
    a.year < b.year || (a.year == b.year && (a.month < b.month || (a.month == b.month && a.day < b.day)))
  }

  lemma YesterdayIsLast(a: Date, b: Date)
    requires a.Valid() && b.Valid() && Earlier(a, b)
    ensures b != EPOCH && (a == Yesterday(b) || Earlier(a, Yesterday(b)))
  {
  }

  lemma {:induction false} CountMonotone(a: Date, b: Date)
    requires a.Valid() && b.Valid() && Earlier(a, b)
    ensures DayCount(a) < DayCount(b)
    decreases b.year, b.month, b.day
  {
    YesterdayIsLast(a, b);
    CivilStep(b);
    if a != Yesterday(b) {
      CountMonotone(a, Yesterday(b));
    }
  }

  // ----- the parser -----

  datatype Fields = Fields(year: nat, month: nat, day: nat, hour: nat, minute: nat, second: nat) {

    function Day(): Date {
      Date(year, month, day)
    }

    predicate InRange() {
      && 1970 <= year <= 9999 && Day().Valid()
      && hour <= 23 && minute <= 59 && second <= 59
    }
  }

  datatype TimeError = BadShape | BadDigit | OutOfRange

  predicate Shape(s: string) {
    |s| == 20 && s[4] == '-' && s[7] == '-' && s[10] == 'T' && s[13] == ':' && s[16] == ':' && s[19] == 'Z'
  }

  function Number(s: string, from: nat, to: nat): Result<nat, TimeError>
    requires from <= to <= |s|
  {
    if AllDigits(s[from..to]) then Ok(NatValue(s[from..to])) else Err(BadDigit)
  }

  function ReadFields(s: string): Result<Fields, TimeError> {
    if !Shape(s) then Err(BadShape)
    else
      var year :- Number(s, 0, 4);
      var month :- Number(s, 5, 7);
      var day :- Number(s, 8, 10);
      var hour :- Number(s, 11, 13);
      var minute :- Number(s, 14, 16);
      var second :- Number(s, 17, 19);
      Ok(Fields(year, month, day, hour, minute, second))
  }

  function Seconds(f: Fields): int {
    DaysFromCivil(f.Day()) * 86400 + f.hour * 3600 + f.minute * 60 + f.second
  }

  // `parse_rfc3339_utc`.
  function ParseTime(s: string): Result<nat, TimeError> {
    var f :- ReadFields(s);
    if !f.InRange() then Err(OutOfRange)
    else
      CivilCounts(f.Day());
      Ok(Seconds(f))
  }

  // The second before, for one after the epoch.
  function SecondBefore(f: Fields): Fields
    requires f.InRange() && f != FIRST
  {
    if f.second > 0 then f.(second := f.second - 1)
    else if f.minute > 0 then f.(minute := f.minute - 1, second := 59)
    else if f.hour > 0 then f.(hour := f.hour - 1, minute := 59, second := 59)
    else
      CivilStep(f.Day());
      var d := Yesterday(f.Day());
      Fields(d.year, d.month, d.day, 23, 59, 59)
  }

  const FIRST := Fields(1970, 1, 1, 0, 0, 0)

  predicate Sooner(a: Fields, b: Fields) {
    || Earlier(a.Day(), b.Day())
    || (&& a.Day() == b.Day()
        && (a.hour < b.hour || (a.hour == b.hour &&
            (a.minute < b.minute || (a.minute == b.minute && a.second < b.second)))))
  }

  lemma SecondStep(f: Fields)
    requires f.InRange() && f != FIRST
    ensures SecondBefore(f).InRange() && Seconds(f) == Seconds(SecondBefore(f)) + 1 && Sooner(SecondBefore(f), f)
  {
    if f.second == 0 && f.minute == 0 && f.hour == 0 {
      CivilStep(f.Day());
      assert SecondBefore(f).Day() == Yesterday(f.Day());
    } else {
      assert SecondBefore(f).Day() == f.Day();
    }
  }

  // Seconds counted one by one from the first of 1970.
  function SecondCount(f: Fields): nat
    requires f.InRange()
    decreases f.year, f.month, f.day, f.hour, f.minute, f.second
  {
    if f == FIRST then 0
    else
      SecondStep(f);
      1 + SecondCount(SecondBefore(f))
  }

  lemma {:induction false} SecondsCount(f: Fields)
    requires f.InRange()
    ensures Seconds(f) == SecondCount(f)
    decreases f.year, f.month, f.day, f.hour, f.minute, f.second
  {
    if f == FIRST {
      FirstSecond();
    } else {
      var before := CountStep(f);
      SecondsCount(before);
    }
  }

  lemma FirstSecond()
    ensures Seconds(FIRST) == 0
  {
    assert FIRST.Day() == EPOCH && DaysFromCivil(EPOCH) == 0;
  }

  lemma CountStep(f: Fields) returns (before: Fields)
    requires f.InRange() && f != FIRST
    ensures before.InRange() && Sooner(before, f)
    ensures Seconds(f) == Seconds(before) + 1 && SecondCount(f) == 1 + SecondCount(before)
  {
    SecondStep(f);
    before := SecondBefore(f);
  }

  // The Rust parser looks at bytes; on the UTF-8 of a text it finds what it finds on the text.
  lemma ParsesBytes(s: string, v: nat)
    ensures ParseTime(Utf8.Encode(s)) == Ok(v) <==> ParseTime(s) == Ok(v)
  {
    if ParseTime(s) == Ok(v) {
      AcceptedAscii(s);
      AsciiEncoded(s);
    }
    if ParseTime(Utf8.Encode(s)) == Ok(v) {
      AcceptedAscii(Utf8.Encode(s));
      AsciiDecoded(s);
    }
  }

  predicate IsAscii(s: string) {
    forall i :: 0 <= i < |s| ==> s[i] as int < 0x80
  }

  lemma AcceptedAscii(s: string)
    requires ReadFields(s).Ok?
    ensures IsAscii(s)
  {
    forall i | 0 <= i < |s| ensures s[i] as int < 0x80 {
      if i < 4 {
        assert IsDigit(s[0..4][i]);
      } else if 5 <= i < 7 {
        assert IsDigit(s[5..7][i - 5]);
      } else if 8 <= i < 10 {
        assert IsDigit(s[8..10][i - 8]);
      } else if 11 <= i < 13 {
        assert IsDigit(s[11..13][i - 11]);
      } else if 14 <= i < 16 {
        assert IsDigit(s[14..16][i - 14]);
      } else if 17 <= i < 19 {
        assert IsDigit(s[17..19][i - 17]);
      }
    }
  }

  lemma {:induction false} AsciiEncoded(s: string)
    requires IsAscii(s)
    ensures Utf8.Encode(s) == s
  {
    if s != "" {
      AsciiEncoded(s[1..]);
      assert Utf8.EncodeChar(s[0]) == [s[0]];
      assert s == [s[0]] + s[1..];
    }
  }

  lemma {:induction false} AsciiDecoded(s: string)
    requires IsAscii(Utf8.Encode(s))
    ensures Utf8.Encode(s) == s
  {
    if s != "" {
      var first, tail := Utf8.EncodeChar(s[0]), Utf8.Encode(s[1..]);
      assert (first + tail)[0] == first[0];
      assert first == [s[0]];
      assert forall i :: 0 <= i < |tail| ==> tail[i] == (first + tail)[i + 1];
      AsciiDecoded(s[1..]);
      assert s == [s[0]] + s[1..];
    }
  }

  // ----- the reference implementation's parser -----

  // The zeros of the decimal digits of Unicode 14 outside ASCII; the other nine follow each.
  predicate IsForeignZero(n: int) {
    n == 0x660 || n == 0x6F0 || n == 0x7C0 || n == 0x966 || n == 0x9E6 || n == 0xA66 || n == 0xAE6 || n == 0xB66 ||
    n == 0xBE6 || n == 0xC66 || n == 0xCE6 || n == 0xD66 || n == 0xDE6 || n == 0xE50 || n == 0xED0 || n == 0xF20 ||
    n == 0x1040 || n == 0x1090 || n == 0x17E0 || n == 0x1810 || n == 0x1946 || n == 0x19D0 || n == 0x1A80 ||
    n == 0x1A90 || n == 0x1B50 || n == 0x1BB0 || n == 0x1C40 || n == 0x1C50 || n == 0xA620 || n == 0xA8D0 ||
    n == 0xA900 || n == 0xA9D0 || n == 0xA9F0 || n == 0xAA50 || n == 0xABF0 || n == 0xFF10 || n == 0x104A0 ||
    n == 0x10D30 || n == 0x11066 || n == 0x110F0 || n == 0x11136 || n == 0x111D0 || n == 0x112F0 || n == 0x11450 ||
    n == 0x114D0 || n == 0x11650 || n == 0x116C0 || n == 0x11730 || n == 0x118E0 || n == 0x11950 || n == 0x11C50 ||
    n == 0x11D50 || n == 0x11DA0 || n == 0x16A60 || n == 0x16AC0 || n == 0x16B50 || n == 0x1D7CE || n == 0x1D7D8 ||
    n == 0x1D7E2 || n == 0x1D7EC || n == 0x1D7F6 || n == 0x1E140 || n == 0x1E2F0 || n == 0x1E950 || n == 0x1FBF0
  }

  // What the pattern takes for a digit, and the value it is read with.
  function Digit(c: char): Option<nat> {
    var n := c as int;
    if n < 0x80 then (if IsDigit(c) then Some(n - '0' as int) else None)
    else if IsForeignZero(n) then Some(0)
    else if IsForeignZero(n - 1) then Some(1)
    else if IsForeignZero(n - 2) then Some(2)
    else if IsForeignZero(n - 3) then Some(3)
    else if IsForeignZero(n - 4) then Some(4)
    else if IsForeignZero(n - 5) then Some(5)
    else if IsForeignZero(n - 6) then Some(6)
    else if IsForeignZero(n - 7) then Some(7)
    else if IsForeignZero(n - 8) then Some(8)
    else if IsForeignZero(n - 9) then Some(9)
    else None
  }

  function Numeral(s: string): Option<nat> {
    if s == [] then Some(0)
    else
      var front, last := Numeral(s[..|s| - 1]), Digit(s[|s| - 1]);
      if front.Some? && last.Some? then Some(10 * front.value + last.value) else None
  }

  // The groups of the pattern, in order.
  function Groups(s: string): Option<Fields> {
    if !Shape(s) then None
    else
      var year, month, day := Numeral(s[0..4]), Numeral(s[5..7]), Numeral(s[8..10]);
      var hour, minute, second := Numeral(s[11..13]), Numeral(s[14..16]), Numeral(s[17..19]);
      if year.Some? && month.Some? && day.Some? && hour.Some? && minute.Some? && second.Some?
      then Some(Fields(year.value, month.value, day.value, hour.value, minute.value, second.value)) else None
  }

  // A date the Python calendar has, from year 1 on.
  predicate PythonAccepts(s: string) {
    && Groups(s).Some?
    && var f := Groups(s).value;
       && 1 <= f.year <= 9999 && 1 <= f.month <= 12 && 1 <= f.day <= DaysInMonth(f.year, f.month)
       && f.hour <= 23 && f.minute <= 59 && f.second <= 59
  }

  // On ASCII the two read the same numerals.
  lemma {:induction false} AsciiNumeral(s: string)
    requires IsAscii(s)
    ensures Numeral(s) == if AllDigits(s) then Some(NatValue(s)) else None
  {
    if s != "" {
      var front, last := s[..|s| - 1], s[|s| - 1];
      AsciiNumeral(front);
      assert Digit(last) == if IsDigit(last) then Some(last as int - '0' as int) else None;
      assert s == front + [last];
    }
  }

  lemma AsciiGroups(s: string)
    requires IsAscii(s)
    ensures Groups(s) == if ReadFields(s).Ok? then Some(ReadFields(s).value) else None
  {
    if Shape(s) {
      AsciiNumeral(s[0..4]);
      AsciiNumeral(s[5..7]);
      AsciiNumeral(s[8..10]);
      AsciiNumeral(s[11..13]);
      AsciiNumeral(s[14..16]);
      AsciiNumeral(s[17..19]);
    }
  }

  // The years from 1970 on, in ASCII digits.
  predicate PlainSince1970(s: string) {
    IsAscii(s) && (Groups(s).Some? ==> Groups(s).value.year >= 1970)
  }

  // The Rust parser accepts what the Python one does, from 1970 on and in ASCII digits.
  lemma AcceptedAlike(s: string)
    ensures ParseTime(s).Ok? <==> PythonAccepts(s) && PlainSince1970(s)
  {
    if ParseTime(s).Ok? {
      AcceptedAscii(s);
    }
    if IsAscii(s) {
      AsciiGroups(s);
    }
  }

  // What is accepted is read as the seconds that have passed, one by one, since 1970 began.
  lemma ParsesExactly(s: string, v: nat)
    ensures ParseTime(s) == Ok(v) <==>
      IsAscii(s) && Groups(s).Some? && Groups(s).value.InRange() && v == SecondCount(Groups(s).value)
  {
    if ReadFields(s).Ok? {
      AcceptedAscii(s);
    }
    if IsAscii(s) {
      AsciiGroups(s);
      if Groups(s).Some? && Groups(s).value.InRange() {
        SecondsCount(Groups(s).value);
      }
    }
  }

  const FULLWIDTH := "\U{FF12}\U{FF10}\U{FF12}\U{FF16}-07-01T00:00:00Z"

  lemma FullwidthDigits()
    ensures Digit('\U{FF10}') == Some(0) && Digit('\U{FF12}') == Some(2) && Digit('\U{FF16}') == Some(6)
  {
  }

  lemma FullwidthYear(s: string)
    requires s == FULLWIDTH
    ensures Numeral(s[0..4]) == Some(2026)
  {
    FullwidthDigits();
    var year := s[0..4];
    ShortNumeral(year[..2], 2, 0);
    assert year[..3][..2] == year[..2];
    assert Numeral(year[..3]) == Some(202);
  }

  lemma FullwidthRest(s: string)
    requires s == FULLWIDTH
    ensures Numeral(s[5..7]) == Some(7) && Numeral(s[8..10]) == Some(1)
    ensures Numeral(s[11..13]) == Some(0) && Numeral(s[14..16]) == Some(0) && Numeral(s[17..19]) == Some(0)
  {
    ShortNumeral(s[5..7], 0, 7);
    ShortNumeral(s[8..10], 0, 1);
    ShortNumeral(s[11..13], 0, 0);
    ShortNumeral(s[14..16], 0, 0);
    ShortNumeral(s[17..19], 0, 0);
  }

  lemma FullwidthNotAscii(s: string)
    requires s == FULLWIDTH
    ensures !IsAscii(s)
  {
    var first := '\U{FF12}';
    assert s[0] == first && first as int == 0xFF12;
  }

  lemma FullwidthShape(s: string)
    requires s == FULLWIDTH
    ensures Shape(s)
  {
  }

  lemma FullwidthRead(s: string)
    requires s == FULLWIDTH
    ensures PythonAccepts(s) && ParseTime(s).Err?
  {
    FullwidthShape(s);
    FullwidthYear(s);
    FullwidthRest(s);
    FullwidthNotAscii(s);
    assert Groups(s) == Some(Fields(2026, 7, 1, 0, 0, 0));
    AcceptedAlike(s);
  }

  // A timestamp with fullwidth digits is accepted by the Python parser alone.
  lemma FullwidthAccepted()
    ensures PythonAccepts(FULLWIDTH) && ParseTime(FULLWIDTH).Err?
  {
    FullwidthRead(FULLWIDTH);
  }

  lemma ShortNumeral(s: string, a: nat, b: nat)
    requires |s| == 2 && Digit(s[0]) == Some(a) && Digit(s[1]) == Some(b)
    ensures Numeral(s) == Some(10 * a + b)
  {
    assert s[..1][..0] == [];
    assert Numeral(s[..1]) == Some(a);
  }

  // ----- order -----

  predicate FieldsLess(a: Fields, b: Fields) {
    Earlier(a.Day(), b.Day()) ||
    (a.Day() == b.Day() &&
     (a.hour < b.hour ||
      (a.hour == b.hour && (a.minute < b.minute || (a.minute == b.minute && a.second < b.second)))))
  }

  lemma SecondsMonotone(a: Fields, b: Fields)
    requires a.InRange() && b.InRange() && FieldsLess(a, b)
    ensures Seconds(a) < Seconds(b)
  {
    CivilCounts(a.Day());
    CivilCounts(b.Day());
    if Earlier(a.Day(), b.Day()) {
      CountMonotone(a.Day(), b.Day());
    }
  }

  lemma {:induction false} LexPieces(a: string, b: string, x: string, y: string)
    requires |a| == |b|
    ensures Utf8.LexLess(a + x, b + y) <==> Utf8.LexLess(a, b) || (a == b && Utf8.LexLess(x, y))
  {
    if a == "" {
      assert a + x == x && b + y == y;
    } else {
      assert (a + x)[1..] == a[1..] + x && (b + y)[1..] == b[1..] + y;
      LexPieces(a[1..], b[1..], x, y);
      assert a == [a[0]] + a[1..] && b == [b[0]] + b[1..];
    }
  }

  // Numerals of one length are ordered as the numbers they stand for.
  lemma {:induction false} DigitOrder(a: string, b: string)
    requires |a| == |b| && AllDigits(a) && AllDigits(b)
    ensures Utf8.LexLess(a, b) <==> NatValue(a) < NatValue(b)
    ensures a == b <==> NatValue(a) == NatValue(b)
  {
    if a != "" {
      var n := |a| - 1;
      DigitOrder(a[..n], b[..n]);
      assert a == a[..n] + [a[n]] && b == b[..n] + [b[n]];
      LexPieces(a[..n], b[..n], [a[n]], [b[n]]);
      assert IsDigit(a[n]) && IsDigit(b[n]);
    }
  }

  // One numeric field, the separator after it, and the rest.
  lemma FieldOrder(a: string, b: string, sep: string, x: string, y: string)
    requires |a| == |b| && AllDigits(a) && AllDigits(b)
    ensures Utf8.LexLess(a + sep + x, b + sep + y) <==>
      NatValue(a) < NatValue(b) || (NatValue(a) == NatValue(b) && Utf8.LexLess(x, y))
  {
    assert a + sep + x == a + (sep + x) && b + sep + y == b + (sep + y);
    LexPieces(a, b, sep + x, sep + y);
    Utf8.LexCommonPrefix(sep, x, y);
    DigitOrder(a, b);
  }

  // Text order of the part from a field on, for two texts of the right shape.
  lemma TimeOrder(s: string, t: string)
    requires ReadFields(s).Ok? && ReadFields(t).Ok?
    ensures var a, b := ReadFields(s).value, ReadFields(t).value;
      Utf8.LexLess(s[11..], t[11..]) <==>
        a.hour < b.hour || (a.hour == b.hour && (a.minute < b.minute || (a.minute == b.minute && a.second < b.second)))
  {
    FieldOrder(s[17..19], t[17..19], "Z", "", "");
    assert s[17..] == s[17..19] + "Z" + "" && t[17..] == t[17..19] + "Z" + "";
    FieldOrder(s[14..16], t[14..16], ":", s[17..], t[17..]);
    assert s[14..] == s[14..16] + ":" + s[17..] && t[14..] == t[14..16] + ":" + t[17..];
    FieldOrder(s[11..13], t[11..13], ":", s[14..], t[14..]);
    assert s[11..] == s[11..13] + ":" + s[14..] && t[11..] == t[11..13] + ":" + t[14..];
  }

  lemma DayOrder(s: string, t: string)
    requires ReadFields(s).Ok? && ReadFields(t).Ok?
    ensures var a, b := ReadFields(s).value, ReadFields(t).value;
      Utf8.LexLess(s[8..], t[8..]) <==> a.day < b.day || (a.day == b.day && Utf8.LexLess(s[11..], t[11..]))
  {
    FieldOrder(s[8..10], t[8..10], "T", s[11..], t[11..]);
    assert s[8..] == s[8..10] + "T" + s[11..] && t[8..] == t[8..10] + "T" + t[11..];
  }

  lemma DateOrder(s: string, t: string)
    requires ReadFields(s).Ok? && ReadFields(t).Ok?
    ensures Utf8.LexLess(s, t) <==> FieldsLess(ReadFields(s).value, ReadFields(t).value)
  {
    TimeOrder(s, t);
    DayOrder(s, t);
    FieldOrder(s[5..7], t[5..7], "-", s[8..], t[8..]);
    assert s[5..] == s[5..7] + "-" + s[8..] && t[5..] == t[5..7] + "-" + t[8..];
    FieldOrder(s[0..4], t[0..4], "-", s[5..], t[5..]);
    assert s == s[0..4] + "-" + s[5..] && t == t[0..4] + "-" + t[5..];
  }

  lemma FieldsTotal(a: Fields, b: Fields)
    ensures a == b || FieldsLess(a, b) || FieldsLess(b, a)
  {
  }

  // Text order of accepted timestamps is the order of their instants.
  lemma OrderAgrees(s: string, t: string)
    requires ParseTime(s).Ok? && ParseTime(t).Ok?
    ensures Utf8.LexLess(s, t) <==> ParseTime(s).value < ParseTime(t).value
  {
    var a, b := ReadFields(s).value, ReadFields(t).value;
    DateOrder(s, t);
    FieldsTotal(a, b);
    if FieldsLess(a, b) {
      SecondsMonotone(a, b);
    } else if FieldsLess(b, a) {
      SecondsMonotone(b, a);
    }
  }

  // ----- the validity window -----

  // `notBefore` strictly before `expires`, on numbers and on text.
  predicate RustWindowRefused(notBefore: Option<string>, expires: Option<string>) {
    && notBefore.Some? && expires.Some?
    && ParseTime(notBefore.value).Ok? && ParseTime(expires.value).Ok?
    && ParseTime(notBefore.value).value >= ParseTime(expires.value).value
  }

  predicate PythonWindowRefused(notBefore: Option<string>, expires: Option<string>) {
    && notBefore.Some? && expires.Some?
    && PythonAccepts(notBefore.value) && PythonAccepts(expires.value)
    && !Utf8.LexLess(notBefore.value, expires.value)
  }

  predicate RustAcceptsWindow(notBefore: Option<string>, expires: Option<string>) {
    && (notBefore.Some? ==> ParseTime(notBefore.value).Ok?)
    && (expires.Some? ==> ParseTime(expires.value).Ok?)
    && !RustWindowRefused(notBefore, expires)
  }

  predicate PythonAcceptsWindow(notBefore: Option<string>, expires: Option<string>) {
    && (notBefore.Some? ==> PythonAccepts(notBefore.value))
    && (expires.Some? ==> PythonAccepts(expires.value))
    && !PythonWindowRefused(notBefore, expires)
  }

  // The Rust validator accepts the windows the Python one does whose timestamps are from 1970
  // on and in ASCII digits.
  lemma WindowsAgree(notBefore: Option<string>, expires: Option<string>)
    ensures RustAcceptsWindow(notBefore, expires) <==>
      && PythonAcceptsWindow(notBefore, expires)
      && (notBefore.Some? ==> PlainSince1970(notBefore.value))
      && (expires.Some? ==> PlainSince1970(expires.value))
  {
    if notBefore.Some? {
      AcceptedAlike(notBefore.value);
    }
    if expires.Some? {
      AcceptedAlike(expires.value);
    }
    if notBefore.Some? && expires.Some? && ParseTime(notBefore.value).Ok? && ParseTime(expires.value).Ok? {
      OrderAgrees(notBefore.value, expires.value);
    }
  }
}
