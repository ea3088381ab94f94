// The UTC formatter of src/debug_log.rs against the proleptic Gregorian calendar
// (RFC 3339, sections 5.6 and 5.7 and Appendix C).
module UtcClock {
  import opened Ordering
  import opened Wrappers

  const U32_LIMIT: nat := 0x1_0000_0000
  const U64_LIMIT: nat := 0x1_0000_0000_0000_0000

  datatype Stamp = Stamp(year: nat, month: nat, day: nat, hour: nat, minute: nat, second: nat)

  // `YearOverflow`: the 32-bit year counter would have to pass its maximum.
  datatype Outcome = Text(text: string) | YearOverflow

  predicate IsLeap(year: nat) {
    (year % 4 == 0 && year % 100 != 0) || year % 400 == 0
  }

  // ---------- the calendar, independently of the loops ----------

  // Days from 0001-01-01 to the first day of `year`: 365 a year and one for each leap year passed.
  function DaysBeforeYear(year: nat): int
    requires year > 0
  {
    var y := year - 1;
    365 * y + y / 4 - y / 100 + y / 400
  }

  function MonthLength(year: nat, month: nat): nat
    requires 1 <= month <= 12
  {
    if month == 2 then (if IsLeap(year) then 29 else 28)
    else if month in {4, 6, 9, 11} then 30 else 31
  }

  function DaysBeforeMonth(year: nat, month: nat): nat
    requires 1 <= month <= 13
  {
    if month == 1 then 0 else DaysBeforeMonth(year, month - 1) + MonthLength(year, month - 1)
  }

  predicate InRange(s: Stamp) {
    && 1970 <= s.year && 1 <= s.month <= 12 && 1 <= s.day <= MonthLength(s.year, s.month)
    && s.hour < 24 && s.minute < 60 && s.second < 60
  }

  // Whole days from the Unix epoch to the date.
  function DayNumber(s: Stamp): int
    requires InRange(s)
  {
    DaysBeforeYear(s.year) - DaysBeforeYear(1970) + DaysBeforeMonth(s.year, s.month) + s.day - 1
  }

  // Seconds from the Unix epoch to the instant.
  function UnixSeconds(s: Stamp): int
    requires InRange(s)
  {
    86400 * DayNumber(s) + 3600 * s.hour + 60 * s.minute + s.second
  }

  function SecondsBeforeYear(year: nat): int
    requires year > 0
  {
    86400 * (DaysBeforeYear(year) - DaysBeforeYear(1970))
  }

  function YearLength(year: nat): nat {
    if IsLeap(year) then 366 else 365
  }

  lemma CenturiesAreMultiples(year: nat)
    ensures year % 100 == 0 ==> year % 4 == 0
    ensures year % 400 == 0 ==> year % 100 == 0
  {
    if year % 100 == 0 { DivUnique(year, 4, 25 * (year / 100), 0); }
    if year % 400 == 0 { DivUnique(year, 100, 4 * (year / 400), 0); }
  }

  // Leap years passed after one more year: multiples of 4, less those of 100, plus those of 400.
  lemma LeapCount(year: nat)
    ensures (if IsLeap(year) then 1 else 0) ==
            (if year % 4 == 0 then 1 else 0) - (if year % 100 == 0 then 1 else 0) + (if year % 400 == 0 then 1 else 0)
  {
    CenturiesAreMultiples(year);
  }

  lemma YearStep(year: nat)
    requires year > 0
    ensures DaysBeforeYear(year + 1) == DaysBeforeYear(year) + YearLength(year)
  {
    hide IsLeap;
    DivStep(year - 1, 4);
    DivStep(year - 1, 100);
    DivStep(year - 1, 400);
    LeapCount(year);
  }

  lemma DivStep(y: nat, k: nat)
    requires k > 0
    ensures (y + 1) / k == y / k + if (y + 1) % k == 0 then 1 else 0
  {
    var q, r := y / k, y % k;
    assert y == k * q + r;
    if r == k - 1 {
      assert y + 1 == k * (q + 1);
      DivUnique(y + 1, k, q + 1, 0);
    } else {
      DivUnique(y + 1, k, q, r + 1);
    }
  }

  lemma DivUnique(n: nat, k: nat, q: nat, r: nat)
    requires k > 0 && n == k * q + r && r < k
    ensures n / k == q && n % k == r
  {
    var q', r' := n / k, n % k;
    assert n == k * q' + r';
    if q' < q {
      MultipleGrows(k, q' + 1, q);
    } else if q < q' {
      MultipleGrows(k, q + 1, q');
    }
  }

  lemma MultipleGrows(k: nat, a: nat, b: nat)
    requires a <= b
    ensures k * a <= k * b
  {
    assert k * b == k * a + k * (b - a);
  }

  lemma YearMonths(year: nat)
    ensures DaysBeforeMonth(year, 13) == YearLength(year)
  {
    var leap := if IsLeap(year) then 1 else 0;
    assert DaysBeforeMonth(year, 2) == 31;
    assert DaysBeforeMonth(year, 3) == 59 + leap;
    assert DaysBeforeMonth(year, 4) == 90 + leap;
    assert DaysBeforeMonth(year, 5) == 120 + leap;
    assert DaysBeforeMonth(year, 6) == 151 + leap;
    assert DaysBeforeMonth(year, 7) == 181 + leap;
    assert DaysBeforeMonth(year, 8) == 212 + leap;
    assert DaysBeforeMonth(year, 9) == 243 + leap;
    assert DaysBeforeMonth(year, 10) == 273 + leap;
    assert DaysBeforeMonth(year, 11) == 304 + leap;
    assert DaysBeforeMonth(year, 12) == 334 + leap;
  }

  lemma {:induction false} YearsMonotone(a: nat, b: nat)
    requires 0 < a <= b
    ensures DaysBeforeYear(a) + 365 * (b - a) <= DaysBeforeYear(b)
    decreases b - a
  {
    if a < b {
      YearStep(a);
      YearsMonotone(a + 1, b);
    }
  }

  lemma {:induction false} MonthsMonotone(year: nat, a: nat, b: nat)
    requires 1 <= a <= b <= 13
    ensures DaysBeforeMonth(year, a) <= DaysBeforeMonth(year, b)
    decreases b - a
  {
    if a < b {
      MonthsMonotone(year, a, b - 1);
    }
  }

  // ---------- rendering ----------

  // `{:0width}`: at least `width` decimal digits.
  function Pad(n: nat, width: nat): string
    decreases n + width
  {
    if n == 0 && width == 0 then ""
    else Pad(n / 10, if width > 0 then width - 1 else 0) + ["0123456789"[n % 10]]
  }

  function Field(n: nat, width: nat, separator: char, rest: string): string {
    Pad(n, width) + [separator] + rest
  }

  // `{:04}-{:02}-{:02}T{:02}:{:02}:{:02}Z`
  function Render(s: Stamp): string {
    Field(s.year, 4, '-', Field(s.month, 2, '-', Field(s.day, 2, 'T', RenderTime(s))))
  }

  function RenderTime(s: Stamp): string {
    Field(s.hour, 2, ':', Field(s.minute, 2, ':', Field(s.second, 2, 'Z', "")))
  }

  // `text` is the rendering of a calendar instant that lies `unix` seconds after the epoch.
  ghost predicate Shows(text: string, unix: int) {
    exists s :: InRange(s) && UnixSeconds(s) == unix && text == Render(s)
  }

  lemma ClockParts(unix: nat)
    ensures unix == 86400 * (unix / 60 / 60 / 24) + 3600 * (unix / 60 / 60 % 24) + 60 * (unix / 60 % 60) + unix % 60
  {
  }

  function MonthTable(year: nat): (r: seq<nat>)
    ensures |r| == 12 && forall m :: 0 <= m < 12 ==> r[m] == MonthLength(year, m + 1)
  {
    [31, if IsLeap(year) then 29 else 28, 31, 30, 31, 30, 31, 31, 30, 31, 30, 31]
  }

  method FormatUnixUtc(unix: nat) returns (r: Outcome)
    requires unix < U64_LIMIT
    ensures r.Text? <==> unix < SecondsBeforeYear(U32_LIMIT)
    ensures r.Text? ==> Shows(r.text, unix)
  {
    hide DaysBeforeYear, IsLeap, MonthTable, MonthLength, Pad, Shows;
    ClockParts(unix);
    var secs := unix;
    var seconds := secs % 60;
    secs := secs / 60;
    var minutes := secs % 60;
    secs := secs / 60;
    var hours := secs % 24;
    var days := secs / 24;
    ghost var allDays := days;

    var year := 1970;
    while true
      invariant 1970 <= year < U32_LIMIT
      invariant DaysBeforeYear(year) - DaysBeforeYear(1970) + days == allDays
      decreases days
    {
      var yearDays := if IsLeap(year) then 366 else 365;
      YearStep(year);
      if days < yearDays {
        break;
      }
      days := days - yearDays;
      if year + 1 == U32_LIMIT {
        return YearOverflow;
      }
      year := year + 1;
    }
    YearsMonotone(year + 1, U32_LIMIT);

    var monthLens := MonthTable(year);
    var month := 0;
    YearMonths(year);
    ghost var inYear := days;
    while month < 12 && days >= monthLens[month]
      invariant 0 <= month <= 12
      invariant DaysBeforeMonth(year, month + 1) + days == inYear
    {
      days := days - monthLens[month];
      month := month + 1;
    }
    var day := days + 1;
    var stamp := Stamp(year, month + 1, day, hours, minutes, seconds);
    assert InRange(stamp) && UnixSeconds(stamp) == unix;
    r := Text(Render(stamp));
    ShownBy(r.text, stamp, unix);
  }

  // There are 64-bit inputs from which the year counter runs over.
  lemma OverflowReachable()
    ensures 0 < SecondsBeforeYear(U32_LIMIT) < U64_LIMIT
  {
  }

  lemma ShownBy(text: string, s: Stamp, unix: int)
    requires InRange(s) && UnixSeconds(s) == unix && text == Render(s)
    ensures Shows(text, unix)
  {
  }

  // ---------- reading an instant (RFC 3339, section 5.6) ----------

  predicate IsDigit(c: char) {
    '0' <= c <= '9'
  }

  function DigitValue(c: char): nat
    requires IsDigit(c)
  {
    c as int - '0' as int
  }

  datatype Scan = Stop | Got(value: nat, width: nat, rest: string)

  // The decimal number before the separator, its width, and what comes behind.
  function ReadField(s: string, separator: char, value: nat, width: nat): Scan {
    if s == "" then Stop
    else if s[0] == separator then Got(value, width, s[1..])
    else if IsDigit(s[0]) then ReadField(s[1..], separator, 10 * value + DigitValue(s[0]), width + 1)
    else Stop
  }

  // A field of exactly two digits.
  function ReadTwo(s: string, separator: char): Scan {
    match ReadField(s, separator, 0, 0)
    case Stop => Stop
    case Got(n, width, rest) => if width == 2 then Got(n, width, rest) else Stop
  }

  // date-time of RFC 3339 in UTC, to the second; the year may have more than its four digits.
  function ReadStamp(s: string): Option<Stamp> {
    match ReadField(s, '-', 0, 0)
    case Stop => None
    case Got(year, width, s) => if width < 4 then None else
      match ReadTwo(s, '-')
      case Stop => None
      case Got(month, _, s) => match ReadTwo(s, 'T')
        case Stop => None
        case Got(day, _, s) => match ReadTwo(s, ':')
          case Stop => None
          case Got(hour, _, s) => match ReadTwo(s, ':')
            case Stop => None
            case Got(minute, _, s) => match ReadTwo(s, 'Z')
              case Stop => None
              case Got(second, _, s) =>
                if s == "" then Some(Stamp(year, month, day, hour, minute, second)) else None
  }

  predicate Digits(s: string) {
    forall i :: 0 <= i < |s| ==> IsDigit(s[i])
  }

  function Fold(s: string, value: nat): nat
    requires Digits(s)
  {
    if s == "" then value else Fold(s[1..], 10 * value + DigitValue(s[0]))
  }

  lemma {:induction false} FoldSnoc(s: string, c: char, value: nat)
    requires Digits(s) && IsDigit(c)
    ensures Digits(s + [c]) && Fold(s + [c], value) == 10 * Fold(s, value) + DigitValue(c)
  {
    if s != "" {
      assert (s + [c])[1..] == s[1..] + [c];
      FoldSnoc(s[1..], c, 10 * value + DigitValue(s[0]));
    } else {
      assert (s + [c])[1..] == "" && [c][1..] == "";
    }
  }

  lemma {:induction false} DigitsRead(s: string, separator: char, rest: string, value: nat, width: nat)
    requires Digits(s) && !IsDigit(separator)
    ensures ReadField(s + [separator] + rest, separator, value, width) == Got(Fold(s, value), width + |s|, rest)
  {
    var t := s + [separator] + rest;
    if s == "" {
      assert t[1..] == rest;
    } else {
      assert t[1..] == s[1..] + [separator] + rest;
      DigitsRead(s[1..], separator, rest, 10 * value + DigitValue(s[0]), width + 1);
    }
  }

  lemma {:induction false} PadReads(n: nat, w: nat)
    ensures Digits(Pad(n, w)) && Fold(Pad(n, w), 0) == n && |Pad(n, w)| >= w
    decreases n + w
  {
    if n > 0 || w > 0 {
      var v := if w > 0 then w - 1 else 0;
      PadReads(n / 10, v);
      DigitShown(n % 10);
      FoldSnoc(Pad(n / 10, v), "0123456789"[n % 10], 0);
    }
  }

  lemma DigitShown(d: nat)
    requires d < 10
    ensures IsDigit("0123456789"[d]) && DigitValue("0123456789"[d]) == d
  {
  }

  lemma FieldReads(n: nat, w: nat, separator: char, rest: string)
    requires !IsDigit(separator)
    ensures ReadField(Field(n, w, separator, rest), separator, 0, 0) == Got(n, |Pad(n, w)|, rest) && |Pad(n, w)| >= w
    ensures w == 2 && n < 100 ==> ReadTwo(Field(n, w, separator, rest), separator) == Got(n, 2, rest)
  {
    PadReads(n, w);
    DigitsRead(Pad(n, w), separator, rest, 0, 0);
    if w == 2 && n < 100 {
      assert Power10(2) == 10 * Power10(1) == 100;
      PadFits(n, w);
    }
  }

  // Every instant is rendered in a form that reads back as it.
  lemma RenderReads(s: Stamp)
    requires InRange(s)
    ensures ReadStamp(Render(s)) == Some(s)
  {
    MonthFits(s.year, s.month);
    hide Field, ReadField, ReadTwo, MonthLength, DaysBeforeYear;
    var t6 := Field(s.second, 2, 'Z', "");
    var t5 := Field(s.minute, 2, ':', t6);
    var t3 := Field(s.day, 2, 'T', RenderTime(s));
    FieldReads(s.second, 2, 'Z', "");
    FieldReads(s.minute, 2, ':', t6);
    FieldReads(s.hour, 2, ':', t5);
    FieldReads(s.day, 2, 'T', RenderTime(s));
    FieldReads(s.month, 2, '-', t3);
    FieldReads(s.year, 4, '-', Field(s.month, 2, '-', t3));
  }

  lemma MonthFits(year: nat, month: nat)
    requires 1 <= month <= 12
    ensures MonthLength(year, month) <= 31
  {
  }

  // What the formatter returns reads as the instant that many seconds after the epoch.
  lemma ShownReads(text: string, unix: int)
    requires Shows(text, unix)
    ensures ReadStamp(text).Some? && InRange(ReadStamp(text).value) && UnixSeconds(ReadStamp(text).value) == unix
  {
    hide ReadStamp, Render, UnixSeconds;
    var s :| InRange(s) && UnixSeconds(s) == unix && text == Render(s);
    RenderReads(s);
  }

  // ---------- inverse and order ----------

  ghost predicate Earlier(a: Stamp, b: Stamp) {
    || a.year < b.year
    || (a.year == b.year && a.month < b.month)
    || (a.year == b.year && a.month == b.month && a.day < b.day)
    || (a.year == b.year && a.month == b.month && a.day == b.day && a.hour < b.hour)
    || (a.year == b.year && a.month == b.month && a.day == b.day && a.hour == b.hour && a.minute < b.minute)
    || (a.year == b.year && a.month == b.month && a.day == b.day && a.hour == b.hour &&
      a.minute == b.minute && a.second < b.second)
  }

  lemma EarlierIsLess(a: Stamp, b: Stamp)
    requires InRange(a) && InRange(b) && Earlier(a, b)
    ensures UnixSeconds(a) < UnixSeconds(b)
  {
    hide DaysBeforeYear, IsLeap, MonthLength;
    if a.year < b.year {
      YearMonths(a.year);
      MonthsMonotone(a.year, a.month + 1, 13);
      MonthsMonotone(b.year, 1, b.month);
      YearStep(a.year);
      YearsMonotone(a.year + 1, b.year);
    } else if a.month < b.month {
      MonthsMonotone(a.year, a.month + 1, b.month);
    } else {
    }
  }

  // Calendar order is time order, so each second has exactly one calendar instant.
  lemma InstantsAreSeconds(a: Stamp, b: Stamp)
    requires InRange(a) && InRange(b)
    ensures Earlier(a, b) <==> UnixSeconds(a) < UnixSeconds(b)
    ensures a == b <==> UnixSeconds(a) == UnixSeconds(b)
  {
    hide UnixSeconds, MonthLength;
    if Earlier(a, b) { EarlierIsLess(a, b); }
    if Earlier(b, a) { EarlierIsLess(b, a); }
  }

  // Formatting inverts the day count: the seconds of a calendar instant render as that instant.
  lemma FormatInverts(s: Stamp, text: string)
    requires InRange(s) && Shows(text, UnixSeconds(s))
    ensures text == Render(s)
  {
    hide UnixSeconds, Render;
    var t :| InRange(t) && UnixSeconds(t) == UnixSeconds(s) && text == Render(t);
    InstantsAreSeconds(s, t);
  }

  lemma {:induction false} LexConcat(a: string, b: string, s: string, t: string)
    requires |a| == |b|
    ensures LexLess(CharLess(), a + s, b + t) <==> LexLess(CharLess(), a, b) || (a == b && LexLess(CharLess(), s, t))
  {
    if a == [] {
      assert a + s == s && b + t == t;
    } else {
      assert (a + s)[1..] == a[1..] + s && (b + t)[1..] == b[1..] + t;
      LexConcat(a[1..], b[1..], s, t);
      assert a == [a[0]] + a[1..] && b == [b[0]] + b[1..];
    }
  }

  function Power10(w: nat): nat {
    if w == 0 then 1 else 10 * Power10(w - 1)
  }

  lemma {:induction false} PadFits(n: nat, w: nat)
    requires n < Power10(w)
    ensures |Pad(n, w)| == w
  {
    if w > 0 {
      PadFits(n / 10, w - 1);
    }
  }

  lemma {:induction false} PadOrder(m: nat, n: nat, w: nat)
    requires m < Power10(w) && n < Power10(w)
    ensures LexLess(CharLess(), Pad(m, w), Pad(n, w)) <==> m < n
    ensures Pad(m, w) == Pad(n, w) <==> m == n
  {
    if w > 0 {
      PadOrder(m / 10, n / 10, w - 1);
      PadFits(m / 10, w - 1);
      PadFits(n / 10, w - 1);
      var a, b := Pad(m / 10, w - 1), Pad(n / 10, w - 1);
      var c, d := "0123456789"[m % 10], "0123456789"[n % 10];
      DigitOrder(m % 10, n % 10);
      LexConcat(a, b, [c], [d]);
      TenSplit(m, n);
      assert (a + [c])[..w - 1] == a && (b + [d])[..w - 1] == b && (a + [c])[w - 1] == c && (b + [d])[w - 1] == d;
      assert LexLess(CharLess(), [c], [d]) <==> c < d;
    }
  }

  lemma TenSplit(m: nat, n: nat)
    ensures m < n <==> m / 10 < n / 10 || (m / 10 == n / 10 && m % 10 < n % 10)
    ensures m == n <==> m / 10 == n / 10 && m % 10 == n % 10
  {
  }

  lemma DigitOrder(i: nat, j: nat)
    requires i < 10 && j < 10
    ensures "0123456789"[i] < "0123456789"[j] <==> i < j
    ensures "0123456789"[i] == "0123456789"[j] <==> i == j
  {
  }

  // One field and what follows it, compared.
  lemma FieldOrder(m: nat, n: nat, w: nat, sep: char, s: string, t: string)
    requires m < Power10(w) && n < Power10(w)
    ensures LexLess(CharLess(), Field(m, w, sep, s), Field(n, w, sep, t))
            <==> m < n || (m == n && LexLess(CharLess(), s, t))
  {
    PadOrder(m, n, w);
    PadFits(m, w);
    PadFits(n, w);
    assert Field(m, w, sep, s) == Pad(m, w) + ([sep] + s) && Field(n, w, sep, t) == Pad(n, w) + ([sep] + t);
    LexConcat(Pad(m, w), Pad(n, w), [sep] + s, [sep] + t);
    LexConcat([sep], [sep], s, t);
  }

  lemma FieldsFit(s: Stamp)
    requires InRange(s) && s.year <= 9999
    ensures s.year < Power10(4)
    ensures s.month < Power10(2) && s.day < Power10(2) && s.hour < Power10(2) && s.minute < Power10(2)
    ensures s.second < Power10(2)
  {
    assert Power10(2) == 100 && Power10(4) == 100 * Power10(2);
  }

  // Up to year 9999 the strings sort as the instants they show.
  lemma TextOrder(a: Stamp, b: Stamp)
    requires InRange(a) && InRange(b) && a.year <= 9999 && b.year <= 9999
    ensures LexLess(CharLess(), Render(a), Render(b)) <==> Earlier(a, b)
  {
    FieldsFit(a);
    FieldsFit(b);
    hide Field, Power10, LexLess, MonthLength, DaysBeforeYear;
    var a6, b6 := Field(a.second, 2, 'Z', ""), Field(b.second, 2, 'Z', "");
    var a5, b5 := Field(a.minute, 2, ':', a6), Field(b.minute, 2, ':', b6);
    var a4, b4 := RenderTime(a), RenderTime(b);
    var a3, b3 := Field(a.day, 2, 'T', a4), Field(b.day, 2, 'T', b4);
    var a2, b2 := Field(a.month, 2, '-', a3), Field(b.month, 2, '-', b3);
    assert !LexLess(CharLess(), "", "") by { NothingLess(); }
    FieldOrder(a.second, b.second, 2, 'Z', "", "");
    FieldOrder(a.minute, b.minute, 2, ':', a6, b6);
    FieldOrder(a.hour, b.hour, 2, ':', a5, b5);
    FieldOrder(a.day, b.day, 2, 'T', a4, b4);
    FieldOrder(a.month, b.month, 2, '-', a3, b3);
    FieldOrder(a.year, b.year, 4, '-', a2, b2);
  }

  lemma NothingLess()
    ensures !LexLess(CharLess(), "", "")
  {
  }

  // The same, said of the formatter's outputs and inputs.
  lemma TextOrderIsTimeOrder(x: int, y: int, s: string, t: string)
    requires Shows(s, x) && Shows(t, y) && x < SecondsBeforeYear(10000) && y < SecondsBeforeYear(10000)
    ensures LexLess(CharLess(), s, t) <==> x < y
  {
    hide LexLess, Render, DaysBeforeYear;
    var a :| InRange(a) && UnixSeconds(a) == x && s == Render(a);
    var b :| InRange(b) && UnixSeconds(b) == y && t == Render(b);
    FourDigitYear(a);
    FourDigitYear(b);
    TextOrder(a, b);
    InstantsAreSeconds(a, b);
  }

  lemma FourDigitYear(s: Stamp)
    requires InRange(s) && UnixSeconds(s) < SecondsBeforeYear(10000)
    ensures s.year <= 9999
  {
    hide DaysBeforeYear;
    MonthsMonotone(s.year, 1, s.month);
    if s.year > 9999 {
      YearsMonotone(10000, s.year);
    }
  }
}
