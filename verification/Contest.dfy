/** Contest times of src/app/contest.c: the profile of RFC 3339 (section 5.6) it reads, and the Gregorian calendar. */
module Contest {
  import opened Common

  datatype Stamp = Stamp(year: nat, month: nat, day: nat, hour: nat, minute: nat, second: nat)

  // ---------------------------------------------------------------- the calendar, second by second

  predicate IsLeap(year: nat) {
    year % 4 == 0 && (year % 100 != 0 || year % 400 == 0)
  }

  function DaysIn(year: nat, month: nat): nat {
    if month == 2 then if IsLeap(year) then 29 else 28
    else if month == 4 || month == 6 || month == 9 || month == 11 then 30
    else 31
  }

  predicate ValidStamp(s: Stamp) {
    && s.year >= 1970 && 1 <= s.month <= 12 && 1 <= s.day <= DaysIn(s.year, s.month)
    && s.hour <= 23 && s.minute <= 59 && s.second <= 59
  }

  const EPOCH := Stamp(1970, 1, 1, 0, 0, 0)

  function NextDay(s: Stamp): Stamp {
    if s.day < DaysIn(s.year, s.month) then s.(day := s.day + 1)
    else if s.month < 12 then s.(month := s.month + 1, day := 1)
    else s.(year := s.year + 1, month := 1, day := 1)
  }

  function NextSecond(s: Stamp): Stamp {
    if s.second < 59 then s.(second := s.second + 1)
    else if s.minute < 59 then s.(minute := s.minute + 1, second := 0)
    else if s.hour < 23 then s.(hour := s.hour + 1, minute := 0, second := 0)
    else NextDay(s.(hour := 0, minute := 0, second := 0))
  }

  // The time `n` seconds after the epoch, found by stepping.
  function After(n: nat): Stamp {
    if n == 0 then EPOCH else NextSecond(After(n - 1))
  }

  // ---------------------------------------------------------------- the closed form of the code

  function DaysBeforeMonth(year: nat, month: nat): nat {
    if month <= 1 then 0 else DaysBeforeMonth(year, month - 1) + DaysIn(year, month - 1)
  }

  function DaysBeforeYear(year: nat): int
    requires year >= 1
  {
    (year - 1970) * 365 + (year - 1) / 4 - 1969 / 4 - (year - 1) / 100 + 1969 / 100 + (year - 1) / 400 - 1969 / 400
  }

  function Days(s: Stamp): int
    requires s.year >= 1
  {
    DaysBeforeYear(s.year) + DaysBeforeMonth(s.year, s.month) + s.day - 1
  }

  function Seconds(s: Stamp): int
    requires s.year >= 1
  {
    Days(s) * 86400 + s.hour * 3600 + s.minute * 60 + s.second
  }

  lemma NextQuotients(n: nat)
    requires n >= 1
    ensures n / 4 - (n - 1) / 4 == if n % 4 == 0 then 1 else 0
    ensures n / 100 - (n - 1) / 100 == if n % 100 == 0 then 1 else 0
    ensures n / 400 - (n - 1) / 400 == if n % 400 == 0 then 1 else 0
    ensures (n % 400 == 0 ==> n % 100 == 0) && (n % 100 == 0 ==> n % 4 == 0)
  {
  }

  lemma YearLength(year: nat)
    requires year >= 1
    ensures DaysBeforeYear(year + 1) == DaysBeforeYear(year) + DaysBeforeMonth(year, 13)
    ensures DaysBeforeMonth(year, 13) == if IsLeap(year) then 366 else 365
  {
    NextQuotients(year);
    YearInMonths(year);
  }

  lemma YearInMonths(year: nat)
    ensures DaysBeforeMonth(year, 13) == if IsLeap(year) then 366 else 365
  {
    assert DaysBeforeMonth(year, 2) == 31;
    assert DaysBeforeMonth(year, 3) == 31 + DaysIn(year, 2);
    assert DaysBeforeMonth(year, 5) == DaysBeforeMonth(year, 3) + 61;
    assert DaysBeforeMonth(year, 7) == DaysBeforeMonth(year, 5) + 61;
    assert DaysBeforeMonth(year, 9) == DaysBeforeMonth(year, 7) + 62;
    assert DaysBeforeMonth(year, 11) == DaysBeforeMonth(year, 9) + 61;
    assert DaysBeforeMonth(year, 13) == DaysBeforeMonth(year, 11) + 61;
  }

  lemma NextDayFollows(s: Stamp)
    requires ValidStamp(s)
    ensures ValidStamp(NextDay(s)) && Days(NextDay(s)) == Days(s) + 1
  {
    if s.day == DaysIn(s.year, s.month) && s.month == 12 {
      YearLength(s.year);
    }
  }

  lemma NextSecondFollows(s: Stamp)
    requires ValidStamp(s)
    ensures ValidStamp(NextSecond(s)) && Seconds(NextSecond(s)) == Seconds(s) + 1
  {
    if s.second == 59 && s.minute == 59 && s.hour == 23 {
      NextDayFollows(s.(hour := 0, minute := 0, second := 0));
    }
  }

  lemma FirstSecond(s: Stamp)
    requires s.year == 1970 && s.month == 1 && s.day == 1 && s.hour == 0 && s.minute == 0 && s.second == 0
    ensures ValidStamp(s) && Seconds(s) == 0
  {
    FirstYear(s.year);
    assert DaysBeforeMonth(s.year, s.month) == 0;
    hide DaysBeforeYear, DaysBeforeMonth;
  }

  lemma FirstYear(year: nat)
    requires year == 1970
    ensures DaysBeforeYear(year) == 0
  {
  }

  /** The closed form counts the seconds that stepping takes. */
  lemma {:induction false} SecondsOfAfter(n: nat)
    ensures ValidStamp(After(n)) && Seconds(After(n)) == n
  {
    hide ValidStamp, Seconds, NextSecond;
    if n == 0 {
      FirstSecond(EPOCH);
    } else {
      SecondsOfAfter(n - 1);
      NextSecondFollows(After(n - 1));
    }
  }

  lemma MonthFormula(year: nat, month: nat)
    requires 1 <= month <= 12
    ensures DaysBeforeMonth(year, month) ==
      if month <= 2 then 31 * (month - 1) else (153 * (month - 3) + 2) / 5 + 59 + (if IsLeap(year) then 1 else 0)
    ensures DaysIn(year, month) == DaysBeforeMonth(year, month + 1) - DaysBeforeMonth(year, month)
  {
    hide IsLeap;
    FirstMonths(year);
    assert DaysBeforeMonth(year, 6) == DaysBeforeMonth(year, 5) + 31;
    assert DaysBeforeMonth(year, 7) == DaysBeforeMonth(year, 6) + 30;
    assert DaysBeforeMonth(year, 8) == DaysBeforeMonth(year, 7) + 31;
    assert DaysBeforeMonth(year, 9) == DaysBeforeMonth(year, 8) + 31;
    assert DaysBeforeMonth(year, 10) == DaysBeforeMonth(year, 9) + 30;
    assert DaysBeforeMonth(year, 11) == DaysBeforeMonth(year, 10) + 31;
    assert DaysBeforeMonth(year, 12) == DaysBeforeMonth(year, 11) + 30;
  }

  lemma FirstMonths(year: nat)
    ensures DaysBeforeMonth(year, 1) == 0 && DaysBeforeMonth(year, 2) == 31
    ensures DaysBeforeMonth(year, 3) == 59 + if IsLeap(year) then 1 else 0
    ensures DaysBeforeMonth(year, 4) == DaysBeforeMonth(year, 3) + 31
    ensures DaysBeforeMonth(year, 5) == DaysBeforeMonth(year, 3) + 61
  {
    hide IsLeap;
  }

  /** The days since the epoch by the formula that lets the year begin in March, so that the leap day is its last. */
  lemma DaysByMarchYears(s: Stamp)
    requires ValidStamp(s)
    ensures var (y, m) := if s.month <= 2 then (s.year - 1, s.month + 9) else (s.year, s.month - 3);
      Days(s) == 365 * y + y / 4 - y / 100 + y / 400 + (153 * m + 2) / 5 + s.day - 719469
  {
    MonthFormula(s.year, s.month);
    NextQuotients(s.year);
    LeapDay(s.year);
    hide DaysBeforeMonth;
  }

  lemma LeapDay(year: nat)
    requires year >= 1
    ensures (if IsLeap(year) then 1 else 0) ==
      (if year % 4 == 0 then 1 else 0) - (if year % 100 == 0 then 1 else 0) + (if year % 400 == 0 then 1 else 0)
  {
    NextQuotients(year);
  }

  // ---------------------------------------------------------------- order

  predicate Earlier(a: Stamp, b: Stamp) {
    a.year < b.year || (a.year == b.year &&
    (a.month < b.month || (a.month == b.month &&
    (a.day < b.day || (a.day == b.day &&
    (a.hour < b.hour || (a.hour == b.hour &&
    (a.minute < b.minute || (a.minute == b.minute && a.second < b.second)))))))))
  }

  lemma {:induction false} MonthsAddUp(year: nat, m: nat, n: nat)
    requires 1 <= m < n <= 13
    ensures DaysBeforeMonth(year, m) + DaysIn(year, m) <= DaysBeforeMonth(year, n)
    decreases n
  {
    if m + 1 < n {
      MonthsAddUp(year, m, n - 1);
    }
  }

  lemma {:induction false} YearsAddUp(y: nat, z: nat)
    requires 1970 <= y < z
    ensures DaysBeforeYear(y) + DaysBeforeMonth(y, 13) <= DaysBeforeYear(z)
    decreases z
  {
    YearLength(z - 1);
    if y + 1 < z {
      YearsAddUp(y, z - 1);
    }
  }

  lemma DaysMonotone(a: Stamp, b: Stamp)
    requires ValidStamp(a) && ValidStamp(b)
    requires a.year < b.year || (a.year == b.year && (a.month < b.month || (a.month == b.month && a.day < b.day)))
    ensures Days(a) < Days(b)
  {
    MonthsAddUp(a.year, a.month, 13);
    if a.year < b.year {
      YearsAddUp(a.year, b.year);
    } else if a.month < b.month {
      MonthsAddUp(a.year, a.month, b.month);
    }
  }

  /** Later times have greater numbers. */
  lemma SecondsMonotone(a: Stamp, b: Stamp)
    requires ValidStamp(a) && ValidStamp(b) && Earlier(a, b)
    ensures Seconds(a) < Seconds(b)
  {
    if a.year == b.year && a.month == b.month && a.day == b.day {
    } else {
      DaysMonotone(a, b);
    }
  }

  lemma EarlierTotal(a: Stamp, b: Stamp)
    ensures Earlier(a, b) || Earlier(b, a) || a == b
  {
  }

  lemma SecondsNonNegative(s: Stamp)
    requires ValidStamp(s)
    ensures Seconds(s) >= 0
  {
    EarlierTotal(EPOCH, s);
    if Earlier(EPOCH, s) {
      SecondsMonotone(EPOCH, s);
    }
  }

  /** Conversely, every valid time is reached after as many steps as the closed form says; with SecondsOfAfter
      the valid times and the natural numbers correspond one to one. */
  lemma AfterSeconds(s: Stamp)
    requires ValidStamp(s)
    ensures Seconds(s) >= 0 && After(Seconds(s)) == s
  {
    SecondsNonNegative(s);
    var t := After(Seconds(s));
    SecondsOfAfter(Seconds(s));
    EarlierTotal(s, t);
    if Earlier(s, t) {
      SecondsMonotone(s, t);
    } else if Earlier(t, s) {
      SecondsMonotone(t, s);
    }
  }

  const LAST := Stamp(9999, 12, 31, 23, 59, 59)

  const LAST_SECOND: int := 253402300799

  /** The four-digit years are exactly the numbers up to 253402300799. */
  lemma FourDigitYears(n: nat)
    ensures After(n).year <= 9999 <==> n <= LAST_SECOND
  {
    SecondsOfAfter(n);
    var s := After(n);
    YearInMonths(9999);
    assert Seconds(LAST) == LAST_SECOND;
    EarlierTotal(s, LAST);
    if Earlier(s, LAST) {
      SecondsMonotone(s, LAST);
    } else if Earlier(LAST, s) {
      SecondsMonotone(LAST, s);
      assert s.year > 9999;
    }
  }

  // ---------------------------------------------------------------- the text

  const HYPHEN: byte := 0x2D
  const PLUS: byte := 0x2B
  const COLON: byte := 0x3A
  const LETTER_T: byte := 0x54
  const LETTER_Z: byte := 0x5A

  datatype Zone = Utc | Offset(negative: bool, hours: nat, minutes: nat)

  predicate ValidZone(z: Zone) {
    z.Offset? ==> z.hours <= 23 && z.minutes <= 59
  }

  function OffsetSeconds(z: Zone): int {
    match z
    case Utc => 0
    case Offset(negative, hours, minutes) =>
      if negative then -((hours * 60 + minutes) * 60) else (hours * 60 + minutes) * 60
  }

  function Two(n: nat): (t: seq<byte>)
    requires n < 100
    ensures |t| == 2
  {
    [0x30 + n / 10, 0x30 + n % 10]
  }

  function Four(n: nat): (t: seq<byte>)
    requires n < 10000
    ensures |t| == 4
  {
    Two(n / 100) + Two(n % 100)
  }

  function PrintZone(z: Zone): (t: seq<byte>)
    requires ValidZone(z)
    ensures |t| == if z.Utc? then 1 else 6
  {
    match z
    case Utc => [LETTER_Z]
    case Offset(negative, hours, minutes) =>
      [if negative then HYPHEN else PLUS] + (Two(hours) + ([COLON] + Two(minutes)))
  }

  // Times the format has room for.
  predicate Printable(s: Stamp) {
    ValidStamp(s) && s.year <= 9999
  }

  // YYYY-MM-DD
  function PrintDate(s: Stamp): (t: seq<byte>)
    requires Printable(s)
    ensures |t| == 10
  {
    Four(s.year) + ([HYPHEN] + (Two(s.month) + ([HYPHEN] + Two(s.day))))
  }

  // HH:MM:SS
  function PrintTime(s: Stamp): (t: seq<byte>)
    requires Printable(s)
    ensures |t| == 8
  {
    Two(s.hour) + ([COLON] + (Two(s.minute) + ([COLON] + Two(s.second))))
  }

  function Print(s: Stamp, z: Zone): (t: seq<byte>)
    requires Printable(s) && ValidZone(z)
    ensures |t| == if z.Utc? then 20 else 25
  {
    PrintDate(s) + ([LETTER_T] + (PrintTime(s) + PrintZone(z)))
  }

  // ---------------------------------------------------------------- reading it

  // read_digits: the number, or -1.
  function ReadNumber(t: seq<byte>): int {
    if All(t, IsDigit) then Decimal(t) else -1
  }

  method ReadDigits(value: seq<byte>, from: nat, length: nat) returns (result: int)
    requires from + length <= |value|
    ensures result == ReadNumber(value[from..from + length])
  {
    ghost var t := value[from..from + length];
    result := 0;
    var i := 0;
    while i < length
      invariant 0 <= i <= length && All(t[..i], IsDigit) && result == Decimal(t[..i])
    {
      var c := value[from + i];
      assert t[i] == c;
      if c < 0x30 || c > 0x39 {
        return -1;
      }
      DecimalNext(t, i);
      result := result * 10 + (c - 0x30);
      i := i + 1;
    }
    assert t[..i] == t;
  }

  // Two digits stand for n exactly when they are n's.
  lemma ReadTwo(t: seq<byte>, n: nat)
    requires |t| == 2 && n < 100
    ensures ReadNumber(t) < 100
    ensures ReadNumber(t) == n <==> t == Two(n)
  {
    assert t == [t[0], t[1]] && t[..1] == [t[0]] && t[..1][..0] == [];
    if All(t, IsDigit) {
      assert Decimal(t[..1]) == t[0] - 0x30;
      assert Decimal(t) == Decimal(t[..1]) * 10 + (t[1] - 0x30);
    }
  }

  lemma ReadFour(t: seq<byte>, n: nat)
    requires |t| == 4 && n < 10000
    ensures ReadNumber(t) < 10000
    ensures ReadNumber(t) == n <==> t == Four(n)
  {
    var a, b := t[..2], t[2..];
    assert t == a + b;
    assert t == Four(n) <==> a == Two(n / 100) && b == Two(n % 100);
    ReadTwo(a, n / 100);
    ReadTwo(b, n % 100);
    if All(t, IsDigit) {
      DecimalOfFour(t);
      assert All(a, IsDigit) && All(b, IsDigit);
    } else {
      assert !All(a, IsDigit) || !All(b, IsDigit) by {
        var i :| 0 <= i < 4 && !IsDigit(t[i]);
        assert t[i] == if i < 2 then a[i] else b[i - 2];
      }
    }
  }

  lemma DecimalOfFour(t: seq<byte>)
    requires |t| == 4 && All(t, IsDigit)
    ensures Decimal(t) == Decimal(t[..2]) * 100 + Decimal(t[2..])
  {
    DecimalNext(t, 3);
    DecimalNext(t, 2);
    assert t[..4] == t && t[2..] == [t[2], t[3]];
    DecimalNext(t[2..], 1);
    DecimalNext(t[2..], 0);
    assert t[2..][..2] == t[2..] && t[2..][..0] == [];
  }

  // ---------------------------------------------------------------- the fields of a text

  predicate Separated(v: seq<byte>) {
    && (|v| == 20 || |v| == 25)
    && v[4] == HYPHEN && v[7] == HYPHEN && v[10] == LETTER_T && v[13] == COLON && v[16] == COLON
  }

  // What stands for the zone.
  function ZoneOf(t: seq<byte>): Option<Zone> {
    if |t| == 1 then if t[0] == LETTER_Z then Some(Utc) else None
    else if |t| != 6 || (t[0] != PLUS && t[0] != HYPHEN) || t[3] != COLON then None
    else
      var hours, minutes := ReadNumber(t[1..3]), ReadNumber(t[4..6]);
      if hours < 0 || hours > 23 || minutes < 0 || minutes > 59 then None
      else Some(Offset(t[0] == HYPHEN, hours, minutes))
  }

  lemma ZoneIsPrinted(t: seq<byte>, z: Zone)
    requires ValidZone(z)
    ensures ZoneOf(t) == Some(z) <==> t == PrintZone(z)
  {
    if |t| == 6 && z.Offset? {
      ReadTwo(t[1..3], z.hours);
      ReadTwo(t[4..6], z.minutes);
      assert t == [t[0]] + (t[1..3] + ([t[3]] + t[4..6]));
      Pieces(t, PrintZone(z));
    }
  }

  lemma Pieces(t: seq<byte>, u: seq<byte>)
    requires |t| == 6 && |u| == 6
    ensures t == u <==> t[0] == u[0] && t[1..3] == u[1..3] && t[3] == u[3] && t[4..6] == u[4..6]
  {
    assert t == [t[0]] + (t[1..3] + ([t[3]] + t[4..6]));
    assert u == [u[0]] + (u[1..3] + ([u[3]] + u[4..6]));
  }

  lemma ZoneIsValid(t: seq<byte>)
    ensures ZoneOf(t).Some? ==> ValidZone(ZoneOf(t).value)
  {
  }

  // The numbers in the text are those of the time.
  predicate Reads(v: seq<byte>, s: Stamp)
    requires |v| >= 19
  {
    && ReadNumber(v[0..4]) == s.year && ReadNumber(v[5..7]) == s.month && ReadNumber(v[8..10]) == s.day
    && ReadNumber(v[11..13]) == s.hour && ReadNumber(v[14..16]) == s.minute && ReadNumber(v[17..19]) == s.second
  }

  lemma DateParts(d: seq<byte>)
    requires |d| == 10
    ensures d == d[0..4] + ([d[4]] + (d[5..7] + ([d[7]] + d[8..10])))
  {
  }

  lemma TimeParts(d: seq<byte>)
    requires |d| == 8
    ensures d == d[0..2] + ([d[2]] + (d[3..5] + ([d[5]] + d[6..8])))
  {
  }

  lemma DateIsPrinted(d: seq<byte>, s: Stamp)
    requires |d| == 10 && Printable(s)
    ensures d == PrintDate(s) <==>
      d[4] == HYPHEN && d[7] == HYPHEN
      && ReadNumber(d[0..4]) == s.year && ReadNumber(d[5..7]) == s.month && ReadNumber(d[8..10]) == s.day
  {
    ReadFour(d[0..4], s.year);
    ReadTwo(d[5..7], s.month);
    ReadTwo(d[8..10], s.day);
    var u := PrintDate(s);
    assert u[0..4] == Four(s.year) && u[5..7] == Two(s.month) && u[8..10] == Two(s.day);
    assert u[4] == HYPHEN && u[7] == HYPHEN;
    hide Two, Four, PrintDate, ReadNumber, ValidStamp;
    DateParts(d);
    DateParts(u);
  }

  lemma TimeIsPrinted(d: seq<byte>, s: Stamp)
    requires |d| == 8 && Printable(s)
    ensures d == PrintTime(s) <==>
      d[2] == COLON && d[5] == COLON
      && ReadNumber(d[0..2]) == s.hour && ReadNumber(d[3..5]) == s.minute && ReadNumber(d[6..8]) == s.second
  {
    ReadTwo(d[0..2], s.hour);
    ReadTwo(d[3..5], s.minute);
    ReadTwo(d[6..8], s.second);
    var u := PrintTime(s);
    assert u[0..2] == Two(s.hour) && u[3..5] == Two(s.minute) && u[6..8] == Two(s.second);
    assert u[2] == COLON && u[5] == COLON;
    hide Two, PrintTime, ReadNumber, ValidStamp;
    TimeParts(d);
    TimeParts(u);
  }

  /** A text is the printed form of a time and a zone exactly when its separators, numbers and zone are theirs. */
  lemma TextIsPrinted(v: seq<byte>, s: Stamp, z: Zone)
    requires Printable(s) && ValidZone(z)
    ensures v == Print(s, z) <==> Separated(v) && Reads(v, s) && ZoneOf(v[19..]) == Some(z)
  {
    hide ReadNumber, PrintDate, PrintTime, PrintZone, ZoneOf, ValidStamp;
    if |v| == 20 || |v| == 25 {
      var date, time, zone := v[0..10], v[11..19], v[19..];
      DateIsPrinted(date, s);
      TimeIsPrinted(time, s);
      ZoneIsPrinted(zone, z);
      InParts(v, date, time, zone);
      PartsArePrinted(v, s, z);
    }
  }

  lemma PartsArePrinted(v: seq<byte>, s: Stamp, z: Zone)
    requires Printable(s) && ValidZone(z) && |v| >= 19
    ensures v == Print(s, z) <==>
      v[0..10] == PrintDate(s) && v[10] == LETTER_T && v[11..19] == PrintTime(s) && v[19..] == PrintZone(z)
  {
    hide ReadNumber, PrintDate, PrintTime, PrintZone, ZoneOf, ValidStamp;
    var u := Print(s, z);
    assert v == v[0..10] + ([v[10]] + (v[11..19] + v[19..]));
    if v == u {
      assert u[0..10] == PrintDate(s) && u[11..19] == PrintTime(s) && u[19..] == PrintZone(z);
    }
  }

  lemma InParts(v: seq<byte>, date: seq<byte>, time: seq<byte>, zone: seq<byte>)
    requires |v| >= 20 && date == v[0..10] && time == v[11..19] && zone == v[19..]
    ensures date[0..4] == v[0..4] && date[4] == v[4] && date[5..7] == v[5..7] && date[7] == v[7]
    ensures date[8..10] == v[8..10]
    ensures time[0..2] == v[11..13] && time[2] == v[13] && time[3..5] == v[14..16] && time[5] == v[16]
    ensures time[6..8] == v[17..19]
  {
  }

  /** The text stands for this number of seconds: a valid time minus its offset, not before the epoch. */
  ghost predicate Means(v: seq<byte>, t: int) {
    exists s, z :: Printable(s) && ValidZone(z) && v == Print(s, z) && t == Seconds(s) - OffsetSeconds(z) && t >= 0
  }

  // A text stands for one number at most.
  lemma MeansOne(v: seq<byte>, t: int, u: int)
    requires Means(v, t) && Means(v, u)
    ensures t == u
  {
    var s, z :| Printable(s) && ValidZone(z) && v == Print(s, z) && t == Seconds(s) - OffsetSeconds(z) && t >= 0;
    var r, y :| Printable(r) && ValidZone(y) && v == Print(r, y) && u == Seconds(r) - OffsetSeconds(y) && u >= 0;
    TextIsPrinted(v, s, z);
    TextIsPrinted(v, r, y);
  }

  /** A clock ahead of UTC shows a later time and says so with a plus sign, one behind an earlier time with a minus
      sign; both texts stand for the UTC time. */
  lemma ClocksMean(n: nat, hours: nat, minutes: nat)
    requires hours <= 23 && minutes <= 59
    ensures var ahead := n + 3600 * hours + 60 * minutes;
      After(ahead).year <= 9999 ==>
        var text := Print(Clock(ahead), Offset(false, hours, minutes));
        text[19] == 0x2B && Means(text, n)
    ensures var behind := n - 3600 * hours - 60 * minutes;
      behind >= 0 && After(behind).year <= 9999 ==>
        var text := Print(Clock(behind), Offset(true, hours, minutes));
        text[19] == 0x2D && Means(text, n)
    ensures After(n).year <= 9999 ==> Means(Print(Clock(n), Utc), n)
  {
    hide Seconds, PrintDate, PrintTime, Two;
    var ahead, behind := n + 3600 * hours + 60 * minutes, n - 3600 * hours - 60 * minutes;
    SecondsOfAfter(n);
    SecondsOfAfter(ahead);
    if behind >= 0 {
      SecondsOfAfter(behind);
    }
  }

  // What a clock shows `n` seconds after it showed the epoch.
  function Clock(n: nat): (s: Stamp)
    ensures s == After(n) && ValidStamp(s)
  {
    SecondsOfAfter(n);
    After(n)
  }

  /** The second example of section 5.8 of RFC 3339 and its equivalent in UTC. */
  lemma TextExample()
    ensures Means(Ascii("1996-12-19T16:39:57-08:00"), 851042397)
    ensures Means(Ascii("1996-12-20T00:39:57Z"), 851042397)
  {
    hide Seconds, PrintDate, PrintTime, PrintZone, Ascii;
    var here, there := Stamp(1996, 12, 19, 16, 39, 57), Stamp(1996, 12, 20, 0, 39, 57);
    ExampleDate();
    ExampleTimes(here, there);
    LocalText(here);
    UtcText(there);
  }

  lemma ExampleDate()
    ensures Seconds(Stamp(1996, 12, 19, 16, 39, 57)) == 851042397 - 28800
    ensures Seconds(Stamp(1996, 12, 20, 0, 39, 57)) == 851042397
  {
    DaysByMarchYears(Stamp(1996, 12, 19, 16, 39, 57));
    DaysByMarchYears(Stamp(1996, 12, 20, 0, 39, 57));
    hide Days;
  }

  lemma ExampleTimes(here: Stamp, there: Stamp)
    requires here == Stamp(1996, 12, 19, 16, 39, 57) && there == Stamp(1996, 12, 20, 0, 39, 57)
    ensures Printable(here) && Printable(there)
  {
  }

  lemma LocalText(here: Stamp)
    requires here == Stamp(1996, 12, 19, 16, 39, 57) && Printable(here)
    ensures Ascii("1996-12-19T16:39:57-08:00") == Print(here, Offset(true, 8, 0))
  {
    hide Ascii, ValidStamp, PrintDate, PrintTime, PrintZone;
    LocalParts(here);
    SameText(
      "1996-12-19T16:39:57-08:00",
      [0x31, 0x39, 0x39, 0x36, 0x2D, 0x31, 0x32, 0x2D, 0x31, 0x39, 0x54, 0x31, 0x36, 0x3A, 0x33, 0x39, 0x3A, 0x35, 0x37,
       0x2D, 0x30, 0x38, 0x3A, 0x30, 0x30]);
  }

  lemma UtcText(there: Stamp)
    requires there == Stamp(1996, 12, 20, 0, 39, 57) && Printable(there)
    ensures Ascii("1996-12-20T00:39:57Z") == Print(there, Utc)
  {
    hide Ascii, ValidStamp, PrintDate, PrintTime, PrintZone;
    UtcParts(there);
    SameText(
      "1996-12-20T00:39:57Z",
      [0x31, 0x39, 0x39, 0x36, 0x2D, 0x31, 0x32, 0x2D, 0x32, 0x30, 0x54, 0x30, 0x30, 0x3A, 0x33, 0x39, 0x3A, 0x35, 0x37,
       0x5A]);
  }

  lemma LocalParts(here: Stamp)
    requires here == Stamp(1996, 12, 19, 16, 39, 57) && Printable(here)
    ensures PrintDate(here) == [0x31, 0x39, 0x39, 0x36, 0x2D, 0x31, 0x32, 0x2D, 0x31, 0x39]
    ensures PrintTime(here) == [0x31, 0x36, 0x3A, 0x33, 0x39, 0x3A, 0x35, 0x37]
    ensures PrintZone(Offset(true, 8, 0)) == [0x2D, 0x30, 0x38, 0x3A, 0x30, 0x30]
  {
    hide ValidStamp;
    assert Two(19) == [0x31, 0x39] && Two(96) == [0x39, 0x36];
  }

  lemma UtcParts(there: Stamp)
    requires there == Stamp(1996, 12, 20, 0, 39, 57) && Printable(there)
    ensures PrintDate(there) == [0x31, 0x39, 0x39, 0x36, 0x2D, 0x31, 0x32, 0x2D, 0x32, 0x30]
    ensures PrintTime(there) == [0x30, 0x30, 0x3A, 0x33, 0x39, 0x3A, 0x35, 0x37]
    ensures PrintZone(Utc) == [0x5A]
  {
    hide ValidStamp;
    assert Two(19) == [0x31, 0x39] && Two(96) == [0x39, 0x36];
  }

  // ---------------------------------------------------------------- contest_time_parse

  predicate InRange(year: int, month: int, day: int, hour: int, minute: int, second: int) {
    && year >= 1970 && 1 <= month <= 12 && 1 <= day <= DaysIn(year, month)
    && 0 <= hour <= 23 && 0 <= minute <= 59 && 0 <= second <= 59
  }

  predicate NumbersInRange(v: seq<byte>)
    requires |v| >= 19
  {
    InRange(ReadNumber(v[0..4]), ReadNumber(v[5..7]), ReadNumber(v[8..10]),
            ReadNumber(v[11..13]), ReadNumber(v[14..16]), ReadNumber(v[17..19]))
  }

  function StampOf(v: seq<byte>): Stamp
    requires |v| >= 19 && NumbersInRange(v)
  {
    Stamp(ReadNumber(v[0..4]), ReadNumber(v[5..7]), ReadNumber(v[8..10]),
          ReadNumber(v[11..13]), ReadNumber(v[14..16]), ReadNumber(v[17..19]))
  }

  // The checks of the code.
  predicate Accepted(v: seq<byte>) {
    Separated(v) && ZoneOf(v[19..]).Some? && NumbersInRange(v) && ValueOf(v) >= 0
  }

  function ValueOf(v: seq<byte>): int
    requires Separated(v) && ZoneOf(v[19..]).Some? && NumbersInRange(v)
  {
    Seconds(StampOf(v)) - OffsetSeconds(ZoneOf(v[19..]).value)
  }

  lemma AcceptedMeans(v: seq<byte>)
    requires Accepted(v)
    ensures Means(v, ValueOf(v))
  {
    ReadFour(v[0..4], 0);
    ZoneIsValid(v[19..]);
    TextIsPrinted(v, StampOf(v), ZoneOf(v[19..]).value);
  }

  lemma MeansAccepted(v: seq<byte>, t: int)
    requires Means(v, t)
    ensures Accepted(v) && ValueOf(v) == t
  {
    var s, z :| Printable(s) && ValidZone(z) && v == Print(s, z) && t == Seconds(s) - OffsetSeconds(z) && t >= 0;
    TextIsPrinted(v, s, z);
  }

  /** What is accepted is exactly what stands for a number. */
  lemma AcceptedExactly(v: seq<byte>)
    ensures Accepted(v) <==> exists t :: Means(v, t)
  {
    if Accepted(v) {
      AcceptedMeans(v);
    }
    if t :| Means(v, t) {
      MeansAccepted(v, t);
    }
  }

  const MONTH_DAYS: seq<nat> := [31, 28, 31, 30, 31, 30, 31, 31, 30, 31, 30, 31]

  lemma MonthTable(year: nat, month: nat)
    requires 1 <= month <= 12
    ensures MONTH_DAYS[month - 1] + (if month == 2 && IsLeap(year) then 1 else 0) == DaysIn(year, month)
  {
  }

  // The zone as the code reads it: seconds east, None when it is refused.
  method ReadOffset(value: seq<byte>) returns (offset: Option<int>)
    requires |value| == 20 || |value| == 25
    ensures offset == match ZoneOf(value[19..]) case None => None case Some(z) => Some(OffsetSeconds(z))
  {
    ghost var t := value[19..];
    assert t[0] == value[19];
    if |value| == 20 {
      return if value[19] != LETTER_Z then None else Some(0);
    }
    assert t[3] == value[22] && t[1..3] == value[20..22] && t[4..6] == value[23..25];
    var offsetHour := ReadDigits(value, 20, 2);
    var offsetMinute := ReadDigits(value, 23, 2);
    if (value[19] != PLUS && value[19] != HYPHEN) || value[22] != COLON || offsetHour < 0 || offsetHour > 23
       || offsetMinute < 0 || offsetMinute > 59 {
      return None;
    }
    var seconds := (offsetHour * 60 + offsetMinute) * 60;
    offset := Some(if value[19] == HYPHEN then -seconds else seconds);
  }

  // The checks of the numbers, and their seconds since the epoch.
  method CountSeconds(year: int, month: int, day: int, hour: int, minute: int, second: int)
    returns (seconds: Option<int>)
    ensures seconds.Some? <==> InRange(year, month, day, hour, minute, second)
    ensures seconds.Some? ==> seconds.value == Seconds(Stamp(year, month, day, hour, minute, second))
  {
    if year < 1970 || month < 1 || month > 12 || day < 1 || hour < 0 || hour > 23 || minute < 0 || minute > 59
       || second < 0 || second > 59 {
      return None;
    }
    var leap := year % 4 == 0 && (year % 100 != 0 || year % 400 == 0);
    MonthTable(year, month);
    if day > MONTH_DAYS[month - 1] + (if month == 2 && leap then 1 else 0) {
      return None;
    }
    var days := (year - 1970) * 365 + (year - 1) / 4 - 1969 / 4 - (year - 1) / 100 + 1969 / 100
                + (year - 1) / 400 - 1969 / 400;
    var i := 1;
    while i < month
      invariant 1 <= i <= month && days == DaysBeforeYear(year) + DaysBeforeMonth(year, i)
    {
      MonthTable(year, i);
      days := days + MONTH_DAYS[i - 1] + (if i == 2 && leap then 1 else 0);
      i := i + 1;
    }
    seconds := Some((days + day - 1) * 86400 + hour * 3600 + minute * 60 + second);
  }

  /** contest_time_parse; None stands for a null pointer. */
  method ContestTimeParse(value: Option<seq<byte>>) returns (ok: bool, timestamp: int)
    ensures value.None? || value.value == [] ==> ok && timestamp == 0
    ensures value.Some? && value.value != [] ==>
      && (ok <==> exists t :: Means(value.value, t))
      && if ok then Means(value.value, timestamp) else timestamp == 0
  {
    timestamp := 0;
    if value.None? || value.value == [] {
      return true, 0;
    }
    var v := value.value;
    AcceptedExactly(v);
    if (|v| != 20 && |v| != 25) || v[4] != HYPHEN || v[7] != HYPHEN || v[10] != LETTER_T || v[13] != COLON
       || v[16] != COLON {
      return false, 0;
    }
    var parsed := ReadFields(v);
    if parsed.None? || parsed.value < 0 {
      return false, 0;
    }
    AcceptedMeans(v);
    return true, parsed.value;
  }

  // The fields of a text whose separators are right.
  method ReadFields(v: seq<byte>) returns (parsed: Option<int>)
    requires Separated(v)
    ensures parsed == if ZoneOf(v[19..]).Some? && NumbersInRange(v) then Some(ValueOf(v)) else None
  {
    hide ReadNumber, ZoneOf, Seconds, InRange, OffsetSeconds;
    var year := ReadDigits(v, 0, 4);
    var month := ReadDigits(v, 5, 2);
    var day := ReadDigits(v, 8, 2);
    var hour := ReadDigits(v, 11, 2);
    var minute := ReadDigits(v, 14, 2);
    var second := ReadDigits(v, 17, 2);
    var offset := ReadOffset(v);
    if offset.None? {
      return None;
    }
    var seconds := CountSeconds(year, month, day, hour, minute, second);
    if seconds.None? {
      return None;
    }
    parsed := Some(seconds.value - offset.value);
  }

  /** Round trip: a printed time with an offset is accepted exactly when its UTC value minus the offset is not
      negative, and that value is the result. */
  method ParsePrinted(s: Stamp, z: Zone) returns (ok: bool, timestamp: int)
    requires Printable(s) && ValidZone(z)
    ensures ok <==> Seconds(s) - OffsetSeconds(z) >= 0
    ensures ok ==> timestamp == Seconds(s) - OffsetSeconds(z)
  {
    var v := Print(s, z);
    ok, timestamp := ContestTimeParse(Some(v));
    if Seconds(s) - OffsetSeconds(z) >= 0 {
      assert Means(v, Seconds(s) - OffsetSeconds(z));
    }
    if ok {
      MeansAccepted(v, timestamp);
      TextIsPrinted(v, s, z);
    }
  }
}
