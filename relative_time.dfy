/** formatDate of the post card: how long ago something happened, from the
    millisecond difference `now - then`. The difference is taken as an
    integer input; the calendar-date string shown for anything a week old or
    more comes from the runtime's locale and is passed in as `localeDate`. */
module RelativeTime {
  import opened Common

  const MsPerMinute: int := 60000
  const MsPerHour: int := 3600000
  const MsPerDay: int := 86400000

  /** The five outcomes of formatDate, before they are turned into text. */
  datatype Age = JustNow | MinutesAgo(minutes: nat) | HoursAgo(hours: nat) | DaysAgo(days: nat) | CalendarDate

  /** Which outcome a difference falls into. `Math.floor(diffMs / k)` with
      `k > 0` is Dafny's `/` on int, negative differences included. Each
      outcome holds exactly for one range of differences, and the count it
      carries is the number of whole units elapsed. */
  function Bucket(diffMs: int): (a: Age)
    ensures a == JustNow <==> diffMs < MsPerMinute
    ensures a.MinutesAgo? <==> MsPerMinute <= diffMs < MsPerHour
    ensures a.HoursAgo? <==> MsPerHour <= diffMs < MsPerDay
    ensures a.DaysAgo? <==> MsPerDay <= diffMs < 7 * MsPerDay
    ensures a == CalendarDate <==> 7 * MsPerDay <= diffMs
    ensures a.MinutesAgo? ==>
      1 <= a.minutes < 60 && a.minutes * MsPerMinute <= diffMs < (a.minutes + 1) * MsPerMinute
    ensures a.HoursAgo? ==>
      1 <= a.hours < 24 && a.hours * MsPerHour <= diffMs < (a.hours + 1) * MsPerHour
    ensures a.DaysAgo? ==>
      1 <= a.days < 7 && a.days * MsPerDay <= diffMs < (a.days + 1) * MsPerDay
  {
    var diffMins := diffMs / MsPerMinute;
    var diffHours := diffMs / MsPerHour;
    var diffDays := diffMs / MsPerDay;
    if diffMins < 1 then JustNow
    else if diffMins < 60 then MinutesAgo(diffMins)
    else if diffHours < 24 then HoursAgo(diffHours)
    else if diffDays < 7 then DaysAgo(diffDays)
    else CalendarDate
  }

  predicate IsDigit(c: char)
  {
    '0' <= c <= '9'
  }

  predicate AllDigits(s: string)
  {
    forall i :: 0 <= i < |s| ==> IsDigit(s[i])
  }

  function DigitChar(d: nat): (c: char)
    requires d < 10
    ensures IsDigit(c)
  {
    ('0' as int + d) as char
  }

  function DigitValue(c: char): (d: nat)
    requires IsDigit(c)
    ensures d < 10 && DigitChar(d) == c
  {
    c as int - '0' as int
  }

  /** `${n}` for a non-negative integer: its decimal digits, no leading zero. */
  function NatToDecimal(n: nat): (s: string)
    ensures |s| >= 1 && AllDigits(s)
    ensures |s| > 1 ==> s[0] != '0'
  {
    if n < 10 then [DigitChar(n)] else NatToDecimal(n / 10) + [DigitChar(n % 10)]
  }

  /** The number a string of decimal digits denotes. */
  function DecimalValue(s: string): nat
    requires AllDigits(s)
  {
    if s == [] then 0 else DecimalValue(s[..|s| - 1]) * 10 + DigitValue(s[|s| - 1])
  }

  lemma {:induction false} DecimalRoundTrip(n: nat)
    ensures DecimalValue(NatToDecimal(n)) == n
  {
    var s := NatToDecimal(n);
    if n >= 10 {
      assert s[..|s| - 1] == NatToDecimal(n / 10);
      DecimalRoundTrip(n / 10);
    }
  }

  /** The text shown for an outcome. */
  function Render(a: Age, localeDate: string): string
  {
    match a
    case JustNow => "Just now"
    case MinutesAgo(m) => NatToDecimal(m) + "m ago"
    case HoursAgo(h) => NatToDecimal(h) + "h ago"
    case DaysAgo(d) => NatToDecimal(d) + "d ago"
    case CalendarDate => localeDate
  }

  /** formatDate: "Just now" under a minute (future times included), whole
      minutes under an hour, whole hours under a day, whole days under a
      week, and the calendar date from a week on. */
  function FormatDate(diffMs: int, localeDate: string): (r: string)
    ensures diffMs < MsPerMinute ==> r == "Just now"
    ensures MsPerMinute <= diffMs < MsPerHour ==> r == NatToDecimal(diffMs / MsPerMinute) + "m ago"
    ensures MsPerHour <= diffMs < MsPerDay ==> r == NatToDecimal(diffMs / MsPerHour) + "h ago"
    ensures MsPerDay <= diffMs < 7 * MsPerDay ==> r == NatToDecimal(diffMs / MsPerDay) + "d ago"
    ensures 7 * MsPerDay <= diffMs ==> r == localeDate
  {
    Render(Bucket(diffMs), localeDate)
  }

  /** Reads a relative-time text back into its outcome; `None` for text that
      is not one of the four relative forms. */
  function ParseAge(s: string): Option<Age>
  {
    if s == "Just now" then Some(JustNow)
    else if |s| >= 6 && s[|s| - 4..] == " ago" && AllDigits(s[..|s| - 5]) then
      var n := DecimalValue(s[..|s| - 5]);
      var unit := s[|s| - 5];
      if unit == 'm' then Some(MinutesAgo(n))
      else if unit == 'h' then Some(HoursAgo(n))
      else if unit == 'd' then Some(DaysAgo(n))
      else None
    else None
  }

  /** Every relative text reads back as the outcome it was made from, so the
      four relative forms never collide. */
  lemma RenderParseRoundTrip(a: Age, localeDate: string)
    requires a != CalendarDate
    ensures ParseAge(Render(a, localeDate)) == Some(a)
  {
    match a
    case JustNow =>
    case MinutesAgo(m) =>
      assert Render(a, localeDate) == NatToDecimal(m) + ['m'] + " ago";
      ParseUnit(m, 'm');
    case HoursAgo(h) =>
      assert Render(a, localeDate) == NatToDecimal(h) + ['h'] + " ago";
      ParseUnit(h, 'h');
    case DaysAgo(d) =>
      assert Render(a, localeDate) == NatToDecimal(d) + ['d'] + " ago";
      ParseUnit(d, 'd');
  }

  /** Digits, a unit letter and " ago" read back as that count of that unit. */
  lemma ParseUnit(n: nat, unit: char)
    requires unit == 'm' || unit == 'h' || unit == 'd'
    ensures ParseAge(NatToDecimal(n) + [unit] + " ago")
         == Some(if unit == 'm' then MinutesAgo(n) else if unit == 'h' then HoursAgo(n) else DaysAgo(n))
  {
    var s := NatToDecimal(n) + [unit] + " ago";
    assert s[..|s| - 5] == NatToDecimal(n);
    assert s[|s| - 4..] == " ago";
    assert s[|s| - 5] == unit;
    assert s != "Just now" by {
      assert "Just now"[4..] == " now";
    }
    DecimalRoundTrip(n);
  }

  /** Two differences that both show relative text show the same text only
      when they fall into the same outcome. */
  lemma FormatDateDistinguishes(d1: int, d2: int, localeDate: string)
    requires d1 < 7 * MsPerDay && d2 < 7 * MsPerDay
    requires FormatDate(d1, localeDate) == FormatDate(d2, localeDate)
    ensures Bucket(d1) == Bucket(d2)
  {
    RenderParseRoundTrip(Bucket(d1), localeDate);
    RenderParseRoundTrip(Bucket(d2), localeDate);
  }

  /** Position of an outcome on the time line: a later outcome, or the same
      unit with a larger count, is older. */
  predicate NoOlderThan(x: Age, y: Age)
  {
    match (x, y)
    case (JustNow, _) => true
    case (MinutesAgo(m), MinutesAgo(m')) => m <= m'
    case (MinutesAgo(_), JustNow) => false
    case (MinutesAgo(_), _) => true
    case (HoursAgo(h), HoursAgo(h')) => h <= h'
    case (HoursAgo(_), DaysAgo(_)) => true
    case (HoursAgo(_), CalendarDate) => true
    case (HoursAgo(_), _) => false
    case (DaysAgo(d), DaysAgo(d')) => d <= d'
    case (DaysAgo(_), CalendarDate) => true
    case (DaysAgo(_), _) => false
    case (CalendarDate, y) => y == CalendarDate
  }

  /** A larger difference never shows as more recent. */
  lemma BucketMonotone(d1: int, d2: int)
    requires d1 <= d2
    ensures NoOlderThan(Bucket(d1), Bucket(d2))
  {
  }

  /** The examples: 30 seconds, 5 minutes, 3 hours, 2 days and 10 days ago,
      and a timestamp 2 minutes in the future. */
  lemma FormatDateExamples(localeDate: string)
    ensures FormatDate(30000, localeDate) == "Just now"
    ensures FormatDate(5 * MsPerMinute, localeDate) == "5m ago"
    ensures FormatDate(3 * MsPerHour, localeDate) == "3h ago"
    ensures FormatDate(2 * MsPerDay, localeDate) == "2d ago"
    ensures FormatDate(10 * MsPerDay, localeDate) == localeDate
    ensures FormatDate(-2 * MsPerMinute, localeDate) == "Just now"
  {
    assert NatToDecimal(5) == "5";
    assert NatToDecimal(3) == "3";
    assert NatToDecimal(2) == "2";
  }
}
