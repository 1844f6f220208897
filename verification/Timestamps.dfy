/**
 How the queue's timestamp column is written and read: Go's time formatting for the two texts a
 timestamp passes through, the layout-driven parser, and the order SQLite sorts the column by.
 */
module Timestamps {
  import opened Text
  import opened Calendar

  /** Nanoseconds since the Unix epoch, and the zone's offset from UTC in minutes. */
  datatype Time = Time(nanos: int, offset: int)

  const NANOS_PER_SECOND := 1_000_000_000
  const SECONDS_PER_DAY := 86400

  /** Go's zero time.Time, 0001-01-01 00:00:00 UTC. */
  const ZERO_TIME := Time(-62135596800 * NANOS_PER_SECOND, 0)

  function Unix(t: Time): int {
    t.nanos / NANOS_PER_SECOND
  }

  function LocalSeconds(t: Time): int {
    Unix(t) + 60 * t.offset
  }

  function LocalDate(t: Time): Date {
    DateOf(LocalSeconds(t) / SECONDS_PER_DAY + EPOCH_DAY)
  }

  function SecondOfDay(t: Time): (s: nat)
    ensures s < SECONDS_PER_DAY
  {
    LocalSeconds(t) % SECONDS_PER_DAY
  }

  function Nanosecond(t: Time): (n: nat)
    ensures n < NANOS_PER_SECOND
  {
    t.nanos % NANOS_PER_SECOND
  }

  predicate FourDigitYear(t: Time) {
    0 <= LocalDate(t).year < 10000
  }

  /** The time that a clock in zone `offset` shows as `date`, `second` and `nanos`. */
  function At(date: Date, second: nat, nanos: nat, offset: int): Time
    requires date.year >= 0 && ValidDate(date)
  {
    Time(((DayNumber(date) - EPOCH_DAY) * SECONDS_PER_DAY + second - 60 * offset) * NANOS_PER_SECOND + nanos, offset)
  }

  // ---------------------------------------------------------------- formatting

  function YearText(y: int): string {
    if y < 0 then "-" + PadMin(-y, 4) else PadMin(y, 4)
  }

  function DateText(d: Date, separator: char): string {
    YearText(d.year) + ([separator] + (Pad(d.month, 2) + ([separator] + Pad(d.day, 2))))
  }

  function ClockText(second: nat): string {
    Pad(second / 3600, 2) + (":" + (Pad(second / 60 % 60, 2) + (":" + Pad(second % 60, 2))))
  }

  /** The digits of `n` / 10^w after the decimal point, without trailing zeros. */
  function FractionDigits(n: nat, w: nat): (s: string)
    requires n < Pow10(w)
    ensures |s| <= w && AllDigits(s) && (s == "" <==> n == 0)
  {
    if n == 0 then ""
    else if n % 10 == 0 then FractionDigits(n / 10, w - 1)
    else Pad(n, w)
  }

  lemma NanosFit(n: nat)
    ensures n < NANOS_PER_SECOND <==> n < Pow10(9)
  {
    assert Pow10(3) == 1000;
    assert Pow10(6) == 1000 * Pow10(3);
    assert Pow10(9) == 1000 * Pow10(6);
  }

  function FractionText(nanos: nat): string
    requires nanos < NANOS_PER_SECOND
  {
    NanosFit(nanos);
    if nanos == 0 then "" else "." + FractionDigits(nanos, 9)
  }

  function OffsetText(offset: int): (s: string)
    ensures s != "" && (s[0] == '+' || s[0] == '-')
  {
    var minutes := if offset < 0 then -offset else offset;
    (if offset < 0 then "-" else "+") + (PadMin(minutes / 60, 2) + (":" + Pad(minutes % 60, 2)))
  }

  function DateAndClock(t: Time, separator: char): string {
    DateText(LocalDate(t), '-') + ([separator] + ClockText(SecondOfDay(t)))
  }

  /** The column text the SQLite driver writes: 2006-01-02 15:04:05.999999999-07:00. */
  function StoredText(t: Time): string {
    DateAndClock(t, ' ') + (FractionText(Nanosecond(t)) + OffsetText(t.offset))
  }

  /** RFC 3339 with nanoseconds, the text database/sql hands back for a timestamp column. */
  function Rfc3339Text(t: Time): string {
    DateAndClock(t, 'T') + (FractionText(Nanosecond(t)) + (if t.offset == 0 then "Z" else OffsetText(t.offset)))
  }

  // ---------------------------------------------------------------- parsing

  datatype ZoneFormat = NoZone | Numeric | ZuluOrNumeric

  /** A layout: the date/clock separator, whether it spells out a fraction, and its zone. */
  datatype Layout = Layout(separator: char, fraction: bool, zone: ZoneFormat)

  const LAYOUTS: seq<Layout> := [
    Layout('T', true, ZuluOrNumeric),
    Layout('T', false, ZuluOrNumeric),
    Layout(' ', true, Numeric),
    Layout(' ', true, NoZone),
    Layout(' ', false, NoZone)
  ]

  function TakeNumber(s: string, width: nat): Option<(nat, string)> {
    if |s| >= width && AllDigits(s[..width]) then Some((Value(s[..width]), s[width..])) else None
  }

  function TakeChar(s: string, c: char): Option<string> {
    if s != "" && s[0] == c then Some(s[1..]) else None
  }

  function DropSpaces(s: string): string {
    if s != "" && s[0] == ' ' then DropSpaces(s[1..]) else s
  }

  /** A space in a layout stands for any number of spaces, but text before the hour needs at least one. */
  function TakeSeparator(s: string, c: char): Option<string> {
    var rest :- TakeChar(s, c);
    Some(if c == ' ' then DropSpaces(rest) else rest)
  }

  function TakeDate(s: string): (r: Option<(Date, string)>)
    ensures r.Some? ==> 0 <= r.value.0.year && ValidDate(r.value.0)
  {
    var (year, s1) :- TakeNumber(s, 4);
    var s2 :- TakeChar(s1, '-');
    var (month, s3) :- TakeNumber(s2, 2);
    var s4 :- TakeChar(s3, '-');
    var (day, s5) :- TakeNumber(s4, 2);
    if ValidDate(Date(year, month, day)) then Some((Date(year, month, day), s5)) else None
  }

  /** Hours may have one digit, minutes and seconds have two. */
  function TakeHour(s: string): Option<(nat, string)> {
    if |s| >= 2 && IsDigit(s[0]) && !IsDigit(s[1]) then TakeNumber(s, 1)
    else if |s| == 1 then TakeNumber(s, 1)
    else TakeNumber(s, 2)
  }

  function TakeClock(s: string): Option<(nat, string)> {
    var (hour, s1) :- TakeHour(s);
    var s2 :- TakeChar(s1, ':');
    var (minute, s3) :- TakeNumber(s2, 2);
    var s4 :- TakeChar(s3, ':');
    var (second, s5) :- TakeNumber(s4, 2);
    if hour < 24 && minute < 60 && second < 60 then Some((hour * 3600 + minute * 60 + second, s5)) else None
  }

  predicate HasFraction(s: string) {
    |s| >= 2 && (s[0] == '.' || s[0] == ',') && IsDigit(s[1])
  }

  function DigitRun(s: string): (k: nat)
    ensures k <= |s| && AllDigits(s[..k])
  {
    if s != "" && IsDigit(s[0]) then 1 + DigitRun(s[1..]) else 0
  }

  /** A digit string as a fraction of 10^w; digits past the w-th are dropped. */
  function Scaled(s: string, w: nat): nat
    requires AllDigits(s)
  {
    if |s| > w then Value(s[..w]) else if |s| == w then Value(s) else 10 * Scaled(s, w - 1)
  }

  function TakeFraction(s: string): (nat, string)
    requires HasFraction(s)
  {
    var k := DigitRun(s[1..]);
    (Scaled(s[1..][..k], 9), s[1..][k..])
  }

  function TakeZone(s: string, zone: ZoneFormat): Option<(int, string)> {
    if zone.NoZone? then Some((0, s))
    else if zone.ZuluOrNumeric? && s != "" && s[0] == 'Z' then Some((0, s[1..]))
    else
      var (negative, s1) :- if s != "" && s[0] in "+-" then Some((s[0] == '-', s[1..])) else None;
      var (hours, s2) :- TakeNumber(s1, 2);
      var s3 :- TakeChar(s2, ':');
      var (minutes, s4) :- TakeNumber(s3, 2);
      if hours <= 24 && minutes <= 60 then
        var offset := hours * 60 + minutes;
        Some((if negative then -offset else offset, s4))
      else None
  }

  /** Go's time.Parse for one layout. A fraction after the seconds is taken whether or not the layout has one. */
  function ParseLayout(layout: Layout, s: string): Option<Time> {
    var (date, s1) :- TakeDate(s);
    var s2 :- TakeSeparator(s1, layout.separator);
    var (second, s3) :- TakeClock(s2);
    var (nanos, offset) :- ParseTail(layout, s3);
    Some(At(date, second, nanos, offset))
  }

  /** What may follow the seconds: a fraction, a zone, and nothing more. */
  function ParseTail(layout: Layout, s: string): Option<(nat, int)> {
    var (nanos, s1) := if !layout.fraction && HasFraction(s) then TakeFraction(s) else (0, s);
    var (nanos', s2) := if layout.fraction && HasFraction(s1) then TakeFraction(s1) else (nanos, s1);
    var (offset, s3) :- TakeZone(s2, layout.zone);
    if s3 == "" then Some((nanos', offset)) else None
  }

  function FirstMatch(layouts: seq<Layout>, s: string): Time {
    if layouts == [] then ZERO_TIME
    else
      var r := ParseLayout(layouts[0], s);
      if r.Some? then r.value else FirstMatch(layouts[1..], s)
  }

  predicate IsSpace(c: char) {
    c in "\t\n\U{0B}\U{0C}\r \U{85}\U{A0}\U{1680}\U{2028}\U{2029}\U{202F}\U{205F}\U{3000}"
    || '\U{2000}' <= c <= '\U{200A}'
  }

  function TrimSpace(s: string): string {
    if s == "" then ""
    else if IsSpace(s[0]) then TrimSpace(s[1..])
    else if IsSpace(s[|s| - 1]) then TrimSpace(s[..|s| - 1])
    else s
  }

  function ParseSQLiteTime(text: string): Time {
    var s := TrimSpace(text);
    if s == "" then ZERO_TIME else FirstMatch(LAYOUTS, s)
  }

  // ---------------------------------------------------------------- exactness

  lemma TakePadded(n: nat, width: nat, rest: string)
    requires n < Pow10(width)
    ensures TakeNumber(Pad(n, width) + rest, width) == Some((n, rest))
  {
    var s := Pad(n, width) + rest;
    assert s[..width] == Pad(n, width) && s[width..] == rest;
    PadValue(n, width);
  }

  lemma TakeLiteral(c: char, rest: string)
    ensures TakeChar([c] + rest, c) == Some(rest)
  {
    assert ([c] + rest)[1..] == rest;
  }

  lemma Pow10Two()
    ensures Pow10(1) == 10 && Pow10(2) == 100 && Pow10(4) == 10000
  {
    assert Pow10(1) == 10 * Pow10(0);
    assert Pow10(2) == 10 * Pow10(1);
    assert Pow10(3) == 10 * Pow10(2);
  }

  lemma TakeDateText(d: Date, rest: string)
    requires ValidDate(d) && 0 <= d.year < 10000
    ensures TakeDate(DateText(d, '-') + rest) == Some((d, rest))
  {
    Pow10Two();
    var r5 := Pad(d.day, 2) + rest;
    var r4 := "-" + r5;
    var r3 := Pad(d.month, 2) + r4;
    var r2 := "-" + r3;
    assert DateText(d, '-') + rest == Pad(d.year, 4) + r2;
    TakePadded(d.year, 4, r2);
    TakeLiteral('-', r3);
    TakePadded(d.month, 2, r4);
    TakeLiteral('-', r5);
    TakePadded(d.day, 2, rest);
  }

  lemma TakeClockText(second: nat, rest: string)
    requires second < SECONDS_PER_DAY
    ensures TakeClock(ClockText(second) + rest) == Some((second, rest))
  {
    Pow10Two();
    var h, m, s := second / 3600, second / 60 % 60, second % 60;
    assert h < 24 && m < 60 && h * 3600 + m * 60 + s == second;
    var r5 := Pad(s, 2) + rest;
    var r4 := ":" + r5;
    var r3 := Pad(m, 2) + r4;
    var r2 := ":" + r3;
    assert ClockText(second) + rest == Pad(h, 2) + r2;
    TakePadded(h, 2, r2);
    TakeLiteral(':', r3);
    TakePadded(m, 2, r4);
    TakeLiteral(':', r5);
    TakePadded(s, 2, rest);
  }

  lemma {:induction false} ScaledFraction(n: nat, w: nat)
    requires n < Pow10(w)
    ensures Scaled(FractionDigits(n, w), w) == n
  {
    if n == 0 {
      ScaledNothing(w);
    } else if n % 10 == 0 {
      ScaledFraction(n / 10, w - 1);
    } else {
      PadValue(n, w);
    }
  }

  lemma {:induction false} ScaledNothing(w: nat)
    ensures Scaled("", w) == 0
  {
    if w > 0 {
      ScaledNothing(w - 1);
    }
  }

  lemma {:induction false} DigitRunConcat(digits: string, rest: string)
    requires AllDigits(digits) && (rest != "" ==> !IsDigit(rest[0]))
    ensures DigitRun(digits + rest) == |digits|
  {
    if digits == "" {
      assert digits + rest == rest;
    } else {
      assert (digits + rest)[1..] == digits[1..] + rest;
      DigitRunConcat(digits[1..], rest);
    }
  }

  /** What follows a fraction in both texts: a zone, never a digit or a point. */
  predicate StartsZone(s: string) {
    s != "" && (s[0] == '+' || s[0] == '-' || s[0] == 'Z')
  }

  lemma TakeFractionOf(digits: string, rest: string)
    requires digits != "" && AllDigits(digits) && StartsZone(rest)
    ensures var s := "." + (digits + rest);
            HasFraction(s) && TakeFraction(s) == (Scaled(digits, 9), rest)
  {
    hide Scaled;
    var s := "." + (digits + rest);
    assert s[1..] == digits + rest;
    assert s[1] == digits[0];
    DigitRunConcat(digits, rest);
    assert (digits + rest)[..|digits|] == digits && (digits + rest)[|digits|..] == rest;
  }

  lemma FractionTextIs(nanos: nat, rest: string)
    requires 0 < nanos < NANOS_PER_SECOND
    ensures nanos < Pow10(9) && FractionText(nanos) + rest == "." + (FractionDigits(nanos, 9) + rest)
  {
    hide FractionDigits, Pow10;
    NanosFit(nanos);
  }

  lemma TakeFractionText(nanos: nat, rest: string)
    requires nanos < NANOS_PER_SECOND && StartsZone(rest)
    ensures var s := FractionText(nanos) + rest;
            if nanos == 0 then !HasFraction(s) && s == rest
            else HasFraction(s) && TakeFraction(s) == (nanos, rest)
  {
    if nanos > 0 {
      hide *;
      FractionTextIs(nanos, rest);
      TakeFractionOf(FractionDigits(nanos, 9), rest);
      ScaledFraction(nanos, 9);
    } else {
      assert FractionText(nanos) + rest == rest;
    }
  }

  /** Zone offsets the parser accepts: up to 24 hours and 59 minutes either way. */
  predicate OffsetInRange(offset: int) {
    -1500 < offset < 1500
  }

  lemma TakeOffsetText(offset: int, zone: ZoneFormat)
    requires OffsetInRange(offset) && !zone.NoZone?
    ensures TakeZone(OffsetText(offset), zone) == Some((offset, ""))
  {
    Pow10Two();
    var minutes := if offset < 0 then -offset else offset;
    var h, m := minutes / 60, minutes % 60;
    assert h <= 24 && m < 60 && h * 60 + m == minutes;
    var sign := if offset < 0 then '-' else '+';
    var r3 := Pad(m, 2) + "";
    var r2 := ":" + r3;
    var r1 := Pad(h, 2) + r2;
    assert OffsetText(offset) == [sign] + r1;
    assert ([sign] + r1)[1..] == r1;
    TakePadded(h, 2, r2);
    TakeLiteral(':', r3);
    TakePadded(m, 2, "");
  }

  lemma TimeFromClock(t: Time)
    requires FourDigitYear(t)
    ensures At(LocalDate(t), SecondOfDay(t), Nanosecond(t), t.offset) == t
  {
    var day := LocalSeconds(t) / SECONDS_PER_DAY + EPOCH_DAY;
    FourDigitYears(day);
    DateFromDayNumber(0, day);
    assert DayNumber(LocalDate(t)) == day;
    assert LocalSeconds(t) == (day - EPOCH_DAY) * SECONDS_PER_DAY + SecondOfDay(t);
  }

  function ZoneText(t: Time, separator: char): string {
    if separator == 'T' && t.offset == 0 then "Z" else OffsetText(t.offset)
  }

  function Formatted(t: Time, separator: char): string {
    DateAndClock(t, separator) + (FractionText(Nanosecond(t)) + ZoneText(t, separator))
  }

  predicate LayoutReads(layout: Layout, separator: char) {
    layout.zone == if separator == 'T' then ZuluOrNumeric else Numeric
  }

  lemma ParseTailFormatted(t: Time, layout: Layout, separator: char)
    requires OffsetInRange(t.offset) && LayoutReads(layout, separator)
    ensures ParseTail(layout, FractionText(Nanosecond(t)) + ZoneText(t, separator)) == Some((Nanosecond(t), t.offset))
  {
    var zone := ZoneText(t, separator);
    TakeFractionText(Nanosecond(t), zone);
    if zone != "Z" {
      TakeOffsetText(t.offset, layout.zone);
    }
  }

  lemma ParseHead(t: Time, layout: Layout, separator: char, tail: string)
    requires FourDigitYear(t) && (separator == 'T' || separator == ' ')
    ensures var r := ParseLayout(layout, DateAndClock(t, separator) + tail);
            var end := ParseTail(layout, tail);
            if layout.separator != separator || end.None? then r.None?
            else r == Some(At(LocalDate(t), SecondOfDay(t), end.value.0, end.value.1))
  {
    var r2 := ClockText(SecondOfDay(t)) + tail;
    assert DateAndClock(t, separator) + tail == DateText(LocalDate(t), '-') + ([separator] + r2);
    TakeDateText(LocalDate(t), [separator] + r2);
    TakeLiteral(separator, r2);
    assert r2[0] == Pad(SecondOfDay(t) / 3600, 2)[0];
    TakeClockText(SecondOfDay(t), tail);
  }

  /** The layout made for a text reads it exactly; no layout with the other separator reads it at all. */
  lemma ParseFormatted(t: Time, layout: Layout, separator: char)
    requires FourDigitYear(t) && OffsetInRange(t.offset) && (separator == 'T' || separator == ' ')
    requires layout.separator == separator ==> LayoutReads(layout, separator)
    ensures ParseLayout(layout, Formatted(t, separator)) == if layout.separator == separator then Some(t) else None
  {
    ParseHead(t, layout, separator, FractionText(Nanosecond(t)) + ZoneText(t, separator));
    if layout.separator == separator {
      ParseTailFormatted(t, layout, separator);
      TimeFromClock(t);
    }
  }

  lemma ZoneTextEnds(t: Time, separator: char)
    ensures var z := ZoneText(t, separator); z != "" && StartsZone(z) && !IsSpace(z[|z| - 1])
  {
    var minutes := if t.offset < 0 then -t.offset else t.offset;
    var m := Pad(minutes % 60, 2);
    var z := OffsetText(t.offset);
    assert z[|z| - 1] == m[1] && IsDigit(m[1]);
  }

  lemma StartsWithDigit(t: Time, separator: char)
    requires FourDigitYear(t)
    ensures var s := DateAndClock(t, separator); s != "" && IsDigit(s[0])
  {
    Pow10Two();
    var year := Pad(LocalDate(t).year, 4);
    assert YearText(LocalDate(t).year) == year;
    assert DateText(LocalDate(t), '-')[0] == year[0];
  }

  lemma FormattedIsTrimmed(t: Time, separator: char)
    requires FourDigitYear(t)
    ensures var s := Formatted(t, separator); s != "" && TrimSpace(s) == s
  {
    hide DateAndClock, FractionText, ZoneText, IsSpace, FourDigitYear;
    StartsWithDigit(t, separator);
    ZoneTextEnds(t, separator);
    DigitIsNoSpace(DateAndClock(t, separator)[0]);
    TrimmedAlready(DateAndClock(t, separator), FractionText(Nanosecond(t)), ZoneText(t, separator));
  }

  lemma DigitIsNoSpace(c: char)
    requires IsDigit(c)
    ensures !IsSpace(c)
  {
  }

  lemma TrimmedAlready(x: string, y: string, z: string)
    requires x != "" && z != "" && !IsSpace(x[0]) && !IsSpace(z[|z| - 1])
    ensures TrimSpace(x + (y + z)) == x + (y + z)
  {
    hide IsSpace;
    var s := x + (y + z);
    assert s[0] == x[0] && s[|s| - 1] == z[|z| - 1];
  }

  /**
   The queue's two timestamp texts are read back as the very same instant and offset, whichever
   layouts fail before the right one.
   */
  lemma TimestampTextsAreExact(t: Time)
    requires FourDigitYear(t) && OffsetInRange(t.offset)
    ensures ParseSQLiteTime(StoredText(t)) == t
    ensures ParseSQLiteTime(Rfc3339Text(t)) == t
  {
    FormattedIsTrimmed(t, ' ');
    FormattedIsTrimmed(t, 'T');
    ParseFormatted(t, LAYOUTS[0], 'T');
    ParseFormatted(t, LAYOUTS[0], ' ');
    ParseFormatted(t, LAYOUTS[1], ' ');
    ParseFormatted(t, LAYOUTS[2], ' ');
    assert LAYOUTS[1..][1..][0] == LAYOUTS[2];
    assert Formatted(t, ' ') == StoredText(t) && Formatted(t, 'T') == Rfc3339Text(t);
    assert FirstMatch(LAYOUTS, StoredText(t)) == FirstMatch(LAYOUTS[1..], StoredText(t)) == FirstMatch(LAYOUTS[1..][1..], StoredText(t));
  }

  lemma FractionAlone(nanos: nat, layout: Layout)
    requires nanos < NANOS_PER_SECOND
    ensures ParseTail(layout, FractionText(nanos)) == if layout.zone.NoZone? then Some((nanos, 0)) else None
  {
    NanosFit(nanos);
    if nanos > 0 {
      var digits := FractionDigits(nanos, 9);
      DigitRunConcat(digits, "");
      assert digits + "" == digits;
      assert FractionText(nanos)[1..] == digits && digits[..|digits|] == digits && digits[|digits|..] == "";
      ScaledFraction(nanos, 9);
    }
  }

  lemma TrimmedEnds(s: string)
    requires s != "" && !IsSpace(s[0]) && !IsSpace(s[|s| - 1])
    ensures TrimSpace(s) == s
  {
    hide IsSpace;
  }

  lemma ZonelessIsTrimmed(t: Time)
    requires FourDigitYear(t)
    ensures var s := DateAndClock(t, ' ') + FractionText(Nanosecond(t)); s != "" && TrimSpace(s) == s
  {
    hide FractionDigits, LocalDate, SecondOfDay, Nanosecond, FourDigitYear, IsSpace;
    var s := DateAndClock(t, ' ') + FractionText(Nanosecond(t));
    StartsWithDigit(t, ' ');
    var second := Pad(SecondOfDay(t) % 60, 2);
    assert DateAndClock(t, ' ')[|DateAndClock(t, ' ')| - 1] == second[1] && IsDigit(second[1]);
    NanosFit(Nanosecond(t));
    DigitIsNoSpace(s[0]);
    DigitIsNoSpace(s[|s| - 1]);
    TrimmedEnds(s);
  }

  /** A column text without a zone, as SQLite's own CURRENT_TIMESTAMP writes it, is read as UTC. */
  lemma ZonelessTextIsUTC(t: Time)
    requires FourDigitYear(t) && t.offset == 0
    ensures ParseSQLiteTime(DateAndClock(t, ' ') + FractionText(Nanosecond(t))) == t
  {
    hide ParseLayout, DateAndClock, FractionText, FourDigitYear, Nanosecond;
    var s := DateAndClock(t, ' ') + FractionText(Nanosecond(t));
    ZonelessIsTrimmed(t);
    forall layout | layout in LAYOUTS
      ensures ParseLayout(layout, s) == if layout.separator == ' ' && layout.zone.NoZone? then Some(t) else None
    {
      ParseHead(t, layout, ' ', FractionText(Nanosecond(t)));
      FractionAlone(Nanosecond(t), layout);
      TimeFromClock(t);
    }
    FractionLayoutsAreRedundant(s);
    FirstOf(LAYOUTS[0], [LAYOUTS[2], LAYOUTS[3]], s);
    FirstOf(LAYOUTS[2], [LAYOUTS[3]], s);
    FirstOf(LAYOUTS[3], [], s);
    assert [LAYOUTS[0]] + [LAYOUTS[2], LAYOUTS[3]] == [LAYOUTS[0], LAYOUTS[2], LAYOUTS[3]] && [LAYOUTS[2]] + [LAYOUTS[3]] == [LAYOUTS[2], LAYOUTS[3]];
    assert [LAYOUTS[3]] + [] == [LAYOUTS[3]];
  }

  /** A text that does not even start with a digit is read as Go's zero time. */
  lemma TextWithoutDateIsZero(text: string)
    requires TrimSpace(text) == "" || !IsDigit(TrimSpace(text)[0])
    ensures ParseSQLiteTime(text) == Time(-62_135_596_800_000_000_000, 0)
  {
    hide TrimSpace;
    var s := TrimSpace(text);
    if s != "" {
      forall layout: Layout
        ensures ParseLayout(layout, s) == None
      {
        assert !AllDigits(s[..if |s| < 4 then |s| else 4]) by { assert s[..if |s| < 4 then |s| else 4][0] == s[0]; }
      }
      NothingMatches(LAYOUTS, s);
    }
  }

  lemma {:induction false} NothingMatches(layouts: seq<Layout>, s: string)
    requires forall layout: Layout :: ParseLayout(layout, s) == None
    ensures FirstMatch(layouts, s) == ZERO_TIME
  {
    hide ParseLayout;
    if layouts != [] {
      NothingMatches(layouts[1..], s);
    }
  }

  lemma ExampleParts(t: Time)
    requires t == Time(86_401_500_000_000, 0)
    ensures LocalDate(t) == Date(1970, 1, 2) && SecondOfDay(t) == 1 && Nanosecond(t) == 500_000_000
  {
    hide DateOf;
    EpochDate(EPOCH_DAY, Date(1970, 1, 1));
    assert LocalSeconds(t) / SECONDS_PER_DAY == 1;
  }

  /** Five tenths are written as one digit, however small the unit. */
  lemma {:induction false} FiveTenths(k: nat)
    ensures 5 * Pow10(k) < Pow10(k + 1) && FractionDigits(5 * Pow10(k), k + 1) == "5"
  {
    if k == 0 {
      assert Pad(5, 1) == "" + "5";
    } else {
      FiveTenths(k - 1);
      assert Pow10(k) == 10 * Pow10(k - 1);
    }
  }

  lemma Halves(n: nat)
    requires n == 500_000_000
    ensures n < NANOS_PER_SECOND && FractionText(n) == ".5"
  {
    hide FractionDigits;
    NanosFit(n);
    NanosFit(NANOS_PER_SECOND - 1);
    HundredMillion();
    FiveTenths(8);
  }

  lemma HundredMillion()
    ensures Pow10(8) == 100_000_000
  {
    assert Pow10(4) == 10_000;
    assert Pow10(6) == 100 * Pow10(4);
  }

  lemma TwoDigits()
    ensures Pad(0, 2) == "00" && Pad(1, 2) == "01" && Pad(2, 2) == "02" && YearText(1970) == "1970"
  {
    assert Pad(0, 1) == "0";
    assert Pad(19, 2) == "1" + "9" && Pad(197, 3) == "19" + "7" && Pad(1970, 4) == "197" + "0";
  }

  lemma ExampleDateAndClock(t: Time, separator: char)
    requires LocalDate(t) == Date(1970, 1, 2) && SecondOfDay(t) == 1
    ensures DateAndClock(t, separator) == "1970-01-02" + ([separator] + "00:00:01")
  {
    hide LocalDate, SecondOfDay, Pad, YearText;
    TwoDigits();
  }

  /** One text spelled out: a second and a half into the day after the epoch, at UTC. */
  lemma StoredTextExample(t: Time)
    requires t == Time(86_401_500_000_000, 0)
    ensures StoredText(t) == "1970-01-02 00:00:01.5+00:00" && Rfc3339Text(t) == "1970-01-02T00:00:01.5Z" && Unix(t) == 86_401
  {
    hide LocalDate, SecondOfDay, Nanosecond, DateAndClock, FractionText, OffsetText;
    ExampleParts(t);
    Halves(Nanosecond(t));
    ExampleDateAndClock(t, ' ');
    ExampleDateAndClock(t, 'T');
    OffsetZero();
  }

  lemma OffsetZero()
    ensures OffsetText(0) == "+00:00"
  {
    TwoDigits();
    assert PadMin(0, 2) == "00";
  }

  lemma StoredTextIsNotEmpty(t: Time)
    ensures StoredText(t) != ""
  {
    assert |DateAndClock(t, ' ')| > 0;
  }

  lemma FractionIsOptional(layout: Layout, s: string)
    ensures ParseLayout(layout.(fraction := true), s) == ParseLayout(layout.(fraction := false), s)
  {
  }

  lemma FirstOf(layout: Layout, rest: seq<Layout>, s: string)
    ensures FirstMatch([layout] + rest, s) == if ParseLayout(layout, s).Some? then ParseLayout(layout, s).value else FirstMatch(rest, s)
  {
    assert ([layout] + rest)[1..] == rest;
  }

  /** Two of the five layouts never decide: whatever they read, the layout before them has read already. */
  lemma FractionLayoutsAreRedundant(s: string)
    ensures FirstMatch(LAYOUTS, s) == FirstMatch([LAYOUTS[0], LAYOUTS[2], LAYOUTS[3]], s)
  {
    hide ParseLayout, FirstMatch;
    var a, b, c, d, e := LAYOUTS[0], LAYOUTS[1], LAYOUTS[2], LAYOUTS[3], LAYOUTS[4];
    FractionIsOptional(a, s);
    FractionIsOptional(d, s);
    FirstOf(a, [b, c, d, e], s);
    FirstOf(b, [c, d, e], s);
    FirstOf(c, [d, e], s);
    FirstOf(d, [e], s);
    FirstOf(e, [], s);
    FirstOf(a, [c, d], s);
    FirstOf(c, [d], s);
    FirstOf(d, [], s);
    assert LAYOUTS == [a] + [b, c, d, e];
    assert [b, c, d, e] == [b] + [c, d, e];
    assert [c, d, e] == [c] + [d, e];
    assert [d, e] == [d] + [e];
    assert [e] == [e] + [] && [d] == [d] + [];
    assert [a, c, d] == [a] + [c, d] && [c, d] == [c] + [d];
  }

  // ---------------------------------------------------------------- order

  lemma LessSandwich(x: string, a: string, y: string, b: string, c: char)
    requires |x| == |y|
    ensures Less(x + ([c] + a), y + ([c] + b)) <==> Less(x, y) || (x == y && Less(a, b))
    ensures x + ([c] + a) == y + ([c] + b) <==> x == y && a == b
  {
    LessConcat(x, [c] + a, y, [c] + b);
    LessConcat([c], a, [c], b);
    LessTotal([c], [c]);
  }

  lemma ThreeFieldsOrder(x1: string, x2: string, x3: string, y1: string, y2: string, y3: string, c: char)
    requires |x1| == |y1| && |x2| == |y2|
    ensures var x, y := x1 + ([c] + (x2 + ([c] + x3))), y1 + ([c] + (y2 + ([c] + y3)));
            (Less(x, y) <==> Less(x1, y1) || (x1 == y1 && (Less(x2, y2) || (x2 == y2 && Less(x3, y3)))))
            && (x == y <==> x1 == y1 && x2 == y2 && x3 == y3)
  {
    var x, y := x2 + ([c] + x3), y2 + ([c] + y3);
    LessSandwich(x1, x, y1, y, c);
    LessSandwich(x2, x3, y2, y3, c);
  }

  lemma DateTextOrder(a: Date, b: Date, c: char)
    requires ValidDate(a) && ValidDate(b) && 0 <= a.year < 10000 && 0 <= b.year < 10000
    ensures |DateText(a, c)| == 10
    ensures Less(DateText(a, c), DateText(b, c)) <==> Before(a, b)
    ensures DateText(a, c) == DateText(b, c) <==> a == b
  {
    Pow10Two();
    PadOrder(a.year, b.year, 4);
    PadOrder(a.month, b.month, 2);
    PadOrder(a.day, b.day, 2);
    ThreeFieldsOrder(Pad(a.year, 4), Pad(a.month, 2), Pad(a.day, 2), Pad(b.year, 4), Pad(b.month, 2), Pad(b.day, 2), c);
  }

  /** A second of the day split as the clock shows it; later seconds show lexicographically later clocks. */
  lemma ClockParts(a: nat, b: nat)
    requires a < SECONDS_PER_DAY && b < SECONDS_PER_DAY
    ensures a / 3600 < 24 && a / 60 % 60 < 60 && a % 60 < 60
    ensures a < b <==> (a / 3600 < b / 3600
                        || (a / 3600 == b / 3600 && (a / 60 % 60 < b / 60 % 60
                        || (a / 60 % 60 == b / 60 % 60 && a % 60 < b % 60))))
  {
    var am, bm := a / 60, b / 60;
    assert am / 60 == a / 3600 && bm / 60 == b / 3600;
    assert a == am * 60 + a % 60 && b == bm * 60 + b % 60;
    assert am == am / 60 * 60 + am % 60 && bm == bm / 60 * 60 + bm % 60;
  }

  lemma ClockTextOrder(a: nat, b: nat)
    requires a < SECONDS_PER_DAY && b < SECONDS_PER_DAY
    ensures |ClockText(a)| == |ClockText(b)|
    ensures Less(ClockText(a), ClockText(b)) <==> a < b
    ensures ClockText(a) == ClockText(b) <==> a == b
  {
    Pow10Two();
    ClockParts(a, b);
    ClockParts(b, a);
    var ah, am, az := a / 3600, a / 60 % 60, a % 60;
    var bh, bm, bz := b / 3600, b / 60 % 60, b % 60;
    PadOrder(ah, bh, 2);
    PadOrder(am, bm, 2);
    PadOrder(az, bz, 2);
    ThreeFieldsOrder(Pad(ah, 2), Pad(am, 2), Pad(az, 2), Pad(bh, 2), Pad(bm, 2), Pad(bz, 2), ':');
  }

  lemma LocalDateOrder(a: Time, b: Time)
    requires FourDigitYear(a) && FourDigitYear(b)
    ensures var m, n := LocalSeconds(a) / SECONDS_PER_DAY, LocalSeconds(b) / SECONDS_PER_DAY;
            (Before(LocalDate(a), LocalDate(b)) <==> m < n) && (LocalDate(a) == LocalDate(b) <==> m == n)
  {
    var m := LocalSeconds(a) / SECONDS_PER_DAY + EPOCH_DAY;
    var n := LocalSeconds(b) / SECONDS_PER_DAY + EPOCH_DAY;
    FourDigitYears(m);
    FourDigitYears(n);
    DateOrder(m, n);
  }

  lemma DateAndClockOrder(a: Time, b: Time, c: char)
    requires FourDigitYear(a) && FourDigitYear(b)
    ensures |DateAndClock(a, c)| == |DateAndClock(b, c)|
    ensures Less(DateAndClock(a, c), DateAndClock(b, c)) <==> LocalSeconds(a) < LocalSeconds(b)
    ensures DateAndClock(a, c) == DateAndClock(b, c) <==> LocalSeconds(a) == LocalSeconds(b)
  {
    LocalDateOrder(a, b);
    DateTextOrder(LocalDate(a), LocalDate(b), '-');
    DateTextOrder(LocalDate(b), LocalDate(a), '-');
    ClockTextOrder(SecondOfDay(a), SecondOfDay(b));
    LessSandwich(DateText(LocalDate(a), '-'), ClockText(SecondOfDay(a)), DateText(LocalDate(b), '-'), ClockText(SecondOfDay(b)), c);
  }

  /** A zone starts with a sign, which sorts below every digit and below the decimal point. */
  predicate StartsSign(s: string) {
    s != "" && (s[0] == '+' || s[0] == '-')
  }

  /** A trimmed fraction against a full one that still has a digit to come. */
  lemma {:induction false} TrimmedAgainstPadded(a: nat, b: nat, w: nat, x: string, z: string)
    requires a < Pow10(w) && b < Pow10(w) && StartsSign(x) && z != "" && IsDigit(z[0])
    ensures Less(FractionDigits(a, w) + x, Pad(b, w) + z) <==> a <= b
    ensures Less(Pad(b, w) + z, FractionDigits(a, w) + x) <==> b < a
  {
    if a == 0 {
      assert FractionDigits(a, w) + x == x;
      assert (Pad(b, w) + z)[0] == if w == 0 then z[0] else Pad(b, w)[0];
    } else if a % 10 == 0 {
      var d := [DigitChar(b % 10)] + z;
      assert Pad(b, w) + z == Pad(b / 10, w - 1) + d;
      TrimmedAgainstPadded(a / 10, b / 10, w - 1, x, d);
    } else {
      PadOrder(a, b, w);
      PadOrder(b, a, w);
      LessConcat(Pad(a, w), x, Pad(b, w), z);
      LessConcat(Pad(b, w), z, Pad(a, w), x);
    }
  }

  lemma PadThen(n: nat, w: nat, rest: string)
    requires 0 < w
    ensures Pad(n, w) + rest == Pad(n / 10, w - 1) + ([DigitChar(n % 10)] + rest)
  {
  }

  lemma {:induction false} FractionDigitsOrder(m: nat, n: nat, w: nat, x: string, y: string)
    requires m < Pow10(w) && n < Pow10(w) && StartsSign(x) && StartsSign(y)
    ensures Less(FractionDigits(m, w) + x, FractionDigits(n, w) + y) <==> m < n || (m == n && Less(x, y))
  {
    if m == 0 || n == 0 {
      FractionAbsent(FractionDigits(m, w), FractionDigits(n, w), x, y);
    } else if m % 10 == 0 && n % 10 == 0 {
      FractionDigitsOrder(m / 10, n / 10, w - 1, x, y);
    } else if m % 10 == 0 {
      var d := [DigitChar(n % 10)] + y;
      PadThen(n, w, y);
      TrimmedAgainstPadded(m / 10, n / 10, w - 1, x, d);
    } else if n % 10 == 0 {
      var d := [DigitChar(m % 10)] + x;
      PadThen(m, w, x);
      TrimmedAgainstPadded(n / 10, m / 10, w - 1, y, d);
    } else {
      PadOrder(m, n, w);
      LessConcat(Pad(m, w), x, Pad(n, w), y);
    }
  }

  lemma FractionAbsent(s: string, t: string, x: string, y: string)
    requires StartsSign(x) && StartsSign(y) && (s == "" || t == "")
    requires s != "" ==> IsDigit(s[0]) || s[0] == '.'
    requires t != "" ==> IsDigit(t[0]) || t[0] == '.'
    ensures Less(s + x, t + y) <==> t != "" || (s == "" && Less(x, y))
  {
    if s == "" {
      assert s + x == x;
    }
    if t == "" {
      assert t + y == y;
    }
  }

  lemma LessAfterPoint(s: string, x: string, t: string, y: string)
    ensures Less(("." + s) + x, ("." + t) + y) <==> Less(s + x, t + y)
  {
    assert ("." + s) + x == "." + (s + x) && ("." + t) + y == "." + (t + y);
    LessConcat(".", s + x, ".", t + y);
    LessTotal(".", ".");
  }

  lemma FractionTextOrder(m: nat, n: nat, x: string, y: string)
    requires m < NANOS_PER_SECOND && n < NANOS_PER_SECOND && StartsSign(x) && StartsSign(y)
    ensures Less(FractionText(m) + x, FractionText(n) + y) <==> m < n || (m == n && Less(x, y))
  {
    NanosFit(m);
    NanosFit(n);
    if m > 0 && n > 0 {
      FractionDigitsOrder(m, n, 9, x, y);
      LessAfterPoint(FractionDigits(m, 9), x, FractionDigits(n, 9), y);
    } else {
      FractionAbsent(FractionText(m), FractionText(n), x, y);
    }
  }

  /** Nanoseconds the wall clock of the time's own zone shows. */
  function LocalNanos(t: Time): int {
    t.nanos + 60 * t.offset * NANOS_PER_SECOND
  }

  /**
   The queue's column sorts by local wall clock first and by the zone's text only on a tie. So the
   queue is in time order exactly as far as the writers' zones agree.
   */
  lemma StoredTextOrder(a: Time, b: Time)
    requires FourDigitYear(a) && FourDigitYear(b)
    ensures Less(StoredText(a), StoredText(b))
       <==> LocalNanos(a) < LocalNanos(b)
            || (LocalNanos(a) == LocalNanos(b) && Less(OffsetText(a.offset), OffsetText(b.offset)))
  {
    DateAndClockOrder(a, b, ' ');
    var x, y := OffsetText(a.offset), OffsetText(b.offset);
    FractionTextOrder(Nanosecond(a), Nanosecond(b), x, y);
    LessConcat(DateAndClock(a, ' '), FractionText(Nanosecond(a)) + x, DateAndClock(b, ' '), FractionText(Nanosecond(b)) + y);
    assert LocalNanos(a) == LocalSeconds(a) * NANOS_PER_SECOND + Nanosecond(a);
    assert LocalNanos(b) == LocalSeconds(b) * NANOS_PER_SECOND + Nanosecond(b);
  }

  /** With one zone offset the column sorts chronologically, to the nanosecond. */
  lemma StoredTextIsChronological(a: Time, b: Time)
    requires FourDigitYear(a) && FourDigitYear(b) && a.offset == b.offset
    ensures Less(StoredText(a), StoredText(b)) <==> a.nanos < b.nanos
  {
    StoredTextOrder(a, b);
    LessTotal(OffsetText(a.offset), OffsetText(b.offset));
  }

  /** When the clocks are put back, a later backup can sort before an earlier one. */
  lemma StoredTextReversesAcrossZones(a: Time, b: Time)
    requires FourDigitYear(a) && FourDigitYear(b)
    requires 0 < b.nanos - a.nanos < 60 * (a.offset - b.offset) * NANOS_PER_SECOND
    ensures Less(StoredText(b), StoredText(a))
  {
    StoredTextOrder(b, a);
  }

  /** The RFC 3339 text would not sort: at UTC a whole second comes after its own fractions. */
  lemma Rfc3339TextIsNotChronological(a: Time, b: Time)
    requires FourDigitYear(a) && FourDigitYear(b) && a.offset == b.offset == 0
    requires Unix(a) == Unix(b) && Nanosecond(a) == 0 < Nanosecond(b)
    ensures a.nanos < b.nanos && Less(Rfc3339Text(b), Rfc3339Text(a))
  {
    DateAndClockOrder(b, a, 'T');
    var x, y := FractionText(Nanosecond(b)) + "Z", FractionText(Nanosecond(a)) + "Z";
    assert x[0] == '.' && y == "Z";
    LessConcat(DateAndClock(b, 'T'), x, DateAndClock(a, 'T'), y);
  }
}
