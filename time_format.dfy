/**
 * The clock-and-day label shown next to the weather results
 * (`getCurrentTimeAndDay` in src/utils.js). The wall-clock reading that the
 * source takes from `new Date()` is passed in: the day of the week (0 is
 * Sunday), the hour of the day and the minute of the hour.
 */
module TimeFormat {
  import opened Wrappers

  /** The day-name table; index 0 is Sunday, as in `Date.prototype.getDay`. */
  const DaysOfWeek: seq<string> :=
    ["Sunday", "Monday", "Tuesday", "Wednesday", "Thursday", "Friday", "Saturday"]

  /** A reading of the clock in 24-hour form. */
  datatype Reading = Reading(day: nat, hours: nat, minutes: nat)

  /** The ranges that `getDay`, `getHours` and `getMinutes` produce. */
  predicate ValidReading(t: Reading) {
    t.day < |DaysOfWeek| && t.hours < 24 && t.minutes < 60
  }

  predicate IsDigit(c: char) {
    '0' <= c <= '9'
  }

  predicate AllDigits(s: string) {
    forall i :: 0 <= i < |s| ==> IsDigit(s[i])
  }

  function DigitValue(c: char): nat
    requires IsDigit(c)
  {
    c as int - '0' as int
  }

  function DigitChar(d: nat): (c: char)
    requires d < 10
    ensures IsDigit(c) && DigitValue(c) == d
  {
    ('0' as int + d) as char
  }

  /** The decimal text of a non-negative integer, as `toString()` and template literals give it. */
  function NatToString(n: nat): (s: string)
    ensures 1 <= |s| && AllDigits(s)
    ensures n < 10 <==> |s| == 1
    ensures n < 100 ==> |s| <= 2
    decreases n
  {
    if n < 10 then [DigitChar(n)] else NatToString(n / 10) + [DigitChar(n % 10)]
  }

  /** The value of a string of decimal digits, most significant first. */
  function ParseDecimal(s: string): nat
    requires AllDigits(s)
    decreases |s|
  {
    if s == [] then 0 else ParseDecimal(s[..|s| - 1]) * 10 + DigitValue(s[|s| - 1])
  }

  /** `String.prototype.padStart` with a one-character fill string. */
  function PadStart(s: string, width: nat, fill: char): (r: string)
    ensures |r| == if |s| >= width then |s| else width
    ensures r[|r| - |s|..] == s
    ensures forall i :: 0 <= i < |r| - |s| ==> r[i] == fill
  {
    if |s| >= width then s else seq(width - |s|, _ => fill) + s
  }

  /** The suffix chosen by `hours >= 12`. */
  function Meridiem(hours: nat): (m: string)
    ensures |m| == 2
    ensures m == "pm" <==> hours >= 12
    ensures m == "am" <==> hours < 12
  {
    if hours >= 12 then "pm" else "am"
  }

  /** `hours %= 12` followed by `hours || 12`: a remainder of 0 shows as 12. */
  function DisplayHour(hours: nat): (h: nat)
    ensures 1 <= h <= 12
    ensures h % 12 == hours % 12
  {
    if hours % 12 == 0 then 12 else hours % 12
  }

  /** The minutes, zero-padded on the left to two characters. */
  function MinutesField(minutes: nat): string {
    PadStart(NatToString(minutes), 2, '0')
  }

  /** The `H:MM` part of the label. */
  function ClockText(hours: nat, minutes: nat): string {
    NatToString(DisplayHour(hours)) + ":" + MinutesField(minutes)
  }

  /** The label `Day H:MMam`: day name, one space, hour, colon, minutes and suffix. */
  function CurrentTimeAndDay(day: nat, hours: nat, minutes: nat): string
    requires day < |DaysOfWeek|
  {
    DaysOfWeek[day] + " " + ClockText(hours, minutes) + Meridiem(hours)
  }

  // ---------------------------------------------------------------------------
  // Properties of the formatter

  lemma {:induction false} ParseNatToString(n: nat)
    ensures ParseDecimal(NatToString(n)) == n
    decreases n
  {
    if n >= 10 {
      ParseNatToString(n / 10);
      var s := NatToString(n);
      assert s[..|s| - 1] == NatToString(n / 10);
    }
  }

  lemma ParseTwoDigits(a: char, b: char)
    requires IsDigit(a) && IsDigit(b)
    ensures ParseDecimal([a, b]) == DigitValue(a) * 10 + DigitValue(b)
  {
    assert [a, b][..1] == [a];
    assert [a][..0] == [];
    assert ParseDecimal([a]) == DigitValue(a);
  }

  /** For minutes 0..59 the field is exactly two digits, `0`-padded, whose value is the input. */
  lemma MinutesFieldTwoDigits(minutes: nat)
    requires minutes < 60
    ensures |MinutesField(minutes)| == 2 && AllDigits(MinutesField(minutes))
    ensures ParseDecimal(MinutesField(minutes)) == minutes
    ensures minutes < 10 <==> MinutesField(minutes)[0] == '0'
  {
    var r := MinutesField(minutes);
    if minutes < 10 {
      var d := DigitChar(minutes);
      assert NatToString(minutes) == [d];
      assert r == ['0', d];
      ParseTwoDigits('0', d);
    } else {
      var hi, lo := DigitChar(minutes / 10), DigitChar(minutes % 10);
      assert NatToString(minutes / 10) == [hi];
      assert r == [hi, lo];
      ParseTwoDigits(hi, lo);
    }
  }

  /** The label starts with `DaysOfWeek[day]` followed by one space. */
  lemma StartsWithDayName(day: nat, hours: nat, minutes: nat)
    requires day < |DaysOfWeek|
    ensures var r, name := CurrentTimeAndDay(day, hours, minutes), DaysOfWeek[day];
      |r| > |name| && r[..|name|] == name && r[|name|] == ' '
  {
  }

  /** The label ends in "pm" exactly when the hour is at least 12, and in "am" otherwise. */
  lemma MeridiemSuffix(day: nat, hours: nat, minutes: nat)
    requires day < |DaysOfWeek|
    ensures var r := CurrentTimeAndDay(day, hours, minutes);
      |r| >= 2 && (r[|r| - 2..] == "pm" <==> hours >= 12) && (r[|r| - 2..] == "am" <==> hours < 12)
  {
    var r := CurrentTimeAndDay(day, hours, minutes);
    assert r[|r| - 2..] == Meridiem(hours);
  }

  lemma TwelveText()
    ensures NatToString(12) == "12"
  {
    assert NatToString(1) == [DigitChar(1)] == "1";
    assert DigitChar(2) == '2';
  }

  /** Hour 0 is shown as 12 with "am". */
  lemma MidnightExample()
    ensures CurrentTimeAndDay(0, 0, 5) == "Sunday 12:05am"
  {
    assert DisplayHour(0) == 12 && Meridiem(0) == "am";
    TwelveText();
    assert NatToString(5) == "5";
    assert MinutesField(5) == "05";
    assert ClockText(0, 5) == "12:05";
    assert DaysOfWeek[0] + " " == "Sunday ";
  }

  /** Hour 12 is shown as 12 with "pm". */
  lemma NoonExample()
    ensures CurrentTimeAndDay(1, 12, 30) == "Monday 12:30pm"
  {
    assert DisplayHour(12) == 12 && Meridiem(12) == "pm";
    TwelveText();
    assert NatToString(3) == "3" && DigitChar(0) == '0';
    assert NatToString(30) == "30";
    assert MinutesField(30) == "30";
    assert ClockText(12, 30) == "12:30";
    assert DaysOfWeek[1] + " " == "Monday ";
  }

  /** Hour 13 is shown as 1 with "pm". */
  lemma AfternoonExample()
    ensures CurrentTimeAndDay(6, 13, 7) == "Saturday 1:07pm"
  {
    assert DisplayHour(13) == 1 && Meridiem(13) == "pm";
    assert NatToString(1) == "1";
    assert NatToString(7) == "7";
    assert MinutesField(7) == "07";
    assert ClockText(13, 7) == "1:07";
    assert DaysOfWeek[6] + " " == "Saturday ";
  }

  // ---------------------------------------------------------------------------
  // The inverse: reading a label back into the 24-hour clock reading

  /** The first index of `x` in `s`, or `|s|` when `x` does not occur. */
  function Find<T(==)>(s: seq<T>, x: T): (i: nat)
    ensures i <= |s|
    ensures i < |s| ==> s[i] == x
    ensures forall j :: 0 <= j < i ==> s[j] != x
  {
    if s == [] then 0 else if s[0] == x then 0 else 1 + Find(s[1..], x)
  }

  /** The parts before and after the first `x` in `s`, if `x` occurs. */
  function SplitAt<T(==)>(s: seq<T>, x: T): (r: Option<(seq<T>, seq<T>)>)
    ensures r.Some? ==> s == r.value.0 + [x] + r.value.1 && x !in r.value.0
    ensures r.None? <==> x !in s
  {
    var i := Find(s, x);
    if i == |s| then None else Some((s[..i], s[i + 1..]))
  }

  /** The 24-hour hour that a 12-hour hour and its suffix denote. */
  function To24Hour(hour12: nat, pm: bool): (h: nat)
    requires 1 <= hour12 <= 12
    ensures h < 24
    ensures h >= 12 <==> pm
    ensures DisplayHour(h) == hour12
  {
    hour12 % 12 + (if pm then 12 else 0)
  }

  /**
   * Reads `H:MM` with its suffix back. The hour must be 1..12 without a
   * leading zero and the minutes exactly two digits, as the formatter writes them.
   */
  function ParseClock(clock: string, suffix: string): (r: Option<(nat, nat)>)
    ensures r.Some? ==> r.value.0 < 24 && r.value.1 < 60
  {
    match SplitAt(clock, ':')
    case None => None
    case Some((hourText, minuteText)) =>
      if suffix != "am" && suffix != "pm" then None
      else if hourText == [] || !AllDigits(hourText) || hourText[0] == '0' then None
      else if |minuteText| != 2 || !AllDigits(minuteText) then None
      else
        var hour12, minutes := ParseDecimal(hourText), ParseDecimal(minuteText);
        if hour12 < 1 || hour12 > 12 || minutes >= 60 then None
        else Some((To24Hour(hour12, suffix == "pm"), minutes))
  }

  /** Reads `Day H:MMam` back: the day name, then the clock and its two-letter suffix. */
  function ParseTimeAndDay(s: string): (r: Option<Reading>)
    ensures r.Some? ==> ValidReading(r.value)
  {
    match SplitAt(s, ' ')
    case None => None
    case Some((name, rest)) =>
      var day := Find(DaysOfWeek, name);
      if day == |DaysOfWeek| || |rest| < 2 then None
      else match ParseClock(rest[..|rest| - 2], rest[|rest| - 2..])
        case None => None
        case Some((hours, minutes)) => Some(Reading(day, hours, minutes))
  }

  lemma FindAfterPrefix<T>(a: seq<T>, x: T, b: seq<T>)
    requires x !in a
    ensures Find(a + [x] + b, x) == |a|
  {
    var s := a + [x] + b;
    assert s[|a|] == x;
    assert forall j :: 0 <= j < |a| ==> s[j] == a[j];
  }

  lemma SplitAtFirst<T>(a: seq<T>, x: T, b: seq<T>)
    requires x !in a
    ensures SplitAt(a + [x] + b, x) == Some((a, b))
  {
    var s := a + [x] + b;
    FindAfterPrefix(a, x, b);
    assert s[..|a|] == a && s[|a| + 1..] == b;
  }

  lemma DayNamesDiffer(i: nat, j: nat)
    requires i < j < |DaysOfWeek|
    ensures DaysOfWeek[i] != DaysOfWeek[j]
  {
    assert DaysOfWeek[i][0] != DaysOfWeek[j][0] || |DaysOfWeek[i]| != |DaysOfWeek[j]|;
  }

  /** Each day name is found at its own index: the names are pairwise distinct. */
  lemma DayNamesDistinct(day: nat)
    requires day < |DaysOfWeek|
    ensures Find(DaysOfWeek, DaysOfWeek[day]) == day
  {
    forall j | 0 <= j < day
      ensures DaysOfWeek[j] != DaysOfWeek[day]
    {
      DayNamesDiffer(j, day);
    }
  }

  lemma DayNameHasNoSpace(day: nat)
    requires day < |DaysOfWeek|
    ensures ' ' !in DaysOfWeek[day]
  {
  }

  /** Reading back the hour and suffix of a 24-hour hour gives that hour. */
  lemma DisplayHourTo24(hours: nat)
    requires hours < 24
    ensures To24Hour(DisplayHour(hours), hours >= 12) == hours
  {
  }

  lemma {:induction false} ParseClockRoundTrip(hours: nat, minutes: nat)
    requires hours < 24 && minutes < 60
    ensures ParseClock(ClockText(hours, minutes), Meridiem(hours)) == Some((hours, minutes))
  {
    var hourText, minuteText := NatToString(DisplayHour(hours)), MinutesField(minutes);
    assert ':' !in hourText by {
      assert forall j :: 0 <= j < |hourText| ==> IsDigit(hourText[j]);
    }
    SplitAtFirst(hourText, ':', minuteText);
    assert ClockText(hours, minutes) == hourText + [':'] + minuteText;
    ParseNatToString(DisplayHour(hours));
    CanonicalNatToString(DisplayHour(hours));
    MinutesFieldTwoDigits(minutes);
    DisplayHourTo24(hours);
    assert Meridiem(hours) == "pm" <==> hours >= 12;
  }

  /** The label regrouped as day name, space, and clock text with its suffix. */
  lemma LabelParts(t: Reading)
    requires t.day < |DaysOfWeek|
    ensures CurrentTimeAndDay(t.day, t.hours, t.minutes)
      == DaysOfWeek[t.day] + [' '] + (ClockText(t.hours, t.minutes) + Meridiem(t.hours))
  {
  }

  /** Where the separators of `name + " " + (h + ":" + m) + suffix` fall, when only they are separators. */
  lemma SeparatorPositions(name: string, h: string, m: string, suffix: string)
    requires ' ' !in name && ':' !in name && AllDigits(h) && AllDigits(m)
    requires ' ' !in suffix && ':' !in suffix
    ensures var r, k, c := name + " " + (h + ":" + m) + suffix, |name|, |name| + 1 + |h|;
      |r| == c + 1 + |m| + |suffix| &&
      r[k] == ' ' && (forall i :: 0 <= i < |r| && i != k ==> r[i] != ' ') &&
      r[c] == ':' && (forall i :: 0 <= i < |r| && i != c ==> r[i] != ':') &&
      r[c + 1..c + 1 + |m|] == m
  {
    var r, k, c := name + " " + (h + ":" + m) + suffix, |name|, |name| + 1 + |h|;
    forall i | 0 <= i < |r|
      ensures r[i] == ' ' <==> i == k
      ensures r[i] == ':' <==> i == c
    {
      if i < k {
        assert r[i] == name[i];
      } else if k < i < c {
        assert r[i] == h[i - k - 1] && IsDigit(r[i]);
      } else if c < i < c + 1 + |m| {
        assert r[i] == m[i - c - 1] && IsDigit(r[i]);
      } else if c + 1 + |m| <= i {
        assert r[i] == suffix[i - c - 1 - |m|];
      }
    }
    assert r[c + 1..c + 1 + |m|] == m;
  }

  lemma DayNameHasNoColon(day: nat)
    requires day < |DaysOfWeek|
    ensures ':' !in DaysOfWeek[day]
  {
  }

  /** The parts of the label that are not separators contain no separator. */
  lemma LayoutParts(t: Reading)
    requires ValidReading(t)
    ensures ' ' !in DaysOfWeek[t.day] && ':' !in DaysOfWeek[t.day]
    ensures AllDigits(NatToString(DisplayHour(t.hours)))
    ensures AllDigits(MinutesField(t.minutes)) && |MinutesField(t.minutes)| == 2
    ensures ' ' !in Meridiem(t.hours) && ':' !in Meridiem(t.hours)
  {
    DayNameHasNoSpace(t.day);
    DayNameHasNoColon(t.day);
    MinutesFieldTwoDigits(t.minutes);
    assert Meridiem(t.hours) == "am" || Meridiem(t.hours) == "pm";
  }

  /** The only space in the label is the one right after the day name. */
  lemma SpaceAfterDayName(t: Reading)
    requires ValidReading(t)
    ensures var r, k := CurrentTimeAndDay(t.day, t.hours, t.minutes), |DaysOfWeek[t.day]|;
      |r| >= k + 6 && r[k] == ' ' && forall i :: 0 <= i < |r| && i != k ==> r[i] != ' '
  {
    LayoutParts(t);
    SeparatorPositions(DaysOfWeek[t.day], NatToString(DisplayHour(t.hours)), MinutesField(t.minutes), Meridiem(t.hours));
  }

  /**
   * The only colon in the label sits five characters from the end, followed by
   * the two-character minutes field and then directly by the suffix.
   */
  lemma ColonBeforeMinutes(t: Reading)
    requires ValidReading(t)
    ensures var r := CurrentTimeAndDay(t.day, t.hours, t.minutes);
      |r| >= 6 && r[|r| - 5] == ':' && (forall i :: 0 <= i < |r| && i != |r| - 5 ==> r[i] != ':') &&
      r[|r| - 4..|r| - 2] == MinutesField(t.minutes) && r[|r| - 2..] == Meridiem(t.hours)
  {
    LabelColonLayout(t);
    ColonTail(CurrentTimeAndDay(t.day, t.hours, t.minutes), DaysOfWeek[t.day], NatToString(DisplayHour(t.hours)),
              MinutesField(t.minutes), Meridiem(t.hours));
  }

  /** `r` is `name + " " + (h + ":" + m) + suffix` with a two-character `m` and `suffix`, and only the joining colon is a colon. */
  predicate ColonLayout(r: string, name: string, h: string, m: string, suffix: string) {
    r == name + " " + (h + ":" + m) + suffix &&
    ':' !in name && AllDigits(h) && AllDigits(m) && ':' !in suffix && |m| == 2 && |suffix| == 2
  }

  /** In such a string the colon sits five characters from the end, followed by `m` and `suffix`. */
  lemma ColonTail(r: string, name: string, h: string, m: string, suffix: string)
    requires ColonLayout(r, name, h, m, suffix)
    ensures |r| >= 6 && r[|r| - 5] == ':' && (forall i :: 0 <= i < |r| && i != |r| - 5 ==> r[i] != ':') &&
      r[|r| - 4..|r| - 2] == m && r[|r| - 2..] == suffix
  {
    var c := |name| + 1 + |h|;
    forall i | 0 <= i < |r| && i != c
      ensures r[i] != ':'
    {
      if i < |name| {
        assert r[i] == name[i];
      } else if |name| < i < c {
        assert r[i] == h[i - |name| - 1] && IsDigit(r[i]);
      } else if c < i < c + 3 {
        assert r[i] == m[i - c - 1] && IsDigit(r[i]);
      } else if c + 3 <= i {
        assert r[i] == suffix[i - c - 3];
      }
    }
    assert r[c + 1..c + 3] == m;
    assert r[c + 3..] == suffix;
  }

  /** The label has the layout `ColonTail` takes apart. */
  lemma LabelColonLayout(t: Reading)
    requires ValidReading(t)
    ensures ColonLayout(CurrentTimeAndDay(t.day, t.hours, t.minutes), DaysOfWeek[t.day], NatToString(DisplayHour(t.hours)),
                        MinutesField(t.minutes), Meridiem(t.hours))
  {
    LabelShape(t);
    LayoutParts(t);
  }

  /** The label in the grouping the layout lemmas take apart. */
  lemma LabelShape(t: Reading)
    requires t.day < |DaysOfWeek|
    ensures CurrentTimeAndDay(t.day, t.hours, t.minutes)
      == DaysOfWeek[t.day] + " " + (NatToString(DisplayHour(t.hours)) + ":" + MinutesField(t.minutes)) + Meridiem(t.hours)
  {
  }

  /** Parsing a label gives back the clock reading it was made from. */
  lemma {:induction false} ParseFormatRoundTrip(t: Reading)
    requires ValidReading(t)
    ensures ParseTimeAndDay(CurrentTimeAndDay(t.day, t.hours, t.minutes)) == Some(t)
  {
    var name := DaysOfWeek[t.day];
    var clock, suffix := ClockText(t.hours, t.minutes), Meridiem(t.hours);
    var rest := clock + suffix;
    LabelParts(t);
    DayNamesDistinct(t.day);
    DayNameHasNoSpace(t.day);
    SplitAtFirst(name, ' ', rest);
    assert |suffix| == 2;
    assert rest[..|rest| - 2] == clock && rest[|rest| - 2..] == suffix;
    ParseClockRoundTrip(t.hours, t.minutes);
  }

  /** A digit string without a leading zero is the decimal text of its value. */
  lemma {:induction false} CanonicalDecimal(s: string)
    requires AllDigits(s) && s != [] && s[0] != '0'
    ensures ParseDecimal(s) >= 1
    ensures NatToString(ParseDecimal(s)) == s
    decreases |s|
  {
    var p, c := s[..|s| - 1], s[|s| - 1];
    assert DigitChar(DigitValue(c)) == c;
    if |s| == 1 {
      assert p == [];
      assert s == [c];
    } else {
      CanonicalDecimal(p);
      var n := ParseDecimal(s);
      assert n == ParseDecimal(p) * 10 + DigitValue(c);
      assert n / 10 == ParseDecimal(p) && n % 10 == DigitValue(c);
      assert s == p + [c];
    }
  }

  /** The decimal text of a positive number has no leading zero. */
  lemma {:induction false} CanonicalNatToString(n: nat)
    requires n >= 1
    ensures NatToString(n)[0] != '0'
    decreases n
  {
    if n >= 10 {
      CanonicalNatToString(n / 10);
    }
  }

  /** Every two-digit field is the padded text of its own value. */
  lemma TwoDigitField(a: char, b: char)
    requires IsDigit(a) && IsDigit(b)
    ensures MinutesField(ParseDecimal([a, b])) == [a, b]
  {
    ParseTwoDigits(a, b);
    var m := ParseDecimal([a, b]);
    assert DigitChar(DigitValue(a)) == a && DigitChar(DigitValue(b)) == b;
    if DigitValue(a) == 0 {
      assert NatToString(m) == [b];
      assert a == '0';
    } else {
      assert m / 10 == DigitValue(a) && m % 10 == DigitValue(b);
      assert NatToString(m / 10) == [a];
      assert NatToString(m) == [a, b];
    }
  }

  lemma ParseClockInverse(clock: string, suffix: string, hours: nat, minutes: nat)
    requires ParseClock(clock, suffix) == Some((hours, minutes))
    ensures ClockText(hours, minutes) == clock && Meridiem(hours) == suffix
  {
    var (hourText, minuteText) := SplitAt(clock, ':').value;
    CanonicalDecimal(hourText);
    assert hours == To24Hour(ParseDecimal(hourText), suffix == "pm");
    assert minuteText == [minuteText[0], minuteText[1]];
    TwoDigitField(minuteText[0], minuteText[1]);
  }

  /** Every string the parser accepts is exactly the label of the reading it yields. */
  lemma {:induction false} FormatParseRoundTrip(s: string)
    ensures ParseTimeAndDay(s).Some? ==>
      var t := ParseTimeAndDay(s).value; CurrentTimeAndDay(t.day, t.hours, t.minutes) == s
  {
    if ParseTimeAndDay(s).Some? {
      var t := ParseTimeAndDay(s).value;
      var (name, rest) := SplitAt(s, ' ').value;
      var clock, suffix := rest[..|rest| - 2], rest[|rest| - 2..];
      assert rest == clock + suffix;
      ParseClockInverse(clock, suffix, t.hours, t.minutes);
      assert DaysOfWeek[t.day] == name;
      LabelParts(t);
    }
  }

  /** Distinct clock readings give distinct labels: the label loses nothing. */
  lemma FormatInjective(t: Reading, u: Reading)
    requires ValidReading(t) && ValidReading(u)
    requires CurrentTimeAndDay(t.day, t.hours, t.minutes) == CurrentTimeAndDay(u.day, u.hours, u.minutes)
    ensures t == u
  {
    ParseFormatRoundTrip(t);
    ParseFormatRoundTrip(u);
  }
}
