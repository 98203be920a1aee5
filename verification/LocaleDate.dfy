/**
 * Reading a typed date in the field order of a locale. The order is a parameter; local time is
 * UTC moved by a constant offset, in milliseconds.
 */
module LocaleDate {
  import opened Wrappers
  import opened WhiteSpace
  import opened Calendar
  import Decimal

  datatype Field = Day | Month | Year

  predicate IsOrder(order: seq<Field>) {
    |order| == 3 && Day in order && Month in order && Year in order
  }

  // ---------------------------------------------------------------- Date objects

  const MS_PER_HOUR: int := 3_600_000
  const MS_PER_DAY: int := 86_400_000
  const MAX_TIME: int := 8_640_000_000_000_000

  predicate IsOffset(offset: int) {
    -MS_PER_DAY < offset < MS_PER_DAY
  }

  /** `new Date(year, month, day, hour)`: no value stands for an Invalid Date. */
  function NewDate(date: Date, hour: int, offset: int): Option<int> {
    var y := if 0 <= date.year <= 99 then 1900 + date.year else date.year;
    var t := MakeDay(date.(year := y)) * MS_PER_DAY + hour * MS_PER_HOUR - offset;
    if -MAX_TIME <= t <= MAX_TIME then Some(t) else None
  }

  /** The time value of local noon, as section 21.4.1 composes it from day, hour and offset. */
  function NoonOf(date: Date, offset: int): int {
    MakeDay(date) * 86_400_000 + 43_200_000 - offset
  }

  /** getFullYear, getMonth and getDate of a time value. */
  function LocalDate(t: int, offset: int): Date {
    FromDay((t + offset) / MS_PER_DAY)
  }

  function LocalHour(t: int, offset: int): int {
    ((t + offset) % MS_PER_DAY) / MS_PER_HOUR
  }

  function UtcDate(t: int): Date {
    FromDay(t / MS_PER_DAY)
  }

  // ---------------------------------------------------------------- reading

  /** `value.split(/\D+/)` without its empty parts: the maximal runs of digits. */
  function DigitGroups(value: string): seq<string>
    decreases |value|
  {
    var run := Decimal.DigitPrefix(value);
    if value == "" then []
    else if run == "" then DigitGroups(value[1..])
    else [run] + DigitGroups(value[|run|..])
  }

  lemma {:induction false} GroupsAreDigits(value: string)
    ensures forall g :: g in DigitGroups(value) ==> g != "" && Decimal.AllDigits(g)
    decreases |value|
  {
    var run := Decimal.DigitPrefix(value);
    if value != "" {
      GroupsAreDigits(if run == "" then value[1..] else value[|run|..]);
    }
  }

  /** `^(\d{4})-(\d{2})-(\d{2})$` */
  predicate IsIso(s: string) {
    && |s| == 10 && s[4] == '-' && s[7] == '-'
    && Decimal.AllDigits(s[..4]) && Decimal.AllDigits(s[5..7]) && Decimal.AllDigits(s[8..])
  }

  function Pivot(year: nat): nat {
    if year < 100 then 2000 + year else year
  }

  predicate IsYearText(digits: string) {
    |digits| == 2 || |digits| == 4
  }

  function IndexOf(order: seq<Field>, field: Field): (i: nat)
    requires field in order
    ensures i < |order| && order[i] == field
  {
    if order[0] == field then 0 else 1 + IndexOf(order[1..], field)
  }

  function FromDigits(year: string, month: string, day: string): Date
    requires Decimal.AllDigits(year) && Decimal.AllDigits(month) && Decimal.AllDigits(day)
  {
    Date(Pivot(Decimal.ToNat(year)), Decimal.ToNat(month) - 1, Decimal.ToNat(day))
  }

  /** The fields a text names under a field order, whether or not they make a real date. */
  function Reading(value: string, order: seq<Field>): Option<Date>
    requires IsOrder(order)
  {
    var groups := DigitGroups(value);
    var iso := Trim(value);
    GroupsAreDigits(value);
    if |groups| != 3 then None
    else if IsIso(iso) then Some(FromDigits(iso[..4], iso[5..7], iso[8..]))
    else
      var year := groups[IndexOf(order, Year)];
      if IsYearText(year) then
        Some(FromDigits(year, groups[IndexOf(order, Month)], groups[IndexOf(order, Day)]))
      else None
  }

  // ---------------------------------------------------------------- what a text names

  /** A text cut into three runs of digits and what stands before, between and after them. */
  datatype Cut = Cut(before: string, run0: string, gap0: string, run1: string, gap1: string, run2: string, after: string) {
    function Text(): string {
      before + (run0 + (gap0 + (run1 + (gap1 + (run2 + after)))))
    }

    function Runs(): seq<string> {
      [run0, run1, run2]
    }

    predicate Valid() {
      && NoDigits(before) && NoDigits(gap0) && NoDigits(gap1) && NoDigits(after)
      && |gap0| > 0 && |gap1| > 0
      && forall i :: 0 <= i < 3 ==> |Runs()[i]| > 0 && Decimal.AllDigits(Runs()[i])
    }

    /** Four, two and two digits with single dashes between them, and at most white space around. */
    predicate IsIsoShaped() {
      && gap0 == "-" && gap1 == "-" && |run0| == 4 && |run1| == 2 && |run2| == 2
      && (forall i :: 0 <= i < |before| ==> IsSpace(before[i]))
      && (forall i :: 0 <= i < |after| ==> IsSpace(after[i]))
    }
  }

  predicate NoDigits(s: string) {
    forall i :: 0 <= i < |s| ==> !Decimal.IsDigit(s[i])
  }

  /** The text chosen for a field of an order. */
  function Choose<T>(field: Field, day: T, month: T, year: T): T {
    match field
    case Day => day
    case Month => month
    case Year => year
  }

  /**
   * Whether a text names these fields: its three runs are year, month and day in ISO shape, and else
   * the fields in the locale's order; the year is written with two or four digits.
   */
  ghost predicate IsNamedBy(value: string, order: seq<Field>, date: Date, cut: Cut, y: string, m: string, d: string) {
    && cut.Valid() && value == cut.Text()
    && Decimal.AllDigits(y) && Decimal.AllDigits(m) && Decimal.AllDigits(d)
    && (if cut.IsIsoShaped() then cut.Runs() == [y, m, d]
        else |order| == 3 && cut.Runs() == [Choose(order[0], d, m, y), Choose(order[1], d, m, y), Choose(order[2], d, m, y)])
    && (|y| == 2 || |y| == 4)
    && date.year == (if Decimal.ToNat(y) < 100 then 2000 + Decimal.ToNat(y) else Decimal.ToNat(y))
    && date.month == Decimal.ToNat(m) - 1 && date.day == Decimal.ToNat(d)
  }

  ghost predicate Names(value: string, order: seq<Field>, date: Date) {
    exists cut, y, m, d :: IsNamedBy(value, order, date, cut, y, m, d)
  }

  /**
   * The date parser. It answers exactly for texts that name a real date, and the answer is local
   * noon of that date.
   */
  method ParseLocaleDate(value: string, order: seq<Field>, offset: int) returns (parsed: Option<int>)
    requires IsOrder(order) && IsOffset(offset)
    ensures parsed.Some? <==> exists date :: Names(value, order, date) && IsDate(date)
    ensures parsed.Some? ==>
      && Names(value, order, LocalDate(parsed.value, offset)) && IsDate(LocalDate(parsed.value, offset))
      && LocalHour(parsed.value, offset) == 12
      && parsed.value == NoonOf(LocalDate(parsed.value, offset), offset)
  {
    parsed := ParseReading(value, order, offset);
    ReadingExactly(value, order);
    hide Names, Reading, LocalDate, LocalHour, NoonOf, IsDate;
  }

  /** The steps of the parser, by the fields they read. */
  method ParseReading(value: string, order: seq<Field>, offset: int) returns (parsed: Option<int>)
    requires IsOrder(order) && IsOffset(offset)
    ensures parsed.Some? <==> Reading(value, order).Some? && IsDate(Reading(value, order).value)
    ensures parsed.Some? ==>
      && LocalDate(parsed.value, offset) == Reading(value, order).value
      && LocalHour(parsed.value, offset) == 12
      && parsed.value == NoonOf(LocalDate(parsed.value, offset), offset)
  {
    hide NewDate, LocalDate, LocalHour, NoonOf, IsDate, DigitGroups, Trim, IsLeap;
    var digitGroups := DigitGroups(value);
    if |digitGroups| != 3 {
      return None;
    }
    GroupsAreDigits(value);

    var day, month, year: nat := 0, 0, 0;
    var isoText := Trim(value);
    var yearDigits := 4;
    if IsIso(isoText) {
      year, month, day := Decimal.ToNat(isoText[..4]), Decimal.ToNat(isoText[5..7]), Decimal.ToNat(isoText[8..]);
      YearBound(isoText[..4]);
    } else {
      for index := 0 to |order|
        invariant Day in order[..index] ==> day == Decimal.ToNat(digitGroups[IndexOf(order, Day)])
        invariant Month in order[..index] ==> month == Decimal.ToNat(digitGroups[IndexOf(order, Month)])
        invariant Year in order[..index] ==> year == Decimal.ToNat(digitGroups[IndexOf(order, Year)])
      {
        OnePlace(order, index);
        assert order[..index + 1] == order[..index] + [order[index]];
        match order[index]
        case Day => day := Decimal.ToNat(digitGroups[index]);
        case Month => month := Decimal.ToNat(digitGroups[index]);
        case Year => year := Decimal.ToNat(digitGroups[index]);
      }
      assert order[..|order|] == order;
      yearDigits := |digitGroups[IndexOf(order, Year)]|;
      if yearDigits == 2 || yearDigits == 4 {
        YearBound(digitGroups[IndexOf(order, Year)]);
      }
    }

    if yearDigits != 2 && yearDigits != 4 {
      return None;
    }

    var fullYear := if year < 100 then 2000 + year else year;
    var typed := Date(fullYear, month - 1, day);
    assert Reading(value, order) == Some(typed);
    NoonIsExact(typed, offset);

    var time := NewDate(typed, 12, offset);
    if time.Some? && LocalDate(time.value, offset) == typed {
      return time;
    }
    return None;
  }

  lemma {:induction false} YearBound(digits: string)
    requires Decimal.AllDigits(digits) && |digits| <= 4
    ensures Decimal.ToNat(digits) <= 9999
  {
    Decimal.BelowPowerOfTen(digits);
    assert Decimal.Pow10(2) == 100;
  }

  lemma OnePlace(order: seq<Field>, index: nat)
    requires IsOrder(order) && index < 3
    ensures IndexOf(order, order[index]) == index
  {
  }

  /** The rollover check accepts exactly the real dates, and noon is noon. */
  lemma NoonIsExact(date: Date, offset: int)
    requires 100 <= date.year <= 9999 && IsOffset(offset)
    ensures var t := NewDate(date, 12, offset);
            && (t.Some? && LocalDate(t.value, offset) == date <==> IsDate(date))
            && (t.Some? ==> LocalHour(t.value, offset) == 12 && t.value == NoonOf(date, offset))
  {
    DayOfLocalTime(date, 12, offset);
    SurvivesExactlyDates(date);
    if IsDate(date) {
      InTimeRange(date, offset);
    }
  }

  lemma DayOfLocalTime(date: Date, hour: int, offset: int)
    requires date.year >= 100 && 0 <= hour < 24
    ensures var t := NewDate(date, hour, offset);
            t.Some? ==> (t.value + offset) / MS_PER_DAY == MakeDay(date) && LocalHour(t.value, offset) == hour
  {
    hide MakeDay;
    var local := MakeDay(date) * MS_PER_DAY + hour * MS_PER_HOUR;
    assert local / MS_PER_DAY == MakeDay(date);
    assert local % MS_PER_DAY == hour * MS_PER_HOUR;
  }

  lemma InTimeRange(date: Date, offset: int)
    requires 100 <= date.year <= 9999 && IsDate(date) && IsOffset(offset)
    ensures NewDate(date, 12, offset).Some?
  {
    DateWithinYear(date);
    assert -1_000_000 <= DayFromYear(date.year) && DayFromYear(date.year + 1) <= 3_000_000;
    hide DayFromYear, MakeDay, IsDate;
  }

  /**
   * The UTC calendar day of a local time is the typed day exactly while the offset does not carry
   * the time over midnight: for noon, from just above -12 hours to +12 hours.
   */
  lemma UtcDayOfLocalHour(date: Date, hour: int, offset: int)
    requires 100 <= date.year && IsDate(date) && 0 <= hour < 24 && IsOffset(offset)
    requires NewDate(date, hour, offset).Some?
    ensures UtcDate(NewDate(date, hour, offset).value) == date
            <==> 0 <= hour * MS_PER_HOUR - offset < MS_PER_DAY
  {
    var t := NewDate(date, hour, offset).value;
    DayOfUtcTime(date, hour, offset);
    InverseOnDates(date);
    ForwardOfInverse(t / MS_PER_DAY);
    hide MakeDay, FromDay, IsDate, NewDate;
  }

  lemma DayOfUtcTime(date: Date, hour: int, offset: int)
    requires 100 <= date.year && NewDate(date, hour, offset).Some?
    ensures NewDate(date, hour, offset).value / MS_PER_DAY == MakeDay(date)
            <==> 0 <= hour * MS_PER_HOUR - offset < MS_PER_DAY
  {
    hide MakeDay;
  }

  // ---------------------------------------------------------------- printing

  /** What a rendered date may have around and inside its three fields. */
  datatype Layout = Layout(
    before: string, first: string, second: string, after: string,
    padDay: bool, padMonth: bool, shortYear: bool)

  predicate IsLayout(layout: Layout) {
    && NoDigits(layout.before) && NoDigits(layout.first) && NoDigits(layout.second) && NoDigits(layout.after)
    && layout.first != "" && layout.second != ""
  }

  /** The dates a layout can show: four digits for the year, or its last two in this century. */
  predicate IsPrintable(date: Date, layout: Layout) {
    && IsDate(date)
    && if layout.shortYear then 2000 <= date.year <= 2099 else 100 <= date.year <= 9999
  }

  /** Decimal digits, with zeros in front up to a width. */
  function Pad(n: nat, width: nat): string
    decreases width
  {
    var digits := Decimal.Print(n);
    if |digits| < width then "0" + Pad(n, width - 1) else digits
  }

  function FieldText(date: Date, field: Field, layout: Layout): string
    requires IsPrintable(date, layout)
  {
    match field
    case Day => Pad(date.day, if layout.padDay then 2 else 0)
    case Month => Pad(date.month + 1, if layout.padMonth then 2 else 0)
    case Year => if layout.shortYear then Pad(date.year - 2000, 2) else Pad(date.year, 4)
  }

  function Text(date: Date, order: seq<Field>, layout: Layout): string
    requires IsOrder(order) && IsPrintable(date, layout)
  {
    layout.before
    + (FieldText(date, order[0], layout) + (layout.first
    + (FieldText(date, order[1], layout) + (layout.second
    + (FieldText(date, order[2], layout) + layout.after)))))
  }

  function FieldValue(date: Date, field: Field, layout: Layout): int {
    match field
    case Day => date.day
    case Month => date.month + 1
    case Year => if layout.shortYear then date.year - 2000 else date.year
  }

  lemma {:induction false} PadThenRead(n: nat, width: nat)
    requires 0 < width && n < Decimal.Pow10(width)
    ensures var s := Pad(n, width); Decimal.AllDigits(s) && Decimal.ToNat(s) == n && |s| == width
    decreases width
  {
    Decimal.PrintLength(n, width);
    Decimal.PrintThenRead(n);
    if |Decimal.Print(n)| < width {
      Decimal.PrintLength(n, width - 1);
      PadThenRead(n, width - 1);
      Decimal.LeadingZero(Pad(n, width - 1));
    }
  }

  lemma FieldThenRead(date: Date, field: Field, layout: Layout)
    requires IsPrintable(date, layout)
    ensures var s := FieldText(date, field, layout);
            && Decimal.AllDigits(s) && 1 <= |s|
            && Decimal.ToNat(s) == FieldValue(date, field, layout)
            && (if field == Year then |s| == (if layout.shortYear then 2 else 4) else |s| <= 2)
  {
    assert Decimal.Pow10(2) == 100;
    assert Decimal.Pow10(4) == 100 * Decimal.Pow10(2);
    match field
    case Day =>
      Decimal.PrintThenRead(date.day);
      Decimal.PrintLength(date.day, 2);
      PadThenRead(date.day, 2);
    case Month =>
      Decimal.PrintThenRead(date.month + 1);
      Decimal.PrintLength(date.month + 1, 2);
      PadThenRead(date.month + 1, 2);
    case Year =>
      if layout.shortYear {
        PadThenRead(date.year - 2000, 2);
      } else {
        PadThenRead(date.year, 4);
      }
  }

  lemma {:induction false} GroupsSkip(gap: string, rest: string)
    requires NoDigits(gap)
    ensures DigitGroups(gap + rest) == DigitGroups(rest)
    decreases |gap|
  {
    if gap == "" {
      assert gap + rest == rest;
    } else {
      assert !Decimal.IsDigit(gap[0]);
      assert (gap + rest)[1..] == gap[1..] + rest;
      GroupsSkip(gap[1..], rest);
    }
  }

  lemma {:induction false} GroupsTake(run: string, rest: string)
    requires run != "" && Decimal.AllDigits(run) && (rest != "" ==> !Decimal.IsDigit(rest[0]))
    ensures DigitGroups(run + rest) == [run] + DigitGroups(rest)
  {
    Decimal.DigitPrefixOfRun(run, rest);
    assert (run + rest)[|run|..] == rest;
  }

  predicate IsRun(s: string) {
    s != "" && Decimal.AllDigits(s)
  }

  lemma {:induction false} GroupsOfThree(f0: string, f1: string, f2: string, layout: Layout)
    requires IsLayout(layout) && IsRun(f0) && IsRun(f1) && IsRun(f2)
    ensures DigitGroups(layout.before + (f0 + (layout.first + (f1 + (layout.second + (f2 + layout.after))))))
         == [f0, f1, f2]
  {
    hide DigitGroups;
    var s2 := f2 + layout.after;
    var s1 := f1 + (layout.second + s2);
    var s0 := f0 + (layout.first + s1);
    GroupsSkip(layout.before, s0);
    GroupsTake(f0, layout.first + s1);
    GroupsSkip(layout.first, s1);
    GroupsTake(f1, layout.second + s2);
    GroupsSkip(layout.second, s2);
    GroupsTake(f2, layout.after);
    GroupsSkip(layout.after, "");
    assert layout.after + "" == layout.after;
    NoGroups();
  }

  lemma {:induction false} GroupsOfText(date: Date, order: seq<Field>, layout: Layout)
    requires IsOrder(order) && IsPrintable(date, layout) && IsLayout(layout)
    ensures DigitGroups(Text(date, order, layout))
         == [FieldText(date, order[0], layout), FieldText(date, order[1], layout), FieldText(date, order[2], layout)]
  {
    FieldThenRead(date, order[0], layout);
    FieldThenRead(date, order[1], layout);
    FieldThenRead(date, order[2], layout);
    hide DigitGroups, FieldText, IsPrintable, IsOrder, IsLayout;
    GroupsOfThree(FieldText(date, order[0], layout), FieldText(date, order[1], layout), FieldText(date, order[2], layout), layout);
  }

  lemma NoGroups()
    ensures DigitGroups("") == []
  {
  }

  lemma {:induction false} GroupsBeforeGap(s: string, c: char)
    requires !Decimal.IsDigit(c)
    ensures DigitGroups(s + [c]) == DigitGroups(s)
    decreases |s|
  {
    if s == "" {
      assert s + [c] == [c] + "";
      GroupsSkip([c], "");
    } else if Decimal.IsDigit(s[0]) {
      var run := Decimal.DigitPrefix(s);
      var rest := s[|run|..];
      assert run != "" && s == run + rest;
      GroupsBeforeGap(rest, c);
      assert s + [c] == run + (rest + [c]);
      hide DigitGroups, Decimal.DigitPrefix;
      GroupsTake(run, rest);
      GroupsTake(run, rest + [c]);
    } else {
      GroupsBeforeGap(s[1..], c);
      assert s == [s[0]] + s[1..] && s + [c] == [s[0]] + (s[1..] + [c]);
      hide DigitGroups;
      GroupsSkip([s[0]], s[1..]);
      GroupsSkip([s[0]], s[1..] + [c]);
    }
  }

  /** Trimming leaves the digit groups as they are. */
  lemma {:induction false} GroupsOfTrim(s: string)
    ensures DigitGroups(Trim(s)) == DigitGroups(s)
  {
    GroupsAfterSpace(s);
    GroupsBeforeSpace(SkipSpace(s));
  }

  lemma {:induction false} GroupsAfterSpace(s: string)
    ensures DigitGroups(SkipSpace(s)) == DigitGroups(s)
  {
    if s != "" && IsSpace(s[0]) {
      GroupsAfterSpace(s[1..]);
    }
  }

  lemma SpaceIsNoDigit(c: char)
    requires IsSpace(c)
    ensures !Decimal.IsDigit(c)
  {
  }

  lemma {:induction false} GroupsBeforeSpace(s: string)
    ensures DigitGroups(DropSpaceAtEnd(s)) == DigitGroups(s)
  {
    hide DigitGroups, IsSpace;
    if s != "" && IsSpace(s[|s| - 1]) {
      GroupsBeforeSpace(s[..|s| - 1]);
      SpaceIsNoDigit(s[|s| - 1]);
      GroupsBeforeGap(s[..|s| - 1], s[|s| - 1]);
      assert s[..|s| - 1] + [s[|s| - 1]] == s;
    }
  }

  lemma {:induction false} GroupsOfIso(s: string)
    requires IsIso(s)
    ensures DigitGroups(s) == [s[..4], s[5..7], s[8..]]
  {
    hide DigitGroups;
    assert s == s[..4] + ("-" + (s[5..7] + ("-" + s[8..])));
    GroupsTake(s[..4], "-" + (s[5..7] + ("-" + s[8..])));
    GroupsSkip("-", s[5..7] + ("-" + s[8..]));
    GroupsTake(s[5..7], "-" + s[8..]);
    GroupsSkip("-", s[8..]);
    GroupsTake(s[8..], "");
    assert s[8..] + "" == s[8..];
    NoGroups();
  }

  /** Three groups in a given order mean their date, unless they are read as ISO in another order. */
  lemma {:induction false} ReadingOfGroups(text: string, order: seq<Field>, d: string, m: string, y: string, date: Date)
    requires IsOrder(order)
    requires DigitGroups(text) == [Choose(order[0], d, m, y), Choose(order[1], d, m, y), Choose(order[2], d, m, y)]
    requires Decimal.AllDigits(d) && Decimal.AllDigits(m) && Decimal.AllDigits(y)
    requires |d| <= 2 && |m| <= 2 && IsYearText(y)
    requires FromDigits(y, m, d) == date
    ensures Reading(text, order) == Some(date)
            <==> (order == [Year, Day, Month] && IsIso(Trim(text)) ==> date.day == date.month + 1)
  {
    hide DigitGroups, Trim;
    if IsIso(Trim(text)) {
      GroupsOfTrim(text);
      GroupsOfIso(Trim(text));
      assert order[0] == Year;
    }
  }

  /**
   * A rendered date reads back as itself under the order it was rendered in, with one exception: a
   * year-day-month text that happens to have the ISO shape is read as year-month-day, which is the
   * same date only if day and month agree.
   */
  lemma {:induction false} PrintParseRoundTrip(date: Date, order: seq<Field>, layout: Layout)
    requires IsOrder(order) && IsPrintable(date, layout) && IsLayout(layout)
    ensures var text := Text(date, order, layout);
            Reading(text, order) == Some(date)
            <==> (order == [Year, Day, Month] && IsIso(Trim(text)) ==> date.day == date.month + 1)
  {
    var text := Text(date, order, layout);
    GroupsOfText(date, order, layout);
    FieldThenRead(date, Day, layout);
    FieldThenRead(date, Month, layout);
    FieldThenRead(date, Year, layout);
    var d, m, y := FieldText(date, Day, layout), FieldText(date, Month, layout), FieldText(date, Year, layout);
    assert FromDigits(y, m, d) == date;
    hide DigitGroups, Trim, Text, FieldText, IsDate, Reading, IsIso;
    ReadingOfGroups(text, order, d, m, y, date);
  }

  lemma IsoOfParts(y: string, m: string, d: string)
    requires |y| == 4 && |m| == 2 && |d| == 2
    requires Decimal.AllDigits(y) && Decimal.AllDigits(m) && Decimal.AllDigits(d)
    ensures var text := y + "-" + m + "-" + d;
            && IsIso(text) && Trim(text) == text && DigitGroups(text) == [y, m, d]
            && text[..4] == y && text[5..7] == m && text[8..] == d
  {
    hide DigitGroups;
    var text := y + "-" + m + "-" + d;
    assert text[..4] == y && text[5..7] == m && text[8..] == d;
    assert Decimal.IsDigit(y[0]) && Decimal.IsDigit(d[1]);
    assert !IsSpace(text[0]) && !IsSpace(text[9]);
    GroupsOfIso(text);
  }

  lemma ReadingOfIso(text: string, order: seq<Field>)
    requires IsOrder(order) && IsIso(Trim(text)) && |DigitGroups(text)| == 3
    ensures var iso := Trim(text); Reading(text, order) == Some(FromDigits(iso[..4], iso[5..7], iso[8..]))
  {
    hide DigitGroups, Trim, FromDigits;
  }

  lemma DigitsOfDate(date: Date)
    requires IsDate(date) && 100 <= date.year <= 9999
    ensures var y, m, d := Pad(date.year, 4), Pad(date.month + 1, 2), Pad(date.day, 2);
            && |y| == 4 && |m| == 2 && |d| == 2
            && Decimal.AllDigits(y) && Decimal.AllDigits(m) && Decimal.AllDigits(d)
            && FromDigits(y, m, d) == date
  {
    assert Decimal.Pow10(2) == 100;
    assert Decimal.Pow10(4) == 100 * Decimal.Pow10(2);
    PadThenRead(date.year, 4);
    PadThenRead(date.month + 1, 2);
    PadThenRead(date.day, 2);
    hide Pad, Decimal.ToNat, Decimal.Pow10;
  }

  /** An ISO text means the same date under every field order. */
  lemma {:induction false} IsoIsOrderFree(date: Date, order: seq<Field>)
    requires IsOrder(order) && IsDate(date) && 100 <= date.year <= 9999
    ensures Reading(Pad(date.year, 4) + "-" + Pad(date.month + 1, 2) + "-" + Pad(date.day, 2), order) == Some(date)
  {
    hide Reading, DigitGroups, Trim, IsIso, Pad, FromDigits, IsLeap;
    var y, m, d := Pad(date.year, 4), Pad(date.month + 1, 2), Pad(date.day, 2);
    DigitsOfDate(date);
    IsoOfParts(y, m, d);
    ReadingOfIso(y + "-" + m + "-" + d, order);
  }

  /** The year-day-month exception is real: up to the 12th, the day and the month change places. */
  lemma {:induction false} YearDayMonthMisread(date: Date)
    requires IsDate(date) && date.day <= 12 && 100 <= date.year <= 9999
    ensures var layout := Layout("", "-", "-", "", true, true, false);
            Reading(Text(date, [Year, Day, Month], layout), [Year, Day, Month])
            == Some(Date(date.year, date.day - 1, date.month + 1))
  {
    hide Reading, Pad;
    var layout := Layout("", "-", "-", "", true, true, false);
    var y, m, d := Pad(date.year, 4), Pad(date.month + 1, 2), Pad(date.day, 2);
    assert Text(date, [Year, Day, Month], layout) == y + "-" + d + "-" + m;
    IsoIsOrderFree(Date(date.year, date.day - 1, date.month + 1), [Year, Day, Month]);
  }

  // ---------------------------------------------------------------- every text that gets an answer

  lemma GroupsOfCut(cut: Cut)
    requires cut.Valid()
    ensures DigitGroups(cut.Text()) == cut.Runs()
  {
    hide DigitGroups;
    assert cut.Runs()[0] == cut.run0 && cut.Runs()[1] == cut.run1 && cut.Runs()[2] == cut.run2;
    var layout := Layout(cut.before, cut.gap0, cut.gap1, cut.after, false, false, false);
    GroupsOfThree(cut.run0, cut.run1, cut.run2, layout);
  }

  lemma {:induction false} SplitGap(s: string) returns (gap: string)
    ensures gap <= s && NoDigits(gap) && (|gap| < |s| ==> Decimal.IsDigit(s[|gap|]))
    ensures DigitGroups(s) == DigitGroups(s[|gap|..])
  {
    hide DigitGroups;
    if s == "" || Decimal.IsDigit(s[0]) {
      gap := "";
      assert s[0..] == s;
    } else {
      var more := SplitGap(s[1..]);
      gap := [s[0]] + more;
      assert s[1..][|more|..] == s[|gap|..];
      assert s == gap + s[|gap|..];
      GroupsSkip(gap, s[|gap|..]);
    }
  }

  /** A text that starts with a digit starts with its first group. */
  lemma FirstGroup(s: string)
    requires s != "" && Decimal.IsDigit(s[0])
    ensures var run := Decimal.DigitPrefix(s);
            && |run| > 0 && DigitGroups(s) == [run] + DigitGroups(s[|run|..])
            && (|run| < |s| ==> !Decimal.IsDigit(s[|run|]))
  {
  }

  lemma NoGroupsNoDigits(s: string)
    requires DigitGroups(s) == []
    ensures NoDigits(s)
  {
    var gap := SplitGap(s);
    if |gap| < |s| {
      FirstGroup(s[|gap|..]);
    } else {
      assert gap == s;
    }
  }

  /** Takes one gap and one run off the front of a text that has groups. */
  lemma CutOne(s: string) returns (gap: string, run: string, rest: string)
    requires DigitGroups(s) != []
    ensures s == gap + (run + rest) && NoDigits(gap) && |run| > 0 && Decimal.AllDigits(run)
    ensures DigitGroups(s) == [run] + DigitGroups(rest) && (|rest| > 0 ==> !Decimal.IsDigit(rest[0]))
    ensures |s| > 0 && !Decimal.IsDigit(s[0]) ==> |gap| > 0
  {
    gap := SplitGap(s);
    NoGroups();
    var t := s[|gap|..];
    assert |gap| < |s|;
    run := Decimal.DigitPrefix(t);
    rest := t[|run|..];
    FirstGroup(t);
    assert s == gap + t && t == run + rest;
  }

  /** A text with three groups is cut into them in one way at least. */
  lemma CutOf(value: string) returns (cut: Cut)
    requires |DigitGroups(value)| == 3
    ensures cut.Valid() && cut.Text() == value && cut.Runs() == DigitGroups(value)
  {
    hide DigitGroups, NoDigits, Decimal.AllDigits;
    var before, run0, rest0 := CutOne(value);
    var gap0, run1, rest1 := CutOne(rest0);
    var gap1, run2, after := CutOne(rest1);
    NoGroups();
    if rest0 == "" || rest1 == "" {
      assert false;
    }
    assert DigitGroups(after) == [];
    NoGroupsNoDigits(after);
    cut := Cut(before, run0, gap0, run1, gap1, run2, after);
    assert cut.Runs() == DigitGroups(value);
  }

  lemma {:induction false} SpaceAround(s: string) returns (before: string, after: string)
    ensures s == before + (Trim(s) + after)
    ensures (forall i :: 0 <= i < |before| ==> IsSpace(before[i])) && (forall i :: 0 <= i < |after| ==> IsSpace(after[i]))
  {
    hide IsSpace;
    before := SpaceBefore(s);
    after := SpaceAfter(SkipSpace(s));
  }

  lemma {:induction false} SpaceBefore(s: string) returns (before: string)
    ensures s == before + SkipSpace(s) && forall i :: 0 <= i < |before| ==> IsSpace(before[i])
  {
    hide IsSpace;
    if s != "" && IsSpace(s[0]) {
      var more := SpaceBefore(s[1..]);
      before := [s[0]] + more;
      assert s == [s[0]] + s[1..];
    } else {
      before := "";
    }
  }

  lemma {:induction false} SpaceAfter(s: string) returns (after: string)
    ensures s == DropSpaceAtEnd(s) + after && forall i :: 0 <= i < |after| ==> IsSpace(after[i])
  {
    hide IsSpace;
    if s != "" && IsSpace(s[|s| - 1]) {
      var more := SpaceAfter(s[..|s| - 1]);
      after := more + [s[|s| - 1]];
      assert s == s[..|s| - 1] + [s[|s| - 1]];
    } else {
      after := "";
    }
  }

  lemma {:induction false} TrimOf(before: string, text: string, after: string)
    requires forall i :: 0 <= i < |before| ==> IsSpace(before[i])
    requires forall i :: 0 <= i < |after| ==> IsSpace(after[i])
    requires text != "" && !IsSpace(text[0]) && !IsSpace(text[|text| - 1])
    ensures Trim(before + (text + after)) == text
  {
    hide IsSpace;
    SkipSpaceOf(before, text + after);
    DropSpaceOf(text, after);
  }

  lemma {:induction false} SkipSpaceOf(before: string, rest: string)
    requires forall i :: 0 <= i < |before| ==> IsSpace(before[i])
    requires rest != "" && !IsSpace(rest[0])
    ensures SkipSpace(before + rest) == rest
  {
    hide IsSpace;
    if before == "" {
      assert before + rest == rest;
    } else {
      assert (before + rest)[1..] == before[1..] + rest;
      SkipSpaceOf(before[1..], rest);
    }
  }

  lemma {:induction false} DropSpaceOf(text: string, after: string)
    requires forall i :: 0 <= i < |after| ==> IsSpace(after[i])
    requires text != "" && !IsSpace(text[|text| - 1])
    ensures DropSpaceAtEnd(text + after) == text
  {
    hide IsSpace;
    if after == "" {
      assert text + after == text;
    } else {
      assert (text + after)[..|text + after| - 1] == text + after[..|after| - 1];
      DropSpaceOf(text, after[..|after| - 1]);
    }
  }

  /** A cut text has the ISO shape exactly when the parser's pattern matches it trimmed. */
  lemma IsoShapeExactly(cut: Cut)
    requires cut.Valid()
    ensures IsIso(Trim(cut.Text())) <==> cut.IsIsoShaped()
    ensures cut.IsIsoShaped() ==>
              var iso := Trim(cut.Text()); [iso[..4], iso[5..7], iso[8..]] == cut.Runs()
  {
    hide DigitGroups, Trim;
    assert cut.Runs()[0] == cut.run0 && cut.Runs()[1] == cut.run1 && cut.Runs()[2] == cut.run2;
    if cut.IsIsoShaped() {
      IsoShapeMatches(cut);
    }
    if IsIso(Trim(cut.Text())) {
      MatchHasIsoShape(cut);
    }
  }

  lemma IsoShapeMatches(cut: Cut)
    requires cut.Valid() && cut.IsIsoShaped()
    ensures var iso := Trim(cut.Text());
            IsIso(iso) && iso[..4] == cut.run0 && iso[5..7] == cut.run1 && iso[8..] == cut.run2
  {
    assert cut.Runs()[0] == cut.run0 && cut.Runs()[1] == cut.run1 && cut.Runs()[2] == cut.run2;
    var text := cut.run0 + "-" + cut.run1 + "-" + cut.run2;
    assert cut.Text() == cut.before + (text + cut.after);
    assert text[0] == cut.run0[0] && text[|text| - 1] == cut.run2[1];
    DigitIsNoSpace(text[0]);
    DigitIsNoSpace(text[|text| - 1]);
    TrimOf(cut.before, text, cut.after);
    hide Trim;
    assert text[..4] == cut.run0 && text[5..7] == cut.run1 && text[8..] == cut.run2;
  }

  lemma DigitIsNoSpace(c: char)
    requires Decimal.IsDigit(c)
    ensures !IsSpace(c)
  {
  }

  lemma MatchHasIsoShape(cut: Cut)
    requires cut.Valid() && IsIso(Trim(cut.Text()))
    ensures cut.IsIsoShaped()
  {
    var iso := Trim(cut.Text());
    var before, after := SpaceAround(cut.Text());
    hide Trim, DigitGroups;
    SpaceHasNoDigits(before);
    SpaceHasNoDigits(after);
    var other := Cut(before, iso[..4], "-", iso[5..7], "-", iso[8..], after);
    assert iso == iso[..4] + ("-" + (iso[5..7] + ("-" + iso[8..])));
    assert other.Text() == cut.Text();
    assert NoDigits("-");
    assert other.Runs()[0] == iso[..4] && other.Runs()[1] == iso[5..7] && other.Runs()[2] == iso[8..];
    OneCut(cut, other);
  }

  lemma SpaceHasNoDigits(s: string)
    requires forall i :: 0 <= i < |s| ==> IsSpace(s[i])
    ensures NoDigits(s)
  {
  }

  /** A text is cut in only one way. */
  lemma OneCut(a: Cut, b: Cut)
    requires a.Valid() && b.Valid() && a.Text() == b.Text()
    ensures a == b
  {
    assert a.Runs()[0] == a.run0 && a.Runs()[1] == a.run1 && a.Runs()[2] == a.run2;
    assert b.Runs()[0] == b.run0 && b.Runs()[1] == b.run1 && b.Runs()[2] == b.run2;
    SameStart(a.before, a.run0 + (a.gap0 + (a.run1 + (a.gap1 + (a.run2 + a.after)))),
              b.before, b.run0 + (b.gap0 + (b.run1 + (b.gap1 + (b.run2 + b.after)))), false);
    SameStart(a.run0, a.gap0 + (a.run1 + (a.gap1 + (a.run2 + a.after))),
              b.run0, b.gap0 + (b.run1 + (b.gap1 + (b.run2 + b.after))), true);
    SameStart(a.gap0, a.run1 + (a.gap1 + (a.run2 + a.after)), b.gap0, b.run1 + (b.gap1 + (b.run2 + b.after)), false);
    SameStart(a.run1, a.gap1 + (a.run2 + a.after), b.run1, b.gap1 + (b.run2 + b.after), true);
    SameStart(a.gap1, a.run2 + a.after, b.gap1, b.run2 + b.after, false);
    SameStart(a.run2, a.after, b.run2, b.after, true);
  }

  /** Where digits stop or start is decided by the text. */
  lemma SameStart(x: string, r: string, y: string, t: string, digits: bool)
    requires x + r == y + t
    requires (forall i :: 0 <= i < |x| ==> Decimal.IsDigit(x[i]) == digits) && (forall i :: 0 <= i < |y| ==> Decimal.IsDigit(y[i]) == digits)
    requires (|r| > 0 ==> Decimal.IsDigit(r[0]) != digits) && (|t| > 0 ==> Decimal.IsDigit(t[0]) != digits)
    ensures x == y && r == t
  {
    var s := x + r;
    assert s == y + t;
    assert forall i :: 0 <= i < |x| ==> Decimal.IsDigit(s[i]) == digits;
    assert forall i :: 0 <= i < |y| ==> Decimal.IsDigit(s[i]) == digits;
    assert |r| > 0 ==> s[|x|] == r[0];
    assert |t| > 0 ==> s[|y|] == t[0];
    assert |x| == |y|;
    assert s[..|x|] == x && s[|x|..] == r && s[..|y|] == y && s[|y|..] == t;
  }

  /** The parser reads exactly the fields that a text names; a text names one date at most. */
  lemma ReadingExactly(value: string, order: seq<Field>)
    requires IsOrder(order)
    ensures forall date :: Reading(value, order) == Some(date) <==> Names(value, order, date)
  {
    forall date | Names(value, order, date)
      ensures Reading(value, order) == Some(date)
    {
      var cut, y, m, d :| IsNamedBy(value, order, date, cut, y, m, d);
      NamedIsRead(value, order, date, cut, y, m, d);
    }
    if Reading(value, order).Some? {
      ReadIsNamed(value, order);
    }
    hide Reading, Names;
  }

  lemma NamedIsRead(value: string, order: seq<Field>, date: Date, cut: Cut, y: string, m: string, d: string)
    requires IsOrder(order) && IsNamedBy(value, order, date, cut, y, m, d)
    ensures Reading(value, order) == Some(date)
  {
    hide Reading, IsIso, Trim, DigitGroups, Cut.IsIsoShaped, Cut.Valid, Cut.Text, Cut.Runs, IsOrder;
    GroupsOfCut(cut);
    IsoShapeExactly(cut);
    if cut.IsIsoShaped() {
      IsoIsRead(value, order, y, m, d);
    } else {
      OrderedIsRead(value, order, y, m, d);
    }
  }

  lemma IsoIsRead(value: string, order: seq<Field>, y: string, m: string, d: string)
    requires IsOrder(order) && IsIso(Trim(value)) && DigitGroups(value) == [y, m, d]
    requires var iso := Trim(value); [iso[..4], iso[5..7], iso[8..]] == [y, m, d]
    requires Decimal.AllDigits(y) && Decimal.AllDigits(m) && Decimal.AllDigits(d)
    ensures Reading(value, order) == Some(FromDigits(y, m, d))
  {
    var iso := Trim(value);
    var parts := [iso[..4], iso[5..7], iso[8..]];
    assert parts[0] == y && parts[1] == m && parts[2] == d;
    ReadingOfIso(value, order);
    hide Reading, IsIso, Trim, DigitGroups;
  }

  lemma ChosenIsIndexed(order: seq<Field>, d: string, m: string, y: string, field: Field)
    requires IsOrder(order)
    ensures [Choose(order[0], d, m, y), Choose(order[1], d, m, y), Choose(order[2], d, m, y)][IndexOf(order, field)]
         == Choose(field, d, m, y)
  {
  }

  lemma OrderedIsRead(value: string, order: seq<Field>, y: string, m: string, d: string)
    requires IsOrder(order) && !IsIso(Trim(value))
    requires DigitGroups(value) == [Choose(order[0], d, m, y), Choose(order[1], d, m, y), Choose(order[2], d, m, y)]
    requires Decimal.AllDigits(y) && Decimal.AllDigits(m) && Decimal.AllDigits(d) && (|y| == 2 || |y| == 4)
    ensures Reading(value, order) == Some(FromDigits(y, m, d))
  {
    ChosenIsIndexed(order, d, m, y, Day);
    ChosenIsIndexed(order, d, m, y, Month);
    ChosenIsIndexed(order, d, m, y, Year);
    hide IsIso, Trim, DigitGroups, IndexOf, Decimal.AllDigits;
  }

  lemma ReadIsNamed(value: string, order: seq<Field>)
    requires IsOrder(order) && Reading(value, order).Some?
    ensures Names(value, order, Reading(value, order).value)
  {
    hide DigitGroups, Trim, Cut.Text, Cut.Valid, Cut.IsIsoShaped, Cut.Runs, Decimal.AllDigits, IndexOf;
    GroupsAreDigits(value);
    var cut := CutOf(value);
    IsoShapeExactly(cut);
    var groups := DigitGroups(value);
    if cut.IsIsoShaped() {
      var iso := Trim(value);
      IsoIsNamed(cut, value, order, iso[..4], iso[5..7], iso[8..]);
    } else {
      OrderIsRead(groups, order);
      assert IsNamedBy(value, order, Reading(value, order).value, cut,
                       groups[IndexOf(order, Year)], groups[IndexOf(order, Month)], groups[IndexOf(order, Day)]);
    }
  }

  lemma IsoIsNamed(cut: Cut, value: string, order: seq<Field>, y: string, m: string, d: string)
    requires cut.Valid() && cut.IsIsoShaped() && cut.Text() == value && cut.Runs() == [y, m, d] && |y| == 4
    requires Decimal.AllDigits(y) && Decimal.AllDigits(m) && Decimal.AllDigits(d)
    ensures Names(value, order, FromDigits(y, m, d))
  {
    hide Cut.Text, Cut.Valid, Cut.IsIsoShaped, Cut.Runs, Decimal.AllDigits;
    assert IsNamedBy(value, order, FromDigits(y, m, d), cut, y, m, d);
  }

  lemma OrderIsRead(groups: seq<string>, order: seq<Field>)
    requires IsOrder(order) && |groups| == 3
    ensures var y, m, d := groups[IndexOf(order, Year)], groups[IndexOf(order, Month)], groups[IndexOf(order, Day)];
            groups == [Choose(order[0], d, m, y), Choose(order[1], d, m, y), Choose(order[2], d, m, y)]
  {
    OnePlace(order, 0);
    OnePlace(order, 1);
    OnePlace(order, 2);
  }
}
