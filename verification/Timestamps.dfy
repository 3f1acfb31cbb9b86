/** Reading and printing intercept times: six accepted formats, one printed format. */
module Timestamps {
  import opened Records
  import opened IdText

  datatype Stamp = Stamp(year: nat, month: nat, day: nat, hour: nat, minute: nat, second: nat)

  /** `%d<sep>%m<sep>%Y %H:%M`, with `:%S` at the end or not. */
  datatype Format = Format(sep: char, seconds: bool)

  const DT_FMT := Format('-', true)

  /** The order in which the building module tries the formats. */
  const BUILDING_FMTS := [Format(':', true), Format(':', false), Format('-', true), Format('-', false),
      Format('/', true), Format('/', false)]

  /** The order in which the merging module tries them. */
  const MERGING_FMTS := [Format('-', true), Format('-', false), Format(':', true), Format(':', false),
      Format('/', true), Format('/', false)]

  predicate IsLeap(y: nat) { y % 4 == 0 && (y % 100 != 0 || y % 400 == 0) }

  function DaysIn(y: nat, m: nat): nat {
    if m in {4, 6, 9, 11} then 30 else if m == 2 then (if IsLeap(y) then 29 else 28) else 31
  }

  /** A time that the library can represent: whole years within its nanosecond range. */
  predicate IsTime(t: Stamp) {
    && 1678 <= t.year <= 2261 && 1 <= t.month <= 12 && 1 <= t.day <= DaysIn(t.year, t.month)
    && t.hour < 24 && t.minute < 60 && t.second < 60
  }

  /* ------------------------------------------------------------------ reading */

  function Leading(s: string): (k: nat)
    ensures k <= |s| && forall i :: 0 <= i < k ==> IsDigit(s[i])
  {
    if |s| == 0 || !IsDigit(s[0]) then 0 else 1 + Leading(s[1..])
  }

  /** A run of `lo` to `hi` digits, and what follows it. */
  function Number(s: string, lo: nat, hi: nat): Option<(nat, string)> {
    var k := Leading(s);
    if lo <= k <= hi then Some((DigitsValue(s[..k]), s[k..])) else None
  }

  function Expect(s: string, c: char): Option<string> {
    if |s| > 0 && s[0] == c then Some(s[1..]) else None
  }

  predicate IsSpace(c: char) { c == ' ' || c == '\t' || c == '\n' || c == '\r' }

  function SkipSpaces(s: string): string {
    if |s| > 0 && IsSpace(s[0]) then SkipSpaces(s[1..]) else s
  }

  function DropTrailing(s: string): string {
    if |s| > 0 && IsSpace(s[|s| - 1]) then DropTrailing(s[..|s| - 1]) else s
  }

  function Strip(s: string): string { DropTrailing(SkipSpaces(s)) }

  /** A number of one or two digits followed by `c`. */
  function NumberThen(s: string, c: char): Option<(nat, string)> {
    var n := Number(s, 1, 2);
    if n.None? then None
    else
      var rest := Expect(n.value.1, c);
      if rest.None? then None else Some((n.value.0, rest.value))
  }

  datatype Date = Date(day: nat, month: nat, year: nat, rest: string)

  function ParseDate(sep: char, s: string): Option<Date> {
    var d := NumberThen(s, sep);
    if d.None? then None
    else
      var m := NumberThen(d.value.1, sep);
      if m.None? then None
      else
        var y := Number(m.value.1, 4, 4);
        if y.None? || |y.value.1| == 0 || !IsSpace(y.value.1[0]) then None
        else Some(Date(d.value.0, m.value.0, y.value.0, SkipSpaces(y.value.1)))
  }

  /** Minutes, and seconds if the format has them, to the end of the text. */
  function ParseMinutes(seconds: bool, s: string): Option<(nat, nat)> {
    if seconds then
      var m := NumberThen(s, ':');
      if m.None? then None
      else
        var t := Number(m.value.1, 1, 2);
        if t.None? || t.value.1 != "" then None else Some((m.value.0, t.value.0))
    else
      var m := Number(s, 1, 2);
      if m.None? || m.value.1 != "" then None else Some((m.value.0, 0))
  }

  function Parse(f: Format, s: string): Option<Stamp> {
    var date := ParseDate(f.sep, s);
    if date.None? then None
    else
      var h := NumberThen(date.value.rest, ':');
      if h.None? then None
      else
        var ms := ParseMinutes(f.seconds, h.value.1);
        if ms.None? then None
        else
          var t := Stamp(date.value.year, date.value.month, date.value.day, h.value.0, ms.value.0, ms.value.1);
          if IsTime(t) then Some(t) else None
  }

  /** The first format that accepts the text. */
  function FirstOf(fmts: seq<Format>, s: string): Option<Stamp> {
    if |fmts| == 0 then None
    else if Parse(fmts[0], s).Some? then Parse(fmts[0], s)
    else FirstOf(fmts[1..], s)
  }

  function ToDt(fmts: seq<Format>, text: string): Option<Stamp> {
    var s := Strip(text);
    if s == "" then None else FirstOf(fmts, s)
  }

  /* ------------------------------------------------------- formats do not overlap */

  lemma MinutesOneWay(s: string)
    ensures !(ParseMinutes(true, s).Some? && ParseMinutes(false, s).Some?)
  {
  }

  /** No text is accepted by two formats. */
  lemma FormatsDisjoint(f: Format, g: Format, s: string)
    requires Parse(f, s).Some? && Parse(g, s).Some?
    ensures f == g
  {
    assert f.sep == g.sep;
    MinutesOneWay(NumberThen(ParseDate(f.sep, s).value.rest, ':').value.1);
  }

  lemma {:induction false} FirstIsAny(fmts: seq<Format>, s: string, f: Format)
    requires f in fmts && Parse(f, s).Some?
    ensures FirstOf(fmts, s) == Parse(f, s)
  {
    if Parse(fmts[0], s).Some? {
      FormatsDisjoint(f, fmts[0], s);
    } else {
      FirstIsAny(fmts[1..], s, f);
    }
  }

  lemma {:induction false} FirstAmong(fmts: seq<Format>, s: string) returns (f: Format)
    requires FirstOf(fmts, s).Some?
    ensures f in fmts && Parse(f, s) == FirstOf(fmts, s)
  {
    if Parse(fmts[0], s).Some? {
      f := fmts[0];
    } else {
      f := FirstAmong(fmts[1..], s);
    }
  }

  /** The order in which formats are tried does not matter. */
  lemma FormatOrderIrrelevant(fmts: seq<Format>, other: seq<Format>, text: string)
    requires forall f :: f in fmts <==> f in other
    ensures ToDt(fmts, text) == ToDt(other, text)
  {
    var s := Strip(text);
    if FirstOf(fmts, s).Some? {
      var f := FirstAmong(fmts, s);
      FirstIsAny(other, s, f);
    } else if FirstOf(other, s).Some? {
      var f := FirstAmong(other, s);
      FirstIsAny(fmts, s, f);
    }
  }

  /** The two modules read every text alike. */
  lemma ModulesAgree(text: string)
    ensures ToDt(BUILDING_FMTS, text) == ToDt(MERGING_FMTS, text)
  {
    FormatOrderIrrelevant(BUILDING_FMTS, MERGING_FMTS, text);
  }

  /* ----------------------------------------------------------------- printing */

  function Two(n: nat): (s: string)
    requires n < 100
    ensures |s| == 2
  {
    [DigitChar(n / 10), DigitChar(n % 10)]
  }

  function Four(n: nat): (s: string)
    requires n < 10000
    ensures |s| == 4
  {
    Two(n / 100) + Two(n % 100)
  }

  function Clock(seconds: bool, t: Stamp): string
    requires IsTime(t)
  {
    Two(t.hour) + ([':'] + (Two(t.minute) + (if seconds then [':'] + Two(t.second) else "")))
  }

  /** `strftime` with any of the six formats. */
  function RenderAs(f: Format, t: Stamp): string
    requires IsTime(t)
  {
    Two(t.day) + ([f.sep] + (Two(t.month) + ([f.sep] + (Four(t.year) + ([' '] + Clock(f.seconds, t))))))
  }

  /** The printed format. */
  function Render(t: Stamp): string
    requires IsTime(t)
  {
    RenderAs(DT_FMT, t)
  }

  predicate StopsDigits(s: string) { |s| == 0 || !IsDigit(s[0]) }

  lemma {:induction false} LeadingRun(s: string, rest: string)
    requires forall i :: 0 <= i < |s| ==> IsDigit(s[i])
    requires StopsDigits(rest)
    ensures Leading(s + rest) == |s|
  {
    if |s| == 0 {
      assert s + rest == rest;
    } else {
      LeadingRun(s[1..], rest);
      assert (s + rest)[1..] == s[1..] + rest;
    }
  }

  lemma NumberReads(s: string, rest: string, lo: nat, hi: nat)
    requires forall i :: 0 <= i < |s| ==> IsDigit(s[i])
    requires StopsDigits(rest) && lo <= |s| <= hi
    ensures Number(s + rest, lo, hi) == Some((DigitsValue(s), rest))
  {
    LeadingRun(s, rest);
    assert (s + rest)[..|s|] == s && (s + rest)[|s|..] == rest;
  }

  lemma OneValue(c: char)
    requires IsDigit(c)
    ensures DigitsValue([c]) == DigitValue(c)
  {
    assert [c][..0] == "";
  }

  lemma TwoValue(n: nat)
    requires n < 100
    ensures (forall i :: 0 <= i < 2 ==> IsDigit(Two(n)[i])) && DigitsValue(Two(n)) == n
  {
    var s := Two(n);
    assert DigitValue(s[0]) == n / 10 && DigitValue(s[1]) == n % 10;
    OneValue(s[0]);
    assert s[..1] == [s[0]];
  }

  lemma FourValue(n: nat)
    requires n < 10000
    ensures (forall i :: 0 <= i < 4 ==> IsDigit(Four(n)[i])) && DigitsValue(Four(n)) == n
  {
    var s := Four(n);
    TwoValue(n / 100);
    TwoValue(n % 100);
    var low := Two(n % 100);
    assert s[..3] == Two(n / 100) + low[..1];
    assert s[..3][..2] == Two(n / 100);
    assert low[..1][..0] == "";
  }

  lemma NumberThenReads(n: nat, c: char, rest: string)
    requires n < 100 && !IsDigit(c)
    ensures NumberThen(Two(n) + ([c] + rest), c) == Some((n, rest))
  {
    TwoValue(n);
    NumberReads(Two(n), [c] + rest, 1, 2);
    assert ([c] + rest)[1..] == rest;
  }

  lemma MinutesRead(seconds: bool, t: Stamp)
    requires IsTime(t)
    ensures ParseMinutes(seconds, Two(t.minute) + (if seconds then [':'] + Two(t.second) else "")) ==
            Some((t.minute, if seconds then t.second else 0))
  {
    if seconds {
      NumberThenReads(t.minute, ':', Two(t.second));
      TwoValue(t.second);
      NumberReads(Two(t.second), "", 1, 2);
      assert Two(t.second) + "" == Two(t.second);
    } else {
      TwoValue(t.minute);
      NumberReads(Two(t.minute), "", 1, 2);
    }
  }

  lemma ClockReads(seconds: bool, t: Stamp)
    requires IsTime(t)
    ensures var tail := Two(t.minute) + (if seconds then [':'] + Two(t.second) else "");
            NumberThen(Clock(seconds, t), ':') == Some((t.hour, tail))
    ensures SkipSpaces([' '] + Clock(seconds, t)) == Clock(seconds, t)
  {
    NumberThenReads(t.hour, ':', Two(t.minute) + (if seconds then [':'] + Two(t.second) else ""));
    TwoValue(t.hour);
    assert ([' '] + Clock(seconds, t))[1..] == Clock(seconds, t);
    assert Clock(seconds, t)[0] == Two(t.hour)[0];
  }

  lemma DateReads(f: Format, t: Stamp)
    requires IsTime(t) && !IsDigit(f.sep)
    ensures ParseDate(f.sep, RenderAs(f, t)) == Some(Date(t.day, t.month, t.year, Clock(f.seconds, t)))
  {
    var tail := [' '] + Clock(f.seconds, t);
    NumberThenReads(t.day, f.sep, Two(t.month) + ([f.sep] + (Four(t.year) + tail)));
    NumberThenReads(t.month, f.sep, Four(t.year) + tail);
    FourValue(t.year);
    NumberReads(Four(t.year), tail, 4, 4);
    ClockReads(f.seconds, t);
  }

  lemma RenderIsStripped(f: Format, t: Stamp)
    requires IsTime(t)
    ensures Strip(RenderAs(f, t)) == RenderAs(f, t) && RenderAs(f, t) != ""
  {
    TwoValue(t.day);
    TwoValue(t.minute);
    TwoValue(t.second);
    var s := RenderAs(f, t);
    assert s[0] == Two(t.day)[0];
    assert s[|s| - 1] == if f.seconds then Two(t.second)[1] else Two(t.minute)[1];
  }

  /** What is left of a time in a format. */
  function Kept(f: Format, t: Stamp): Stamp {
    if f.seconds then t else t.(second := 0)
  }

  lemma FormatReads(f: Format, t: Stamp)
    requires IsTime(t) && !IsDigit(f.sep)
    ensures Parse(f, RenderAs(f, t)) == Some(Kept(f, t))
  {
    DateReads(f, t);
    ClockReads(f.seconds, t);
    MinutesRead(f.seconds, t);
  }

  /** Printing a time in any of the six formats and reading it back, in either module, gives the same time,
      to the minute where the format has no seconds. */
  lemma EveryFormatRoundTrip(f: Format, t: Stamp)
    requires IsTime(t) && f.sep in {':', '-', '/'}
    ensures ToDt(BUILDING_FMTS, RenderAs(f, t)) == Some(Kept(f, t))
    ensures ToDt(MERGING_FMTS, RenderAs(f, t)) == Some(Kept(f, t))
  {
    FormatReads(f, t);
    RenderIsStripped(f, t);
    assert f in BUILDING_FMTS && f in MERGING_FMTS by {
      assert f == Format(f.sep, f.seconds);
    }
    FirstIsAny(BUILDING_FMTS, RenderAs(f, t), f);
    FirstIsAny(MERGING_FMTS, RenderAs(f, t), f);
  }

  /** Printing a time and reading it back gives the same second, in either module. */
  lemma PrintReadRoundTrip(t: Stamp)
    requires IsTime(t)
    ensures ToDt(BUILDING_FMTS, Render(t)) == Some(t) && ToDt(MERGING_FMTS, Render(t)) == Some(t)
  {
    EveryFormatRoundTrip(DT_FMT, t);
  }

  /** The accepted formats: three separators, with and without seconds. */
  lemma SixFormats(f: Format)
    ensures f in BUILDING_FMTS <==> f.sep == ':' || f.sep == '-' || f.sep == '/'
    ensures f in MERGING_FMTS <==> f in BUILDING_FMTS
  {
    assert f == Format(f.sep, f.seconds);
  }

  /** What a fold writes into a date cell: `DD-MM-YYYY HH:MM:SS`, each number in its place. */
  lemma PrintedShape(t: Stamp)
    requires IsTime(t)
    ensures var s := Render(t);
            && |s| == 19 && s[2] == s[5] == '-' && s[10] == ' ' && s[13] == s[16] == ':'
            && AllDigits(s[..2]) && DigitsValue(s[..2]) == t.day
            && AllDigits(s[3..5]) && DigitsValue(s[3..5]) == t.month
            && AllDigits(s[6..10]) && DigitsValue(s[6..10]) == t.year
            && AllDigits(s[11..13]) && DigitsValue(s[11..13]) == t.hour
            && AllDigits(s[14..16]) && DigitsValue(s[14..16]) == t.minute
            && AllDigits(s[17..]) && DigitsValue(s[17..]) == t.second
  {
    var s := Render(t);
    TwoValue(t.day);
    TwoValue(t.month);
    FourValue(t.year);
    TwoValue(t.hour);
    TwoValue(t.minute);
    TwoValue(t.second);
    assert s[..2] == Two(t.day) && s[3..5] == Two(t.month) && s[6..10] == Four(t.year);
    assert s[11..13] == Two(t.hour) && s[14..16] == Two(t.minute) && s[17..] == Two(t.second);
  }

  /* ------------------------------------------------------ exactly what is read */

  /** The pieces of a text: numbers, and the white space between date and time. */
  datatype Parts = Parts(
    day: string, month: string, year: string, gap: string, hour: string, minute: string, second: string)

  predicate IsShort(s: string) { AllDigits(s) && |s| <= 2 }

  predicate IsGap(s: string) { |s| > 0 && forall i :: 0 <= i < |s| ==> IsSpace(s[i]) }

  /** Numbers of one or two digits, a year of four, and white space between date and time. */
  predicate IsParts(f: Format, q: Parts) {
    && IsShort(q.day) && IsShort(q.month) && AllDigits(q.year) && |q.year| == 4 && IsGap(q.gap)
    && IsShort(q.hour) && IsShort(q.minute) && (f.seconds ==> IsShort(q.second))
  }

  function TimeText(f: Format, q: Parts): string {
    q.hour + ([':'] + (q.minute + (if f.seconds then [':'] + q.second else "")))
  }

  function SpelledText(f: Format, q: Parts): string {
    q.day + ([f.sep] + (q.month + ([f.sep] + (q.year + (q.gap + TimeText(f, q))))))
  }

  function SpelledTime(f: Format, q: Parts): Stamp
    requires IsParts(f, q)
  {
    Stamp(DigitsValue(q.year), DigitsValue(q.month), DigitsValue(q.day), DigitsValue(q.hour), DigitsValue(q.minute),
          if f.seconds then DigitsValue(q.second) else 0)
  }

  lemma ShortThenReads(n: string, c: char, rest: string)
    requires IsShort(n) && !IsDigit(c)
    ensures NumberThen(n + ([c] + rest), c) == Some((DigitsValue(n), rest))
  {
    NumberReads(n, [c] + rest, 1, 2);
    assert ([c] + rest)[1..] == rest;
  }

  lemma {:induction false} SkipsGap(gap: string, rest: string)
    requires forall i :: 0 <= i < |gap| ==> IsSpace(gap[i])
    requires |rest| > 0 && !IsSpace(rest[0])
    ensures SkipSpaces(gap + rest) == rest
  {
    if |gap| == 0 {
      assert gap + rest == rest;
    } else {
      assert (gap + rest)[1..] == gap[1..] + rest;
      SkipsGap(gap[1..], rest);
    }
  }

  lemma DatePartsRead(f: Format, q: Parts)
    requires IsParts(f, q) && !IsDigit(f.sep)
    ensures ParseDate(f.sep, SpelledText(f, q)) ==
            Some(Date(DigitsValue(q.day), DigitsValue(q.month), DigitsValue(q.year), TimeText(f, q)))
  {
    var tail := q.gap + TimeText(f, q);
    ShortThenReads(q.day, f.sep, q.month + ([f.sep] + (q.year + tail)));
    ShortThenReads(q.month, f.sep, q.year + tail);
    assert tail[0] == q.gap[0] && !IsDigit(tail[0]);
    NumberReads(q.year, tail, 4, 4);
    assert TimeText(f, q)[0] == q.hour[0] && !IsSpace(q.hour[0]);
    SkipsGap(q.gap, TimeText(f, q));
  }

  lemma MinutePartsRead(f: Format, q: Parts)
    requires IsParts(f, q)
    ensures ParseMinutes(f.seconds, q.minute + (if f.seconds then [':'] + q.second else "")) ==
            Some((DigitsValue(q.minute), if f.seconds then DigitsValue(q.second) else 0))
  {
    if f.seconds {
      ShortThenReads(q.minute, ':', q.second);
      NumberReads(q.second, "", 1, 2);
      assert q.second + "" == q.second;
    } else {
      NumberReads(q.minute, "", 1, 2);
    }
  }

  lemma PartsRead(f: Format, q: Parts)
    requires IsParts(f, q) && !IsDigit(f.sep)
    ensures Parse(f, SpelledText(f, q)) == if IsTime(SpelledTime(f, q)) then Some(SpelledTime(f, q)) else None
  {
    DatePartsRead(f, q);
    ShortThenReads(q.hour, ':', q.minute + (if f.seconds then [':'] + q.second else ""));
    MinutePartsRead(f, q);
  }

  lemma NumberThenSplits(s: string, c: char) returns (n: string, rest: string)
    requires NumberThen(s, c).Some?
    ensures IsShort(n) && s == n + ([c] + rest) && NumberThen(s, c) == Some((DigitsValue(n), rest))
  {
    var k := Leading(s);
    n, rest := s[..k], s[k + 1..];
    assert s[k..] == [c] + rest;
    assert s == s[..k] + s[k..];
  }

  lemma {:induction false} GapSplits(s: string) returns (gap: string)
    ensures s == gap + SkipSpaces(s) && forall i :: 0 <= i < |gap| ==> IsSpace(gap[i])
    ensures |s| > 0 && IsSpace(s[0]) ==> |gap| > 0
  {
    if |s| > 0 && IsSpace(s[0]) {
      var rest := GapSplits(s[1..]);
      gap := [s[0]] + rest;
      assert s == [s[0]] + s[1..];
    } else {
      gap := "";
    }
  }

  lemma DateSplits(sep: char, s: string) returns (day: string, month: string, year: string, gap: string)
    requires ParseDate(sep, s).Some?
    ensures IsShort(day) && IsShort(month) && AllDigits(year) && |year| == 4 && IsGap(gap)
    ensures var d := ParseDate(sep, s).value;
            && s == day + ([sep] + (month + ([sep] + (year + (gap + d.rest)))))
            && d.day == DigitsValue(day) && d.month == DigitsValue(month) && d.year == DigitsValue(year)
  {
    var rest, last;
    day, rest := NumberThenSplits(s, sep);
    month, last := NumberThenSplits(rest, sep);
    year := last[..Leading(last)];
    assert last == year + last[Leading(last)..];
    gap := GapSplits(last[Leading(last)..]);
  }

  lemma MinutesSplit(seconds: bool, s: string) returns (minute: string, second: string)
    requires ParseMinutes(seconds, s).Some?
    ensures IsShort(minute) && (seconds ==> IsShort(second))
    ensures s == minute + (if seconds then [':'] + second else "")
    ensures ParseMinutes(seconds, s) == Some((DigitsValue(minute), if seconds then DigitsValue(second) else 0))
  {
    if seconds {
      minute, second := NumberThenSplits(s, ':');
      assert second[..Leading(second)] == second;
    } else {
      minute, second := s, "";
      assert s[..Leading(s)] == s;
      assert s + "" == s;
    }
  }

  /** A format accepts exactly the texts that spell a time in it, and reads that time. */
  lemma ParseSplits(f: Format, s: string) returns (q: Parts)
    requires Parse(f, s).Some?
    ensures IsParts(f, q) && s == SpelledText(f, q) && Parse(f, s) == Some(SpelledTime(f, q))
  {
    var day, month, year, gap := DateSplits(f.sep, s);
    var clock := ParseDate(f.sep, s).value.rest;
    var hour, tail := NumberThenSplits(clock, ':');
    var minute, second := MinutesSplit(f.seconds, tail);
    q := Parts(day, month, year, gap, hour, minute, second);
  }

  ghost predicate Spells(f: Format, s: string, t: Stamp) {
    exists q :: IsParts(f, q) && s == SpelledText(f, q) && t == SpelledTime(f, q)
  }

  /** A format reads a text as a time exactly when the text spells it and it exists: day, month and year with
      the separator between them, white space, hour, minute and, if the format has them, seconds. */
  lemma ParseIff(f: Format, s: string, t: Stamp)
    requires !IsDigit(f.sep)
    ensures Parse(f, s) == Some(t) <==> Spells(f, s, t) && IsTime(t)
  {
    if Parse(f, s) == Some(t) {
      var q := ParseSplits(f, s);
    }
    if Spells(f, s, t) && IsTime(t) {
      var q :| IsParts(f, q) && s == SpelledText(f, q) && t == SpelledTime(f, q);
      PartsRead(f, q);
    }
  }

  /** The leap years among the years 1 to `y`. */
  function LeapYearsTo(y: nat): int { y / 4 - y / 100 + y / 400 }

  /** The calendar, said without its tables: months of 31 and 30 days take turns, with August starting over,
      and February has 28 days and one more in a leap year. */
  lemma CalendarIff(t: Stamp)
    ensures IsTime(t) <==>
            && 1678 <= t.year <= 2261 && 1 <= t.month <= 12 && 1 <= t.day
            && t.day <= (if t.month == 2 then 28 + LeapYearsTo(t.year) - LeapYearsTo(t.year - 1)
                         else 30 + (t.month + t.month / 8) % 2)
            && 0 <= t.hour <= 23 && 0 <= t.minute <= 59 && 0 <= t.second <= 59
  {
    if 1678 <= t.year <= 2261 {
      LeapRule(t.year);
    }
    if 1 <= t.month <= 12 {
      assert t.month == 2 || DaysIn(t.year, t.month) == 30 + (t.month + t.month / 8) % 2;
    }
  }

  lemma LeapRule(y: nat)
    requires y > 0
    ensures LeapYearsTo(y) - LeapYearsTo(y - 1) == if IsLeap(y) then 1 else 0
  {
    StepOf(y, 4);
    StepOf(y, 100);
    StepOf(y, 400);
  }

  lemma StepOf(y: nat, n: nat)
    requires y > 0 && n > 0
    ensures y / n - (y - 1) / n == if y % n == 0 then 1 else 0
  {
    var q, r := (y - 1) / n, (y - 1) % n;
    assert y == q * n + (r + 1);
    if r + 1 == n {
      assert y == (q + 1) * n;
      QuotientOf(y, n, q + 1, 0);
    } else {
      QuotientOf(y, n, q, r + 1);
    }
  }

  lemma QuotientOf(y: nat, n: nat, q: int, r: int)
    requires n > 0 && y == q * n + r && 0 <= r < n
    ensures y / n == q && y % n == r
  {
    var e := y / n - q;
    assert e * n == r - y % n;
    Multiples(e, n);
  }

  lemma Multiples(e: int, n: int)
    requires n > 0
    ensures e >= 1 ==> e * n >= n
    ensures e <= -1 ==> e * n <= -n
  {
  }

  /* ------------------------------------------------------------- white space */

  lemma {:induction false} SkipsLeading(pad: string, s: string)
    requires forall i :: 0 <= i < |pad| ==> pad[i] in {' ', '\t', '\n', '\r'}
    requires |s| > 0 && s[0] !in {' ', '\t', '\n', '\r'}
    ensures SkipSpaces(pad + s) == s
  {
    if |pad| == 0 {
      assert pad + s == s;
    } else {
      assert (pad + s)[1..] == pad[1..] + s;
      SkipsLeading(pad[1..], s);
    }
  }

  lemma {:induction false} DropsTrailing(s: string, pad: string)
    requires forall i :: 0 <= i < |pad| ==> pad[i] in {' ', '\t', '\n', '\r'}
    requires |s| > 0 && s[|s| - 1] !in {' ', '\t', '\n', '\r'}
    ensures DropTrailing(s + pad) == s
  {
    if |pad| == 0 {
      assert s + pad == s;
    } else {
      assert (s + pad)[..|s + pad| - 1] == s + pad[..|pad| - 1];
      DropsTrailing(s, pad[..|pad| - 1]);
    }
  }

  /** White space around a printed time does not change what is read. */
  lemma PaddedTextRead(f: Format, t: Stamp, left: string, right: string)
    requires IsTime(t) && f.sep in {':', '-', '/'}
    requires forall i :: 0 <= i < |left| ==> left[i] in {' ', '\t', '\n', '\r'}
    requires forall i :: 0 <= i < |right| ==> right[i] in {' ', '\t', '\n', '\r'}
    ensures ToDt(BUILDING_FMTS, left + (RenderAs(f, t) + right)) == Some(Kept(f, t))
  {
    var s := RenderAs(f, t);
    TwoValue(t.day);
    TwoValue(t.minute);
    TwoValue(t.second);
    assert IsDigit(s[0]) && IsDigit(s[|s| - 1]) by {
      assert s[0] == Two(t.day)[0];
      assert s[|s| - 1] == if f.seconds then Two(t.second)[1] else Two(t.minute)[1];
    }
    SkipsLeading(left, s + right);
    DropsTrailing(s, right);
    EveryFormatRoundTrip(f, t);
    RenderIsStripped(f, t);
  }

  /** Blank texts are no time. */
  lemma BlankTextRead(s: string)
    requires forall i :: 0 <= i < |s| ==> s[i] in {' ', '\t', '\n', '\r'}
    ensures ToDt(BUILDING_FMTS, s) == None
  {
    AllSkipped(s);
  }

  lemma {:induction false} AllSkipped(s: string)
    requires forall i :: 0 <= i < |s| ==> s[i] in {' ', '\t', '\n', '\r'}
    ensures SkipSpaces(s) == ""
  {
    if |s| > 0 {
      AllSkipped(s[1..]);
    }
  }
}
