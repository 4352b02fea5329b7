/** The hand-written parser for a weekday's availability window
    `"H:MM-H:MM"`, as the booking layer, both booking endpoints, the resource
    page and the search page each repeat it.

    `'-' in value` comes first and raises `TypeError` for a value that is not a
    container; `value.split('-')` raises `AttributeError` for a list or dict;
    unpacking into two parts, `int()` and `time.replace(hour=, minute=)`
    raise `ValueError`.
 */
module Windows {
  import opened Base
  import opened PyText
  import opened PyJson
  import opened Clock

  /** Opening and closing minute of the day. */
  datatype Window = Window(start: int, end: int)

  predicate ValidClock(m: int)
  {
    0 <= m < MinutesPerDay
  }

  /** `h, m = map(int, text.split(':'))` followed by `time().replace(hour=h, minute=m)`. */
  function ParseClock(text: string): (r: Outcome<int>)
    ensures r.Raised? ==> r.error == ValueError
    ensures r.Ok? ==> ValidClock(r.value)
    ensures r.Ok? ==> |Split(text, ':')| == 2
  {
    var parts := Split(text, ':');
    if |parts| != 2 then Raised(ValueError)
    else ClockOf(ParseInt(parts[0]), ParseInt(parts[1]))
  }

  /** The `time().replace(hour=h, minute=m)` step on the two parsed halves. */
  function ClockOf(hour: Option<int>, minute: Option<int>): (r: Outcome<int>)
    ensures r.Raised? ==> r.error == ValueError
    ensures r.Ok? ==> ValidClock(r.value)
  {
    if hour.Some? && minute.Some? && 0 <= hour.value < 24 && 0 <= minute.value < 60
    then Ok(hour.value * MinutesPerHour + minute.value)
    else Raised(ValueError)
  }

  /** `'-' in value` and, when it holds, `start, end = value.split('-')`.
      `None` when the value has no `'-'`. */
  function SplitWindow(value: Json): (r: Outcome<Option<(string, string)>>)
    ensures r.Raised? ==> (r.error == TypeError <==> !IsContainer(value))
    ensures r.Ok? && r.value.Some? ==> value.JStr? && '-' in value.s
    ensures value.JStr? && '-' !in value.s ==> r == Ok(None)
  {
    match In("-", value)
    case Raised(e) => Raised(e)
    case Ok(false) =>
      ContainsCharFact(value);
      Ok(None)
    case Ok(true) =>
      if value.JStr? then
        ContainsCharFact(value);
        var parts := Split(value.s, '-');
        if |parts| == 2 then Ok(Some((parts[0], parts[1]))) else Raised(ValueError)
      else Raised(AttributeError)
  }

  lemma ContainsCharFact(value: Json)
    ensures value.JStr? ==> (In("-", value) == Ok(true) <==> '-' in value.s)
  {
    if value.JStr? {
      ContainsChar(value.s, '-');
    }
  }

  /** The whole window parse of one rules value: `Ok(None)` when the value has
      no `'-'`, the window when both clocks parse, the raised error otherwise. */
  function ParseWindow(value: Json): (r: Outcome<Option<Window>>)
    ensures r.Ok? && r.value.Some? ==> ValidClock(r.value.value.start) && ValidClock(r.value.value.end)
    ensures r.Ok? && r.value.None? <==> SplitWindow(value) == Ok(None)
    ensures r.Ok? && r.value.Some? ==> value.JStr? && '-' in value.s && Truthy(value)
  {
    match SplitWindow(value)
    case Raised(e) => Raised(e)
    case Ok(None) => Ok(None)
    case Ok(Some((a, b))) => WindowOf(ParseClock(a), ParseClock(b))
  }

  /** The window of the two parsed ends; the start's error comes first. */
  function WindowOf(start: Outcome<int>, end: Outcome<int>): Outcome<Option<Window>>
  {
    match (start, end)
    case (Ok(ws), Ok(we)) => Ok(Some(Window(ws, we)))
    case (Raised(e), _) => Raised(e)
    case (_, Raised(e)) => Raised(e)
  }

  /** Two-digit minute text, as an HTML time input submits it. */
  function Pad2(n: nat): (r: string)
    requires n < 100
    ensures |r| == 2 && IsDigit(r[0]) && IsDigit(r[1])
  {
    [DigitChar(n / 10), DigitChar(n % 10)]
  }

  /** `"H:MM"` for a minute of the day. */
  function ClockText(m: int): (r: string)
    requires ValidClock(m)
    ensures ':' in r && '-' !in r
  {
    var t := Decimal(m / MinutesPerHour) + ":" + Pad2(m % MinutesPerHour);
    assert t[|Decimal(m / MinutesPerHour)|] == ':';
    t
  }

  /** Rendered clock text has no surrounding whitespace. */
  lemma ClockTextUnpadded(m: int)
    requires ValidClock(m)
    ensures Strip(ClockText(m)) == ClockText(m)
  {
    var t := ClockText(m);
    var h := Decimal(m / MinutesPerHour);
    assert t == h + ":" + Pad2(m % MinutesPerHour);
    assert IsDigit(t[|t| - 1]);
    assert IsDigit(h[0]);
    assert t[0] == h[0];
    StripUnpadded(t);
  }

  /** `"H:MM-H:MM"`, the text the resource forms store for a window. */
  function WindowText(w: Window): (r: string)
    requires ValidClock(w.start) && ValidClock(w.end)
    ensures '-' in r
  {
    var t := ClockText(w.start) + "-" + ClockText(w.end);
    assert t[|ClockText(w.start)|] == '-';
    t
  }

  lemma {:induction false} ParsePad2(n: nat)
    requires n < 100
    ensures ParseInt(Pad2(n)) == Some(n)
  {
    var p := Pad2(n);
    assert p[..1][..0] == [];
    assert DigitsValue(p[..1]) == n / 10;
    assert DigitsValue(p) == n;
    ParseIntDigits(p);
  }

  /** `ParseClock` on `a:b` where neither side holds a colon: the two integers, range-checked. */
  lemma ParseClockPair(a: string, b: string, h: int, mm: int)
    requires ':' !in a && ':' !in b
    requires ParseInt(a) == Some(h) && ParseInt(b) == Some(mm)
    ensures 0 <= h < 24 && 0 <= mm < 60 ==> ParseClock(a + [':'] + b) == Ok(h * MinutesPerHour + mm)
    ensures !(0 <= h < 24 && 0 <= mm < 60) ==> ParseClock(a + [':'] + b) == Raised(ValueError)
  {
    SplitPair(a, b, ':');
    ParseClockParts(a + [':'] + b, a, b);
    ClockOfParsed(ParseInt(a), ParseInt(b), h, mm);
  }

  lemma ParseClockParts(text: string, a: string, b: string)
    requires Split(text, ':') == [a, b]
    ensures ParseClock(text) == ClockOf(ParseInt(a), ParseInt(b))
  {
    var parts := Split(text, ':');
    assert parts[0] == a && parts[1] == b;
  }

  lemma ClockOfParsed(hour: Option<int>, minute: Option<int>, h: int, mm: int)
    requires hour == Some(h) && minute == Some(mm)
    ensures 0 <= h < 24 && 0 <= mm < 60 ==> ClockOf(hour, minute) == Ok(h * MinutesPerHour + mm)
    ensures !(0 <= h < 24 && 0 <= mm < 60) ==> ClockOf(hour, minute) == Raised(ValueError)
  {
  }

  lemma DigitsHaveNoSeparators(d: string)
    requires forall k :: 0 <= k < |d| ==> IsDigit(d[k])
    ensures ':' !in d && '-' !in d
  {
  }

  /** Reading back a rendered clock gives the minute of the day it was made from. */
  lemma {:induction false} ClockRoundTrip(m: int)
    requires ValidClock(m)
    ensures ParseClock(ClockText(m)) == Ok(m)
  {
    var h := m / MinutesPerHour;
    var mm := m % MinutesPerHour;
    HourMinuteSplit(m);
    var t := ClockText(m);
    assert t == Decimal(h) + [':'] + Pad2(mm);
    ClockPartsRoundTrip(h, mm);
    assert ParseClock(t) == Ok(h * MinutesPerHour + mm);
  }

  lemma HourMinuteSplit(m: int)
    requires ValidClock(m)
    ensures 0 <= m / MinutesPerHour < 24 && (m / MinutesPerHour) * MinutesPerHour + m % MinutesPerHour == m
  {
  }

  lemma ClockPartsRoundTrip(h: nat, mm: nat)
    requires h < 24 && mm < 60
    ensures ParseClock(Decimal(h) + [':'] + Pad2(mm)) == Ok(h * MinutesPerHour + mm)
  {
    DigitsHaveNoSeparators(Decimal(h));
    DigitsHaveNoSeparators(Pad2(mm));
    ParseIntDecimal(h);
    ParsePad2(mm);
    ParseClockPair(Decimal(h), Pad2(mm), h, mm);
  }

  /** Reading back a rendered window gives the window it was made from. */
  lemma {:induction false} WindowRoundTrip(w: Window)
    requires ValidClock(w.start) && ValidClock(w.end)
    ensures ParseWindow(JStr(WindowText(w))) == Ok(Some(w))
  {
    var a := ClockText(w.start);
    var b := ClockText(w.end);
    assert WindowText(w) == a + ['-'] + b;
    SplitWindowPair(a, b);
    ClockRoundTrip(w.start);
    ClockRoundTrip(w.end);
    WindowOfParsed(ParseClock(a), ParseClock(b), w);
  }

  /** A value `a-b` with no other dash unpacks into `a` and `b`. */
  lemma SplitWindowPair(a: string, b: string)
    requires '-' !in a && '-' !in b
    ensures ParseWindow(JStr(a + ['-'] + b)) == WindowOf(ParseClock(a), ParseClock(b))
  {
    SplitPair(a, b, '-');
    assert (a + ['-'] + b)[|a|] == '-';
    ContainsCharFact(JStr(a + ['-'] + b));
  }

  lemma WindowOfParsed(start: Outcome<int>, end: Outcome<int>, w: Window)
    requires start == Ok(w.start) && end == Ok(w.end)
    ensures WindowOf(start, end) == Ok(Some(w))
  {
  }

  /** An hour of 24 or more is refused with `ValueError`, even when the text is well formed. */
  lemma {:induction false} HourOutOfRange(h: nat, mm: nat)
    requires h >= 24 && mm < 60
    ensures ParseClock(Decimal(h) + ":" + Pad2(mm)) == Raised(ValueError)
  {
    DigitsHaveNoSeparators(Decimal(h));
    DigitsHaveNoSeparators(Pad2(mm));
    ParseIntDecimal(h);
    ParsePad2(mm);
    assert Decimal(h) + ":" + Pad2(mm) == Decimal(h) + [':'] + Pad2(mm);
    ParseClockPair(Decimal(h), Pad2(mm), h, mm);
  }

  /** A value with two or more dashes cannot be unpacked into start and end. */
  lemma {:induction false} ExtraDashRefused(a: string, b: string, c: string)
    requires '-' !in a && '-' !in b
    ensures ParseWindow(JStr(a + "-" + b + "-" + c)) == Raised(ValueError)
  {
    var s := a + "-" + b + "-" + c;
    assert s == a + ['-'] + (b + ['-'] + c);
    SplitFirst(a, b + ['-'] + c, '-');
    SplitFirst(b, c, '-');
    assert s[|a|] == '-';
    PiecesNotTwoRefused(s);
  }

  /** A value with a `'-'` that does not split into exactly two pieces is refused. */
  lemma PiecesNotTwoRefused(s: string)
    requires '-' in s && |Split(s, '-')| != 2
    ensures ParseWindow(JStr(s)) == Raised(ValueError)
  {
    ContainsCharFact(JStr(s));
  }

  /** The seed data's window "8:00-22:00" opens at 480 and closes at 1320. */
  lemma SeedWindow()
    ensures ParseWindow(JStr("8:00-22:00")) == Ok(Some(Window(480, 1320)))
  {
    ClockEight();
    ClockTwentyTwo();
    WindowTextReadsBack(Window(480, 1320), "8:00", "22:00", "8:00-22:00");
  }

  lemma ClockEight()
    ensures ClockText(480) == "8:00"
  {
    ClockTextIs(8, 0, "8", "00");
  }

  lemma ClockTwentyTwo()
    ensures ClockText(1320) == "22:00"
  {
    DecimalTwoDigits(22);
    ClockTextIs(22, 0, "22", "00");
  }

  /** The clock text of `h:mm` from the texts of its two parts. */
  lemma ClockTextIs(h: nat, mm: nat, hours: string, minutes: string)
    requires h < 24 && mm < 60 && Decimal(h) == hours && Pad2(mm) == minutes
    ensures ClockText(h * MinutesPerHour + mm) == hours + ":" + minutes
  {
    HourMinuteSplitOf(h, mm);
  }

  lemma DecimalTwoDigits(n: nat)
    requires 10 <= n < 100
    ensures Decimal(n) == [DigitChar(n / 10), DigitChar(n % 10)]
  {
  }

  lemma HourMinuteSplitOf(h: nat, mm: nat)
    requires h < 24 && mm < 60
    ensures ValidClock(h * MinutesPerHour + mm)
    ensures (h * MinutesPerHour + mm) / MinutesPerHour == h && (h * MinutesPerHour + mm) % MinutesPerHour == mm
  {
  }

  /** A text known to be a window's rendering reads back as that window. */
  lemma WindowTextReadsBack(w: Window, a: string, b: string, text: string)
    requires ValidClock(w.start) && ValidClock(w.end)
    requires ClockText(w.start) == a && ClockText(w.end) == b && a + "-" + b == text
    ensures ParseWindow(JStr(text)) == Ok(Some(w))
  {
    WindowRoundTrip(w);
  }

  /** The built-in default "9:00-17:00" opens at 540 and closes at 1020. */
  lemma DefaultWindow()
    ensures ParseWindow(JStr("9:00-17:00")) == Ok(Some(Window(540, 1020)))
  {
    ClockNine();
    ClockSeventeen();
    WindowTextReadsBack(Window(540, 1020), "9:00", "17:00", "9:00-17:00");
  }

  lemma ClockNine()
    ensures ClockText(540) == "9:00"
  {
    ClockTextIs(9, 0, "9", "00");
  }

  lemma ClockSeventeen()
    ensures ClockText(1020) == "17:00"
  {
    DecimalTwoDigits(17);
    ClockTextIs(17, 0, "17", "00");
  }
}
