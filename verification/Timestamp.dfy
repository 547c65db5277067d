// Timestamps of tools/observe/src/clock.rs, rendered as text, and the order of
// that text, which tools/observe/src/intersect.rs takes for the order of time.
module Timestamp {
  import opened Calendar
  import opened Ordered
  import opened Text

  function Zeros(n: nat): string {
    if n == 0 then "" else "0" + Zeros(n - 1)
  }

  /** A number padded with zeros to at least `width` characters. */
  function Padded(n: nat, width: nat): string {
    var digits := Decimal(n);
    (if |digits| < width then Zeros(width - |digits|) else "") + digits
  }

  /** The same for a signed number, whose sign counts towards the width. */
  function PaddedSigned(n: int, width: nat): string
    requires width > 0
  {
    if n < 0 then "-" + Padded(-n, width - 1) else Padded(n, width)
  }

  /** A cast to a signed 64-bit integer. */
  function AsI64(n: nat): int {
    var low := n % 0x1_0000_0000_0000_0000;
    if low < 0x8000_0000_0000_0000 then low else low - 0x1_0000_0000_0000_0000
  }

  /** A number, the character after it, and the rest of the text. */
  function Number(n: nat, width: nat, end: char, rest: string): string {
    Padded(n, width) + ([end] + rest)
  }

  function Rendered(date: Date, secondsOfDay: nat, subMillis: nat): string
    requires Valid(date)
  {
    PaddedSigned(date.year, 4) + (['-'] +
    Number(date.month, 2, '-',
    Number(date.day, 2, 'T',
    Number(secondsOfDay / 3600, 2, ':',
    Number((secondsOfDay % 3600) / 60, 2, ':',
    Number(secondsOfDay % 60, 2, '.',
    Number(subMillis, 3, 'Z', "")))))))
  }

  /** `from_unix_millis`. */
  function FromUnixMillis(millis: nat): string {
    var totalSeconds := AsI64(millis / 1000);
    CivilFromDaysIsExact(totalSeconds / 86400);
    Rendered(CivilFromDays(totalSeconds / 86400), totalSeconds % 86400, millis % 1000)
  }

  // ----- fixed-width fields -----

  function Pow10(width: nat): nat {
    if width == 0 then 1 else 10 * Pow10(width - 1)
  }

  /** The last `width` digits of a number. */
  function Fixed(n: nat, width: nat): (text: string)
    ensures |text| == width
  {
    if width == 0 then "" else Fixed(n / 10, width - 1) + [Digit(n % 10)]
  }

  lemma {:induction false} FixedZero(width: nat)
    ensures Fixed(0, width) == Zeros(width)
  {
    if width > 0 {
      FixedZero(width - 1);
      ZerosEnd(width - 1);
    }
  }

  lemma {:induction false} ZerosEnd(n: nat)
    ensures Zeros(n) + "0" == "0" + Zeros(n)
  {
    if n > 0 {
      ZerosEnd(n - 1);
      assert Zeros(n) + "0" == "0" + (Zeros(n - 1) + "0");
    }
  }

  lemma FixedMore(n: nat, width: nat)
    requires width > 0
    ensures Fixed(n, width) == Fixed(n / 10, width - 1) + [Digit(n % 10)]
  {
  }

  lemma {:induction false} PaddedIsFixed(n: nat, width: nat)
    requires width > 0 && n < Pow10(width)
    ensures Padded(n, width) == Fixed(n, width)
  {
    if n < 10 {
      FixedZero(width - 1);
      assert Fixed(n, width) == Zeros(width - 1) + [Digit(n)];
    } else {
      assert width > 1 && n / 10 < Pow10(width - 1);
      PaddedIsFixed(n / 10, width - 1);
      hide Fixed; hide Zeros; hide Pow10;
      assert Decimal(n) == Decimal(n / 10) + [Digit(n % 10)];
      assert Padded(n, width) == Padded(n / 10, width - 1) + [Digit(n % 10)];
      FixedMore(n, width);
    }
  }

  lemma {:induction false} FixedOrder(a: nat, b: nat, width: nat)
    requires a < Pow10(width) && b < Pow10(width)
    ensures Less(Fixed(a, width), Fixed(b, width)) <==> a < b
    ensures Fixed(a, width) == Fixed(b, width) <==> a == b
  {
    if width > 0 {
      FixedOrder(a / 10, b / 10, width - 1);
      var da, db := [Digit(a % 10)], [Digit(b % 10)];
      LessByHead(Fixed(a / 10, width - 1), da, Fixed(b / 10, width - 1), db);
      assert Less(da, db) <==> a % 10 < b % 10;
      assert Fixed(a, width)[..width - 1] == Fixed(a / 10, width - 1);
      assert Fixed(b, width)[..width - 1] == Fixed(b / 10, width - 1);
      assert Fixed(a, width)[width - 1] == Digit(a % 10);
      assert Fixed(b, width)[width - 1] == Digit(b % 10);
    }
  }

  /** One number of a rendering, and the character after it. */
  datatype Field = Field(value: nat, width: nat, end: char)

  function FieldText(fields: seq<Field>): string {
    if fields == [] then ""
    else Fixed(fields[0].value, fields[0].width) + ([fields[0].end] + FieldText(fields[1..]))
  }

  ghost predicate SameShape(a: seq<Field>, b: seq<Field>) {
    && |a| == |b|
    && forall i :: 0 <= i < |a| ==> a[i].width == b[i].width && a[i].end == b[i].end
  }

  ghost predicate Fits(a: seq<Field>) {
    forall i :: 0 <= i < |a| ==> a[i].value < Pow10(a[i].width)
  }

  /** The first field that differs decides. */
  ghost predicate Earlier(a: seq<Field>, b: seq<Field>)
    requires |a| == |b|
  {
    a != [] && (a[0].value < b[0].value || (a[0].value == b[0].value && Earlier(a[1..], b[1..])))
  }

  lemma {:induction false} TextOrder(a: seq<Field>, b: seq<Field>)
    requires SameShape(a, b) && Fits(a) && Fits(b)
    ensures Less(FieldText(a), FieldText(b)) <==> Earlier(a, b)
  {
    if a != [] {
      var ta, tb := FieldText(a[1..]), FieldText(b[1..]);
      TextOrder(a[1..], b[1..]);
      FixedOrder(a[0].value, b[0].value, a[0].width);
      LessByHead([a[0].end], ta, [b[0].end], tb);
      LessIrreflexive([a[0].end]);
      LessByHead(Fixed(a[0].value, a[0].width), [a[0].end] + ta, Fixed(b[0].value, b[0].width), [b[0].end] + tb);
    }
  }

  // ----- text order is time order -----

  /** The first instant of the year 10000. */
  const YEAR_10000: nat := 253402300800000

  /** An instant by its date, second of the day and millisecond. */
  ghost predicate FourDigitYear(date: Date, secondsOfDay: nat, subMillis: nat) {
    && Valid(date) && 0 <= date.year < 10000
    && secondsOfDay < 86400 && subMillis < 1000
  }

  ghost function Fields(date: Date, secondsOfDay: nat, subMillis: nat): seq<Field>
    requires FourDigitYear(date, secondsOfDay, subMillis)
  {
    [Field(date.year, 4, '-'), Field(date.month, 2, '-'), Field(date.day, 2, 'T'),
     Field(secondsOfDay / 3600, 2, ':'), Field((secondsOfDay % 3600) / 60, 2, ':'),
     Field(secondsOfDay % 60, 2, '.'), Field(subMillis, 3, 'Z')]
  }

  lemma FieldsFit(date: Date, secondsOfDay: nat, subMillis: nat)
    requires FourDigitYear(date, secondsOfDay, subMillis)
    ensures Fits(Fields(date, secondsOfDay, subMillis))
  {
    PowersOfTen();
  }

  lemma DateBeforeYear10000(days: nat)
    requires days < YEAR_10000 / 86400000
    ensures 1970 <= CivilFromDays(days).year <= 9999
    ensures 1 <= CivilFromDays(days).month <= 12 && 1 <= CivilFromDays(days).day <= 31
  {
    var d := CivilFromDays(days);
    CivilFromDaysIsExact(days);
    var first, last := Date(1970, 1, 1), Date(9999, 12, 31);
    DaysOfYear9999();
    DayNumbersFollowDates(d, first);
    DayNumbersFollowDates(last, d);
  }

  lemma DaysOfYear9999()
    ensures DaysFromCivil(Date(1970, 1, 1)) == 0
    ensures DaysFromCivil(Date(9999, 12, 31)) == 2932896
  {
    MonthTable(1970);
    MonthTable(9999);
  }

  lemma TextStep(f: seq<Field>, i: nat)
    requires i < |f|
    requires f[i].value < Pow10(f[i].width) && f[i].width > 0
    ensures FieldText(f[i..]) == Number(f[i].value, f[i].width, f[i].end, FieldText(f[i + 1..]))
  {
    assert f[i..][1..] == f[i + 1..];
    PaddedIsFixed(f[i].value, f[i].width);
  }

  lemma RenderedAsFields(date: Date, secondsOfDay: nat, subMillis: nat)
    requires FourDigitYear(date, secondsOfDay, subMillis)
    ensures Rendered(date, secondsOfDay, subMillis) == FieldText(Fields(date, secondsOfDay, subMillis))
  {
    var f := Fields(date, secondsOfDay, subMillis);
    FieldsFit(date, secondsOfDay, subMillis);
    TextStep(f, 6);
    TextStep(f, 5);
    TextStep(f, 4);
    TextStep(f, 3);
    TextStep(f, 2);
    TextStep(f, 1);
    TextStep(f, 0);
    assert f[0..] == f && f[7..] == [];
  }

  lemma PowersOfTen()
    ensures Pow10(2) == 100 && Pow10(3) == 1000 && Pow10(4) == 10000
  {
  }

  /** RFC 3339, section 5.1: until the end of the year 9999, the text of one
      instant comes before the text of another exactly when the instant does. */
  lemma TextOrderIsTimeOrder(a: nat, b: nat)
    requires a < YEAR_10000 && b < YEAR_10000
    ensures Less(FromUnixMillis(a), FromUnixMillis(b)) <==> a < b
  {
    hide FromUnixMillis; hide Rendered; hide Less; hide CivilFromDays; hide Before; hide DaysFromCivil; hide Valid;
    var da, sa, ma := InstantOf(a);
    var db, sb, mb := InstantOf(b);
    DayNumbersFollowDates(da, db);
    RenderedOrder(da, sa, ma, db, sb, mb);
    InstantOrder(DaysFromCivil(da), sa, ma, DaysFromCivil(db), sb, mb);
  }

  /** The date, second and millisecond an instant is rendered by. */
  lemma InstantOf(millis: nat) returns (date: Date, second: nat, subMillis: nat)
    requires millis < YEAR_10000
    ensures FourDigitYear(date, second, subMillis)
    ensures FromUnixMillis(millis) == Rendered(date, second, subMillis)
    ensures millis == 86400000 * DaysFromCivil(date) + 1000 * second + subMillis
  {
    hide Rendered; hide CivilFromDays; hide DaysFromCivil; hide Valid;
    var seconds := millis / 1000;
    assert AsI64(seconds) == seconds;
    DateBeforeYear10000(seconds / 86400);
    CivilFromDaysIsExact(seconds / 86400);
    date, second, subMillis := CivilFromDays(seconds / 86400), seconds % 86400, millis % 1000;
  }

  lemma InstantOrder(x: int, s: nat, m: nat, y: int, t: nat, n: nat)
    requires s < 86400 && t < 86400 && m < 1000 && n < 1000
    ensures 86400000 * x + 1000 * s + m < 86400000 * y + 1000 * t + n <==>
              x < y || (x == y && (s < t || (s == t && m < n)))
  {
  }

  lemma ShapesAreSame(da: Date, sa: nat, ma: nat, db: Date, sb: nat, mb: nat)
    requires FourDigitYear(da, sa, ma) && FourDigitYear(db, sb, mb)
    ensures SameShape(Fields(da, sa, ma), Fields(db, sb, mb))
  {
    hide Valid;
  }

  lemma RenderedOrder(da: Date, sa: nat, ma: nat, db: Date, sb: nat, mb: nat)
    requires FourDigitYear(da, sa, ma) && FourDigitYear(db, sb, mb)
    ensures Less(Rendered(da, sa, ma), Rendered(db, sb, mb)) <==>
      Before(da, db) || (da == db && (sa < sb || (sa == sb && ma < mb)))
  {
    hide Rendered; hide Less; hide FieldText; hide Earlier; hide Fits; hide Before; hide Valid; hide Decimal;
    var fa, fb := Fields(da, sa, ma), Fields(db, sb, mb);
    assert SameShape(fa, fb) by { ShapesAreSame(da, sa, ma, db, sb, mb); }
    hide Fields; hide SameShape;
    RenderedAsFields(da, sa, ma);
    RenderedAsFields(db, sb, mb);
    FieldsFit(da, sa, ma);
    FieldsFit(db, sb, mb);
    TextOrder(fa, fb);
    FieldOrder(da, sa, ma, db, sb, mb);
  }

  lemma FieldOrder(da: Date, sa: nat, ma: nat, db: Date, sb: nat, mb: nat)
    requires FourDigitYear(da, sa, ma) && FourDigitYear(db, sb, mb)
    ensures Earlier(Fields(da, sa, ma), Fields(db, sb, mb)) <==>
      Before(da, db) || (da == db && (sa < sb || (sa == sb && ma < mb)))
  {
    EarlierOfSeven(Fields(da, sa, ma), Fields(db, sb, mb));
    ClockOrder(sa, sb);
    ClockOrder(sb, sa);
  }

  lemma {:induction false} EarlierOfSeven(a: seq<Field>, b: seq<Field>)
    requires |a| == |b| == 7
    ensures Earlier(a, b) <==>
      || a[0].value < b[0].value || (a[0].value == b[0].value
      && (a[1].value < b[1].value || (a[1].value == b[1].value
      && (a[2].value < b[2].value || (a[2].value == b[2].value
      && (a[3].value < b[3].value || (a[3].value == b[3].value
      && (a[4].value < b[4].value || (a[4].value == b[4].value
      && (a[5].value < b[5].value || (a[5].value == b[5].value
      && a[6].value < b[6].value)))))))))))
  {
    EarlierStep(a, b, 6);
    EarlierStep(a, b, 5);
    EarlierStep(a, b, 4);
    EarlierStep(a, b, 3);
    EarlierStep(a, b, 2);
    EarlierStep(a, b, 1);
    EarlierStep(a, b, 0);
    assert a[0..] == a && b[0..] == b;
  }

  lemma EarlierStep(a: seq<Field>, b: seq<Field>, i: nat)
    requires i < |a| == |b|
    ensures Earlier(a[i..], b[i..]) <==>
      a[i].value < b[i].value || (a[i].value == b[i].value && Earlier(a[i + 1..], b[i + 1..]))
  {
    assert a[i..][1..] == a[i + 1..] && b[i..][1..] == b[i + 1..];
  }

  /** Hours, minutes and seconds in order are seconds of the day in order. */
  lemma ClockOrder(s: nat, s': nat)
    ensures s < s' <==>
      s / 3600 < s' / 3600 || (s / 3600 == s' / 3600
      && ((s % 3600) / 60 < (s' % 3600) / 60 || ((s % 3600) / 60 == (s' % 3600) / 60
      && s % 60 < s' % 60)))
  {
    ClockParts(s);
    ClockParts(s');
  }

  lemma ClockParts(s: nat)
    ensures s == 3600 * (s / 3600) + 60 * ((s % 3600) / 60) + s % 60
    ensures (s % 3600) / 60 < 60 && s % 60 < 60
  {
  }

  lemma FirstCharacter(date: Date, secondsOfDay: nat, subMillis: nat)
    requires Valid(date) && 1000 <= date.year < 100000
    ensures var text := Rendered(date, secondsOfDay, subMillis);
            text != [] && text[0] == Digit(if date.year < 10000 then date.year / 1000 else date.year / 10000)
  {
    LongYear(date.year);
    hide Decimal; hide Number;
  }

  lemma LongYear(y: nat)
    requires 1000 <= y < 100000
    ensures |Decimal(y)| >= 4 && Decimal(y)[0] == Digit(if y < 10000 then y / 1000 else y / 10000)
  {
    assert |Decimal(y / 1000)| >= 1;
    assert Decimal(y)[0] == Decimal(y / 10)[0] == Decimal(y / 100)[0] == Decimal(y / 1000)[0];
  }

  /** Past that year the text grows a digit, and the law fails at once: the
      first instant of the year 10000 is text before its predecessor's. So the
      law holds below `n` exactly when `n` is no later. */
  lemma TextOrderHoldsExactlyBeforeYear10000(n: nat)
    ensures (forall a: nat, b: nat :: a < n && b < n ==> (Less(FromUnixMillis(a), FromUnixMillis(b)) <==> a < b))
       <==> n <= YEAR_10000
  {
    if n <= YEAR_10000 {
      forall a: nat, b: nat | a < n && b < n ensures Less(FromUnixMillis(a), FromUnixMillis(b)) <==> a < b {
        TextOrderIsTimeOrder(a, b);
      }
    } else {
      Year10000ComesFirst();
      var a, b := YEAR_10000, YEAR_10000 - 1;
      assert a < n && b < n && Less(FromUnixMillis(a), FromUnixMillis(b)) && a > b;
    }
  }

  lemma Year10000ComesFirst()
    ensures Less(FromUnixMillis(YEAR_10000), FromUnixMillis(YEAR_10000 - 1))
  {
    LastOfYear9999();
    FirstOfYear10000();
  }

  lemma LastOfYear9999()
    ensures FromUnixMillis(YEAR_10000 - 1) != [] && FromUnixMillis(YEAR_10000 - 1)[0] == '9'
  {
    var last := Date(9999, 12, 31);
    DaysOfYear9999();
    RenderedOn(YEAR_10000 - 1, 253402300799, 86399, last);
    FirstCharacter(last, 86399, 999);
  }

  lemma FirstOfYear10000()
    ensures FromUnixMillis(YEAR_10000) != [] && FromUnixMillis(YEAR_10000)[0] == '1'
  {
    var last, next := Date(9999, 12, 31), Date(10000, 1, 1);
    DaysOfYear9999();
    NextDayIsNext(last);
    assert NextDay(last) == next;
    RenderedOn(YEAR_10000, 253402300800, 0, next);
    FirstCharacter(next, 0, 0);
  }

  lemma RenderedOn(millis: nat, seconds: nat, secondsOfDay: nat, date: Date)
    requires Valid(date)
    requires millis / 1000 == seconds < 0x8000_0000_0000_0000
    requires seconds == 86400 * DaysFromCivil(date) + secondsOfDay && secondsOfDay < 86400
    ensures FromUnixMillis(millis) == Rendered(date, secondsOfDay, millis % 1000)
  {
    assert AsI64(seconds) == seconds;
    assert seconds / 86400 == DaysFromCivil(date) && seconds % 86400 == secondsOfDay;
    CivilFromDaysInvertsDaysFromCivil(date);
  }

  // ----- the span of several footprints -----

  /** The smallest of some texts, by `min`; the default when there is none. */
  function Smallest(texts: seq<string>): string {
    if texts == [] then ""
    else if |texts| == 1 then texts[0]
    else
      var rest := Smallest(texts[1..]);
      if Less(rest, texts[0]) then rest else texts[0]
  }

  function Largest(texts: seq<string>): string {
    if texts == [] then ""
    else if |texts| == 1 then texts[0]
    else
      var rest := Largest(texts[1..]);
      if Less(rest, texts[0]) then texts[0] else rest
  }

  function RenderAll(times: seq<nat>): (texts: seq<string>)
    ensures |texts| == |times|
    ensures forall i :: 0 <= i < |times| ==> texts[i] == FromUnixMillis(times[i])
  {
    if times == [] then [] else [FromUnixMillis(times[0])] + RenderAll(times[1..])
  }

  lemma {:induction false} SmallestIsLeast(texts: seq<string>)
    requires texts != []
    ensures Smallest(texts) in texts
    ensures forall t :: t in texts ==> t == Smallest(texts) || Less(Smallest(texts), t)
  {
    TextOrderIsTotal();
    if |texts| > 1 {
      SmallestIsLeast(texts[1..]);
    }
  }

  lemma {:induction false} LargestIsGreatest(texts: seq<string>)
    requires texts != []
    ensures Largest(texts) in texts
    ensures forall t :: t in texts ==> t == Largest(texts) || Less(t, Largest(texts))
  {
    TextOrderIsTotal();
    if |texts| > 1 {
      LargestIsGreatest(texts[1..]);
    }
  }

  /** The smallest and largest text are the earliest and latest instant. */
  lemma TextSpanIsTimeSpan(times: seq<nat>)
    requires times != [] && forall t :: t in times ==> t < YEAR_10000
    ensures exists i :: 0 <= i < |times| && Smallest(RenderAll(times)) == FromUnixMillis(times[i])
                        && forall t :: t in times ==> times[i] <= t
    ensures exists i :: 0 <= i < |times| && Largest(RenderAll(times)) == FromUnixMillis(times[i])
                        && forall t :: t in times ==> t <= times[i]
  {
    hide FromUnixMillis; hide Less; hide Smallest; hide Largest;
    var texts := RenderAll(times);
    hide RenderAll;
    forall i, j | 0 <= i < |times| && 0 <= j < |times|
      ensures Less(texts[i], texts[j]) <==> times[i] < times[j]
    {
      assert times[i] in times && times[j] in times;
      TextOrderIsTimeOrder(times[i], times[j]);
    }
    SpanIndices(texts, times);
  }

  lemma SpanIndices(texts: seq<string>, times: seq<nat>)
    requires |texts| == |times| > 0
    requires forall i, j :: 0 <= i < |times| && 0 <= j < |times| ==> (Less(texts[i], texts[j]) <==> times[i] < times[j])
    ensures exists i :: 0 <= i < |times| && Smallest(texts) == texts[i] && forall t :: t in times ==> times[i] <= t
    ensures exists i :: 0 <= i < |times| && Largest(texts) == texts[i] && forall t :: t in times ==> t <= times[i]
  {
    TextOrderIsTotal();
    SmallestIsLeast(texts);
    LargestIsGreatest(texts);
    var i :| 0 <= i < |texts| && texts[i] == Smallest(texts);
    var j :| 0 <= j < |texts| && texts[j] == Largest(texts);
    forall k | 0 <= k < |times| ensures times[i] <= times[k] <= times[j] {
      assert texts[k] in texts;
      assert !Less(texts[k], texts[i]) && !Less(texts[j], texts[k]);
    }
  }
}
