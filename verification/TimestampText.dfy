// A timestamp read back: what each character of it says, and that the text and
// the instant determine each other. tools/observe/src/clock.rs.
module TimestampText {
  import opened Text
  import opened Calendar
  import opened Timestamp

  // ----- numbers -----

  predicate Digits(s: string) {
    forall c :: c in s ==> '0' <= c <= '9'
  }

  function DigitValue(c: char): nat
    requires '0' <= c <= '9'
  {
    (c - '0') as nat
  }

  function Value(s: string): nat
    requires Digits(s)
  {
    if s == "" then 0
    else
      var n := |s| - 1;
      assert forall c :: c in s[..n] ==> c in s;
      assert s[n] in s;
      10 * Value(s[..n]) + DigitValue(s[n])
  }

  lemma {:induction false} FixedIsRead(n: nat, width: nat)
    requires n < Pow10(width)
    ensures Digits(Fixed(n, width)) && Value(Fixed(n, width)) == n
  {
    if width > 0 {
      FixedIsRead(n / 10, width - 1);
      var s := Fixed(n, width);
      assert s[..width - 1] == Fixed(n / 10, width - 1) && s[width - 1] == Digit(n % 10);
      assert s == s[..width - 1] + [s[width - 1]];
    }
  }

  lemma {:induction false} ReadIsFixed(s: string)
    requires Digits(s)
    ensures Value(s) < Pow10(|s|) && Fixed(Value(s), |s|) == s
  {
    if s != "" {
      var n := |s| - 1;
      assert forall c :: c in s[..n] ==> c in s;
      assert s[n] in s;
      ReadIsFixed(s[..n]);
      LastDigit(Value(s[..n]), s[n]);
      FixedMore(Value(s), |s|);
      assert Value(s) == 10 * Value(s[..n]) + DigitValue(s[n]);
      hide Value; hide Fixed; hide DigitValue;
      assert s == s[..n] + [s[n]];
    }
  }

  lemma LastDigit(v: nat, c: char)
    requires '0' <= c <= '9'
    ensures var n := 10 * v + DigitValue(c); n / 10 == v && n % 10 == DigitValue(c) && Digit(n % 10) == c
  {
  }

  // ----- the text -----

  /** `YYYY-MM-DDTHH:MM:SS.mmmZ`. */
  ghost predicate IsStamp(text: string) {
    && |text| == 24
    && text[4] == '-' && text[7] == '-' && text[10] == 'T' && text[13] == ':' && text[16] == ':' && text[19] == '.'
    && text[23] == 'Z'
    && Digits(text[..4]) && Digits(text[5..7]) && Digits(text[8..10])
    && Digits(text[11..13]) && Digits(text[14..16]) && Digits(text[17..19]) && Digits(text[20..23])
  }

  ghost function DateOf(text: string): Date
    requires IsStamp(text)
  {
    Date(Value(text[..4]), Value(text[5..7]), Value(text[8..10]))
  }

  ghost function SecondOf(text: string): nat
    requires IsStamp(text)
  {
    3600 * Value(text[11..13]) + 60 * Value(text[14..16]) + Value(text[17..19])
  }

  /** The instant a timestamp names, in milliseconds of the Unix epoch. */
  ghost function InstantNamed(text: string): int
    requires IsStamp(text) && Valid(DateOf(text))
  {
    86400000 * DaysFromCivil(DateOf(text)) + 1000 * SecondOf(text) + Value(text[20..23])
  }

  ghost function Laid(a: string, b: string, c: string, d: string, e: string, f: string, g: string): string {
    a + (['-'] + (b + (['-'] + (c + (['T'] + (d + ([':'] + (e + ([':'] + (f + (['.'] + (g + ['Z']))))))))))))
  }

  lemma LaidOut(a: string, b: string, c: string, d: string, e: string, f: string, g: string)
    requires |a| == 4 && |b| == |c| == |d| == |e| == |f| == 2 && |g| == 3
    ensures var t := Laid(a, b, c, d, e, f, g);
            && |t| == 24 && t[..4] == a && t[5..7] == b && t[8..10] == c && t[11..13] == d && t[14..16] == e
            && t[17..19] == f && t[20..23] == g
            && t[4] == '-' && t[7] == '-' && t[10] == 'T' && t[13] == ':' && t[16] == ':' && t[19] == '.' && t[23] == 'Z'
  {
    var r6 := g + ['Z'];
    var r5 := f + (['.'] + r6);
    var r4 := e + ([':'] + r5);
    var r3 := d + ([':'] + r4);
    var r2 := c + (['T'] + r3);
    var r1 := b + (['-'] + r2);
    var t := a + (['-'] + r1);
    assert t == Laid(a, b, c, d, e, f, g);
    hide Laid;
    CutAfter(t, 0, a, '-', r1);
    CutAfter(t, 5, b, '-', r2);
    CutAfter(t, 8, c, 'T', r3);
    CutAfter(t, 11, d, ':', r4);
    CutAfter(t, 14, e, ':', r5);
    CutAfter(t, 17, f, '.', r6);
    CutAfter(t, 20, g, 'Z', "");
    assert t[0..4] == t[..4];
  }

  lemma CutAfter(t: string, i: nat, part: string, end: char, rest: string)
    requires i <= |t| && t[i..] == part + ([end] + rest)
    ensures var j := i + |part|; j < |t| && t[i..j] == part && t[j] == end && t[j + 1..] == rest && |t| == j + 1 + |rest|
  {
    assert t[i..][..|part|] == part && t[i..][|part|] == end && t[i..][|part| + 1..] == rest;
  }

  lemma PutTogether(t: string)
    requires |t| == 24
    requires t[4] == '-' && t[7] == '-' && t[10] == 'T' && t[13] == ':' && t[16] == ':' && t[19] == '.' && t[23] == 'Z'
    ensures t == Laid(t[..4], t[5..7], t[8..10], t[11..13], t[14..16], t[17..19], t[20..23])
  {
    LaidOut(t[..4], t[5..7], t[8..10], t[11..13], t[14..16], t[17..19], t[20..23]);
    hide Laid;
    var u := Laid(t[..4], t[5..7], t[8..10], t[11..13], t[14..16], t[17..19], t[20..23]);
    Same(t, u, 0, 4);
    Same(t, u, 5, 7);
    Same(t, u, 8, 10);
    Same(t, u, 11, 13);
    Same(t, u, 14, 16);
    Same(t, u, 17, 19);
    Same(t, u, 20, 23);
    assert forall i :: 0 <= i < 24 ==> t[i] == u[i];
  }

  lemma Same(t: string, u: string, i: nat, j: nat)
    requires i <= j <= |t| == |u| && t[i..j] == u[i..j]
    ensures forall k :: i <= k < j ==> t[k] == u[k]
  {
    forall k | i <= k < j ensures t[k] == u[k] {
      assert t[i..j][k - i] == t[k] && u[i..j][k - i] == u[k];
    }
  }

  lemma RenderedIsLaid(date: Date, second: nat, subMillis: nat)
    requires FourDigitYear(date, second, subMillis)
    ensures Rendered(date, second, subMillis)
         == Laid(Fixed(date.year, 4), Fixed(date.month, 2), Fixed(date.day, 2), Fixed(second / 3600, 2),
                 Fixed((second % 3600) / 60, 2), Fixed(second % 60, 2), Fixed(subMillis, 3))
  {
    hide Fixed; hide Padded;
    PowersOfTen();
    PaddedIsFixed(date.year, 4);
    PaddedIsFixed(date.month, 2);
    PaddedIsFixed(date.day, 2);
    PaddedIsFixed(second / 3600, 2);
    PaddedIsFixed((second % 3600) / 60, 2);
    PaddedIsFixed(second % 60, 2);
    PaddedIsFixed(subMillis, 3);
    hide Pow10;
    assert ['Z'] + "" == ['Z'];
  }

  lemma PartsAreRead(date: Date, second: nat, subMillis: nat)
    requires FourDigitYear(date, second, subMillis)
    ensures var text := Rendered(date, second, subMillis);
            IsStamp(text) && DateOf(text) == date && SecondOf(text) == second && Value(text[20..23]) == subMillis
  {
    RenderedIsLaid(date, second, subMillis);
    PowersOfTen();
    hide Rendered; hide Fixed; hide Pow10; hide Value; hide Laid;
    FixedIsRead(date.year, 4);
    FixedIsRead(date.month, 2);
    FixedIsRead(date.day, 2);
    FixedIsRead(second / 3600, 2);
    FixedIsRead((second % 3600) / 60, 2);
    FixedIsRead(second % 60, 2);
    FixedIsRead(subMillis, 3);
    LaidOut(Fixed(date.year, 4), Fixed(date.month, 2), Fixed(date.day, 2), Fixed(second / 3600, 2),
            Fixed((second % 3600) / 60, 2), Fixed(second % 60, 2), Fixed(subMillis, 3));
    ClockParts(second);
  }

  /** RFC 3339, section 5.6: until the end of the year 9999, the text of an
      instant has one form, and names that instant. */
  lemma TextNamesItsInstant(millis: nat)
    requires millis < YEAR_10000
    ensures var text := FromUnixMillis(millis);
            IsStamp(text) && Valid(DateOf(text)) && InstantNamed(text) == millis
  {
    hide FromUnixMillis; hide Rendered; hide IsStamp; hide DateOf; hide SecondOf; hide Value; hide DaysFromCivil; hide Valid;
    var date, second, subMillis := InstantOf(millis);
    PartsAreRead(date, second, subMillis);
  }

  /** And every text of that form with a real date and time of day, from the
      epoch on, is the text of the instant it names. */
  lemma EveryStampIsATime(text: string)
    requires IsStamp(text) && Valid(DateOf(text)) && InstantNamed(text) >= 0
    requires Value(text[11..13]) < 24 && Value(text[14..16]) < 60 && Value(text[17..19]) < 60
    ensures FromUnixMillis(InstantNamed(text)) == text
  {
    hide FromUnixMillis; hide Rendered; hide Laid; hide Fixed; hide Pow10; hide DaysFromCivil; hide Value; hide Digits; hide Valid;
    YearFits(text);
    RenderedInstant(DateOf(text), SecondOf(text), Value(text[20..23]));
    RenderedStamp(text);
  }

  lemma RenderedStamp(text: string)
    requires IsStamp(text) && FourDigitYear(DateOf(text), SecondOf(text), Value(text[20..23]))
    requires Value(text[11..13]) < 24 && Value(text[14..16]) < 60 && Value(text[17..19]) < 60
    ensures Rendered(DateOf(text), SecondOf(text), Value(text[20..23])) == text
  {
    hide Rendered; hide Laid; hide Fixed; hide Pow10; hide Value; hide Digits; hide FourDigitYear;
    RenderedIsLaid(DateOf(text), SecondOf(text), Value(text[20..23]));
    ReadIsFixed(text[..4]);
    ReadIsFixed(text[5..7]);
    ReadIsFixed(text[8..10]);
    ReadIsFixed(text[11..13]);
    ReadIsFixed(text[14..16]);
    ReadIsFixed(text[17..19]);
    ReadIsFixed(text[20..23]);
    ClockIs(Value(text[11..13]), Value(text[14..16]), Value(text[17..19]));
    PutTogether(text);
  }

  lemma ClockIs(h: nat, m: nat, s: nat)
    requires m < 60 && s < 60
    ensures var t := 3600 * h + 60 * m + s; t / 3600 == h && (t % 3600) / 60 == m && t % 60 == s
  {
    var t := 3600 * h + 60 * m + s;
    assert t % 3600 == 60 * m + s;
    assert t == 60 * (60 * h + m) + s;
  }

  lemma YearFits(text: string)
    requires IsStamp(text) && Valid(DateOf(text))
    requires Value(text[11..13]) < 24 && Value(text[14..16]) < 60 && Value(text[17..19]) < 60
    ensures FourDigitYear(DateOf(text), SecondOf(text), Value(text[20..23]))
  {
    ReadIsFixed(text[..4]);
    ReadIsFixed(text[20..23]);
    PowersOfTen();
    hide Value; hide Pow10;
  }

  lemma RenderedInstant(date: Date, second: nat, subMillis: nat)
    requires FourDigitYear(date, second, subMillis)
    requires 86400000 * DaysFromCivil(date) + 1000 * second + subMillis >= 0
    ensures FromUnixMillis(86400000 * DaysFromCivil(date) + 1000 * second + subMillis) == Rendered(date, second, subMillis)
  {
    hide Rendered; hide CivilFromDays; hide DaysFromCivil; hide Valid; hide AsI64;
    var days := DaysFromCivil(date);
    DaysOfYear9999();
    LastDay(date, second, subMillis);
    DayNumbersFollowDates(Date(9999, 12, 31), date);
    CivilFromDaysInvertsDaysFromCivil(date);
    SplitMillis(days, second, subMillis);
    NotBeyond(days, second, subMillis);
  }

  lemma LastDay(date: Date, second: nat, subMillis: nat)
    requires FourDigitYear(date, second, subMillis)
    ensures Valid(Date(9999, 12, 31)) && Valid(date) && !Before(Date(9999, 12, 31), date)
  {
  }

  lemma NotBeyond(days: int, second: nat, subMillis: nat)
    requires days <= 2932896 && second < 86400 && subMillis < 1000 && 86400000 * days + 1000 * second + subMillis >= 0
    ensures var seconds := (86400000 * days + 1000 * second + subMillis) / 1000; AsI64(seconds) == seconds
  {
  }

  lemma SplitMillis(days: int, second: nat, subMillis: nat)
    requires second < 86400 && subMillis < 1000 && 86400000 * days + 1000 * second + subMillis >= 0
    ensures var millis: int := 86400000 * days + 1000 * second + subMillis;
            && millis / 1000 == 86400 * days + second && millis % 1000 == subMillis
            && (86400 * days + second) / 86400 == days && (86400 * days + second) % 86400 == second
  {
  }

  // ----- years of any length -----

  lemma {:induction false} DecimalIsRead(n: nat)
    ensures Digits(Decimal(n)) && Value(Decimal(n)) == n && (n > 0 ==> Decimal(n)[0] != '0')
    decreases n
  {
    var s := Decimal(n);
    if n < 10 {
      assert s[..0] == "" && s[0] in s;
    } else {
      DecimalIsRead(n / 10);
      assert s[..|s| - 1] == Decimal(n / 10) && s[|s| - 1] == Digit(n % 10);
      assert s == s[..|s| - 1] + [s[|s| - 1]];
    }
  }

  lemma ValueMore(s: string, c: char)
    requires Digits(s) && '0' <= c <= '9'
    ensures Digits(s + [c]) && Value(s + [c]) == 10 * Value(s) + DigitValue(c)
  {
    assert (s + [c])[..|s|] == s;
  }

  lemma {:induction false} ZerosAreZero(k: nat)
    ensures |Zeros(k)| == k && Digits(Zeros(k)) && Value(Zeros(k)) == 0
  {
    if k > 0 {
      ZerosAreZero(k - 1);
      ZerosEnd(k - 1);
      ValueMore(Zeros(k - 1), '0');
    }
  }

  lemma {:induction false} ZerosAreNothing(k: nat, s: string)
    requires Digits(s)
    ensures |Zeros(k)| == k && Digits(Zeros(k) + s) && Value(Zeros(k) + s) == Value(s)
    decreases |s|
  {
    hide Zeros; hide Value; hide Digits; hide DigitValue;
    ZerosAreZero(k);
    if s == "" {
      assert Zeros(k) + s == Zeros(k);
      NothingIsZero();
    } else {
      var n := |s| - 1;
      PartsAreDigits(s);
      ZerosAreNothing(k, s[..n]);
      ValueMore(Zeros(k) + s[..n], s[n]);
      ValueMore(s[..n], s[n]);
      assert Zeros(k) + s == (Zeros(k) + s[..n]) + [s[n]] && s == s[..n] + [s[n]];
    }
  }

  lemma NothingIsZero()
    ensures Digits("") && Value("") == 0
  {
  }

  lemma PartsAreDigits(s: string)
    requires Digits(s) && s != ""
    ensures Digits(s[..|s| - 1]) && '0' <= s[|s| - 1] <= '9'
  {
    var front := s[..|s| - 1];
    forall c | c in front ensures '0' <= c <= '9' {
      assert c in s;
    }
    assert s[|s| - 1] in s;
  }

  lemma PaddedIsRead(n: nat, width: nat)
    ensures var s := Padded(n, width);
            Digits(s) && Value(s) == n && |s| >= width && (n > 0 && |s| > width ==> s[0] != '0')
  {
    DecimalIsRead(n);
    var digits := Decimal(n);
    hide Decimal; hide Value;
    if |digits| < width {
      ZerosAreNothing(width - |digits|, digits);
    } else {
      assert "" + digits == digits;
    }
  }

  /** A year of any length is written whole, with a sign if it is before the year
      0, and padded to four characters if it is shorter. */
  lemma YearsAreWhole(year: int)
    ensures var s := PaddedSigned(year, 4);
            && |s| >= 4
            && (year >= 0 ==> Digits(s) && Value(s) == year && (|s| > 4 ==> year == 0 || s[0] != '0'))
            && (year < 0 ==> s[0] == '-' && Digits(s[1..]) && Value(s[1..]) == -year && (|s| > 4 ==> s[1] != '0'))
  {
    hide Padded; hide Value;
    if year < 0 {
      PaddedIsRead(-year, 3);
      assert ("-" + Padded(-year, 3))[1..] == Padded(-year, 3);
    } else {
      PaddedIsRead(year, 4);
    }
  }
}
