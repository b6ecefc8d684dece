/** `src/utils/dateUtils.js`: the DD/MM/YYYY parser `parseDateBR`, the
    DD/MM/YYYY recogniser and falsy guard of `formatDateBR`, and the
    Gregorian calendar rules the `Date` round-trip check enforces. */
module DateUtils {
  import opened Wrappers
  import opened Text

  /** A calendar day with a 1-based month. */
  datatype CalendarDate = CalendarDate(day: int, month: int, year: int)

  /** Proleptic Gregorian leap years, as `Date` computes them. */
  predicate IsLeapYear(year: int) {
    year % 4 == 0 && (year % 100 != 0 || year % 400 == 0)
  }

  function DaysInMonth(month: int, year: int): (n: int)
    requires 1 <= month <= 12
    ensures 28 <= n <= 31
  {
    if month == 2 then (if IsLeapYear(year) then 29 else 28)
    else if month == 4 || month == 6 || month == 9 || month == 11 then 30
    else 31
  }

  predicate IsCalendarDate(day: int, month: int, year: int) {
    1 <= month <= 12 && 1 <= day <= DaysInMonth(month, year)
  }

  /** The whole years inside the ECMAScript time range of +-10^8 days
      around 1970-01-01 (the two partial boundary years are excluded). */
  const MinDateYear := -271820
  const MaxDateYear := 275759

  /** `new Date(year, month - 1, day)` reads back the same day, month and
      year: the day exists, and the year is neither one of 0..99 (which the
      constructor maps to 1900..1999) nor outside the time range. */
  predicate DateRoundTrips(day: int, month: int, year: int) {
    && IsCalendarDate(day, month, year)
    && !(0 <= year <= 99)
    && MinDateYear <= year <= MaxDateYear
  }

  /** `parseDateBR(dateStr)`. The input `None` stands for every falsy or
      non-string argument. */
  function ParseDateBR(input: Option<string>): (r: Option<CalendarDate>)
    ensures r.Some? ==> input.Some? && input.value != ""
    ensures r.Some? ==> multiset(input.value)['/'] == 2
    ensures r.Some? ==> DateRoundTrips(r.value.day, r.value.month, r.value.year)
    ensures r.Some? ==>
              var parts := Split(input.value, '/');
              && |parts| == 3
              && ParseInt(parts[0]) == Some(r.value.day)
              && ParseInt(parts[1]) == Some(r.value.month)
              && ParseInt(parts[2]) == Some(r.value.year)
  {
    if input.None? || input.value == "" then None
    else
      var parts := Split(input.value, '/');
      SplitCount(input.value, '/');
      if |parts| != 3 then None
      else
        match (ParseInt(parts[0]), ParseInt(parts[1]), ParseInt(parts[2]))
        case (Some(d), Some(m), Some(y)) =>
          if DateRoundTrips(d, m, y) then Some(CalendarDate(d, m, y)) else None
        case _ => None
  }

  /** Any three '/'-separated numerals naming a day that exists (outside
      years 0..99) are accepted: the converse of `ParseDateBR`'s contract. */
  lemma ParseDateBRComplete(s: string, day: int, month: int, year: int)
    requires |Split(s, '/')| == 3
    requires ParseInt(Split(s, '/')[0]) == Some(day)
    requires ParseInt(Split(s, '/')[1]) == Some(month)
    requires ParseInt(Split(s, '/')[2]) == Some(year)
    requires DateRoundTrips(day, month, year)
    ensures ParseDateBR(Some(s)) == Some(CalendarDate(day, month, year))
  {
  }

  /** The canonical text of a date whose fields are two, two and four digits
      long. */
  function FormatDMY(d: CalendarDate): string
    requires 0 <= d.day < 100 && 0 <= d.month < 100 && 0 <= d.year < 10000
  {
    Pad2(d.day) + "/" + Pad2(d.month) + "/" + Pad4(d.year)
  }

  /** Two-digit value of a two-character digit string. */
  lemma DigitsValue2(s: string)
    requires |s| == 2 && AllDigits(s)
    ensures DigitsValue(s) == DigitValue(s[0]) * 10 + DigitValue(s[1])
  {
    DigitsValueSnoc([], s[0]);
    DigitsValueSnoc([s[0]], s[1]);
    assert s == [s[0]] + [s[1]];
  }

  /** Four-digit value of two two-character digit strings. */
  lemma DigitsValue4(hi: string, lo: string)
    requires |hi| == 2 && |lo| == 2 && AllDigits(hi) && AllDigits(lo)
    ensures AllDigits(hi + lo)
    ensures DigitsValue(hi + lo) == DigitsValue(hi) * 100 + DigitsValue(lo)
  {
    DigitsValue2(lo);
    DigitsValueSnoc(hi, lo[0]);
    DigitsValueSnoc(hi + [lo[0]], lo[1]);
    assert hi + lo == hi + [lo[0]] + [lo[1]];
  }

  function Pad2(n: nat): (s: string)
    requires n < 100
    ensures |s| == 2 && AllDigits(s) && DigitsValue(s) == n
  {
    var s := [DigitChar(n / 10), DigitChar(n % 10)];
    DigitsValue2(s);
    s
  }

  function Pad4(n: nat): (s: string)
    requires n < 10000
    ensures |s| == 4 && AllDigits(s) && DigitsValue(s) == n
  {
    var hi, lo := Pad2(n / 100), Pad2(n % 100);
    DigitsValue4(hi, lo);
    hi + lo
  }

  /** A string made of the three given numerals splits back into them. */
  lemma ParseDateBRParts(s: string, day: nat, month: nat, year: nat)
    requires day < 100 && month < 100 && year < 10000
    requires s == Pad2(day) + "/" + Pad2(month) + "/" + Pad4(year)
    ensures Split(s, '/') == [Pad2(day), Pad2(month), Pad4(year)]
    ensures ParseInt(Pad2(day)) == Some(day as int)
    ensures ParseInt(Pad2(month)) == Some(month as int)
    ensures ParseInt(Pad4(year)) == Some(year as int)
  {
    var parts := [Pad2(day), Pad2(month), Pad4(year)];
    assert Join(parts[2..], '/') == Pad4(year);
    assert Join(parts[1..], '/') == Pad2(month) + "/" + Pad4(year);
    assert Join(parts, '/') == s;
    SplitJoin(parts, '/');
    ParseDigits(Pad2(day));
    ParseDigits(Pad2(month));
    ParseDigits(Pad4(year));
  }

  /** Parsing the canonical text of a date gives the date back exactly when
      `Date` keeps that day, and null otherwise: 31/04, 29/02 of a common
      year, month 13 and years 0000..0099 are refused. */
  lemma ParseFormatRoundTrip(d: CalendarDate)
    requires 0 <= d.day < 100 && 0 <= d.month < 100 && 0 <= d.year < 10000
    ensures ParseDateBR(Some(FormatDMY(d)))
         == if DateRoundTrips(d.day, d.month, d.year) then Some(d) else None
  {
    ParseDateBRParts(FormatDMY(d), d.day, d.month, d.year);
    if DateRoundTrips(d.day, d.month, d.year) {
      ParseDateBRComplete(FormatDMY(d), d.day, d.month, d.year);
    }
  }

  /** `/^\d{2}\/\d{2}\/\d{4}$/`. */
  predicate IsDateBRShape(s: string) {
    && |s| == 10
    && s[2] == '/' && s[5] == '/'
    && AllDigits(s[..2]) && AllDigits(s[3..5]) && AllDigits(s[6..])
  }

  /** The canonical text of a date has the DD/MM/YYYY shape. */
  lemma FormatDMYHasShape(d: CalendarDate)
    requires 0 <= d.day < 100 && 0 <= d.month < 100 && 0 <= d.year < 10000
    ensures IsDateBRShape(FormatDMY(d))
  {
    var s := FormatDMY(d);
    assert s[..2] == Pad2(d.day) && s[3..5] == Pad2(d.month) && s[6..] == Pad4(d.year);
  }

  /** A DD/MM/YYYY-shaped string is the canonical text of its own fields. */
  lemma ShapeIsFormatDMY(s: string)
    requires IsDateBRShape(s)
    ensures var d := ShapeFields(s); FormatDMY(d) == s
  {
    var d := ShapeFields(s);
    Pad2Inverse(s[..2]);
    Pad2Inverse(s[3..5]);
    Pad4Inverse(s[6..]);
    assert s == s[..2] + "/" + s[3..5] + "/" + s[6..];
  }

  lemma Pad2Inverse(s: string)
    requires |s| == 2 && AllDigits(s)
    ensures DigitsValue(s) < 100 && Pad2(DigitsValue(s)) == s
  {
    DigitsValue2(s);
    var n := DigitsValue(s);
    assert n / 10 == DigitValue(s[0]) && n % 10 == DigitValue(s[1]);
    assert DigitChar(DigitValue(s[0])) == s[0];
    assert DigitChar(DigitValue(s[1])) == s[1];
  }

  lemma Pad4Inverse(s: string)
    requires |s| == 4 && AllDigits(s)
    ensures DigitsValue(s) < 10000 && Pad4(DigitsValue(s)) == s
  {
    var hi, lo := s[..2], s[2..];
    Pad2Inverse(hi);
    Pad2Inverse(lo);
    assert s == hi + lo;
    DigitsValue4(hi, lo);
    var n := DigitsValue(s);
    assert n / 100 == DigitsValue(hi) && n % 100 == DigitsValue(lo);
  }

  /** The day, month and year fields `formatDateBR` reads from a
      DD/MM/YYYY-shaped string (`split('/').map(Number)`). */
  function ShapeFields(s: string): (d: CalendarDate)
    requires IsDateBRShape(s)
    ensures 0 <= d.day < 100 && 0 <= d.month < 100 && 0 <= d.year < 10000
  {
    Pad2Inverse(s[..2]);
    Pad2Inverse(s[3..5]);
    Pad4Inverse(s[6..]);
    CalendarDate(DigitsValue(s[..2]), DigitsValue(s[3..5]), DigitsValue(s[6..]))
  }

  /** Where `formatDateBR` takes the date it displays from. */
  datatype DateSource =
    | Dash                                  // falsy input: '-'
    | Fields(date: CalendarDate)            // `new Date(year, month - 1, day)`
    | EngineParsed(text: string)            // `new Date(text)`

  /** The branch structure of `formatDateBR` before the locale formatting. */
  function FormatDateBRSource(input: Option<string>): (r: DateSource)
    ensures r.Dash? <==> input.None? || input.value == ""
    ensures r.Fields? <==> input.Some? && IsDateBRShape(input.value)
    ensures r.Fields? ==>
              && 0 <= r.date.day < 100 && 0 <= r.date.month < 100 && 0 <= r.date.year < 10000
              && FormatDMY(r.date) == input.value
    ensures r.EngineParsed? ==> r.text == input.value
  {
    if input.None? || input.value == "" then Dash
    else if IsDateBRShape(input.value) then
      ShapeIsFormatDMY(input.value);
      Fields(ShapeFields(input.value))
    else EngineParsed(input.value)
  }

  /** On a DD/MM/YYYY string both helpers read the same fields: whenever
      `parseDateBR` accepts it, `formatDateBR` builds the same date. */
  lemma FormatAgreesWithParse(s: string)
    requires IsDateBRShape(s)
    requires ParseDateBR(Some(s)).Some?
    ensures FormatDateBRSource(Some(s)) == Fields(ParseDateBR(Some(s)).value)
  {
    var f := ShapeFields(s);
    ShapeIsFormatDMY(s);
    ParseDateBRParts(s, f.day, f.month, f.year);
  }
}
