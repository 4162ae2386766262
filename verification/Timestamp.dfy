/** UTC instants as text: the subset of section 5.6 of RFC 3339 the source accepts and prints. */
module Timestamps {
  import opened Wrappers
  import opened Calendar
  import opened Texts
  import opened Decimals

  datatype Fields = Fields(
    year: nat, month: nat, day: nat, hour: nat, minute: nat, second: nat, millis: nat)

  datatype FieldName = Month | Day | Hour | Minute | Second

  datatype TimeTextError = Form | Field(name: FieldName) | BeforeEpoch

  const MS_PER_DAY := 86_400_000

  /** The last instant with a four-digit year, 9999-12-31T23:59:59.999Z. */
  const LATEST_TEXT_MS := 253_402_300_799_999

  // ---------------------------------------------------------------- reading

  predicate Shaped(text: string) {
    && (|text| == 20 || (22 <= |text| <= 24 && text[19] == '.'))
    && text[4] == '-' && text[7] == '-' && text[10] == 'T' && text[13] == ':' && text[16] == ':'
    && text[|text| - 1] == 'Z'
  }

  function Fraction(text: string): (f: string)
    requires Shaped(text)
    ensures |f| <= 3
  {
    if |text| == 20 then "" else text[20..|text| - 1]
  }

  predicate AllNumbers(text: string)
    requires Shaped(text)
  {
    && Number(text[0..4]).Some? && Number(text[5..7]).Some? && Number(text[8..10]).Some?
    && Number(text[11..13]).Some? && Number(text[14..16]).Some? && Number(text[17..19]).Some?
    && Number(Fraction(text)).Some?
  }

  function FieldsIn(text: string): Fields
    requires Shaped(text) && AllNumbers(text)
  {
    Fields(Number(text[0..4]).value, Number(text[5..7]).value, Number(text[8..10]).value,
           Number(text[11..13]).value, Number(text[14..16]).value, Number(text[17..19]).value,
           Number(Fraction(text)).value * Pow10(3 - |Fraction(text)|))
  }

  /** The first field out of its range, in the source's order. */
  function OutOfRange(f: Fields): Option<TimeTextError> {
    if !(1 <= f.month <= 12) then Some(Field(Month))
    else if !(1 <= f.day <= DaysInMonth(f.year, f.month)) then Some(Field(Day))
    else if f.hour > 23 then Some(Field(Hour))
    else if f.minute > 59 then Some(Field(Minute))
    else if f.second > 59 then Some(Field(Second))
    else if f.year < EPOCH_YEAR then Some(BeforeEpoch)
    else None
  }

  function DateOf(f: Fields): Date {
    Date(f.year, f.month, f.day)
  }

  function InstantOf(f: Fields): int
    requires OutOfRange(f).None?
  {
    (DaysSinceEpoch(DateOf(f)) * 86_400 + f.hour * 3_600 + f.minute * 60 + f.second) * 1_000 + f.millis
  }

  function Parsed(text: string): Result<int, TimeTextError> {
    if !Shaped(text) || !AllNumbers(text) then
      Err(Form)
    else
      var f := FieldsIn(text);
      var refusal := OutOfRange(f);
      if refusal.Some? then Err(refusal.value) else Ok(InstantOf(f))
  }

  method ReadMillis(fraction: string) returns (millis: Option<nat>)
    requires |fraction| <= 3
    ensures millis == match Number(fraction) case Some(v) => Some(v * Pow10(3 - |fraction|)) case None => None
  {
    millis := ReadNumber(fraction);
    if millis.None? {
      return;
    }
    var scaled := millis.value;
    for i := |fraction| to 3
      invariant scaled == millis.value * Pow10(i - |fraction|)
    {
      scaled := scaled * 10;
    }
    millis := Some(scaled);
  }

  /** `WallMs::parse_rfc3339`. */
  method ParseRfc3339(text: string) returns (r: Result<int, TimeTextError>)
    ensures r == Parsed(text)
  {
    var fraction: string;
    if |text| == 20 {
      fraction := "";
    } else if 22 <= |text| <= 24 && text[19] == '.' {
      fraction := text[20..|text| - 1];
    } else {
      return Err(Form);
    }
    if text[4] != '-' || text[7] != '-' || text[10] != 'T' || text[13] != ':' || text[16] != ':'
       || text[|text| - 1] != 'Z' {
      return Err(Form);
    }
    var year := ReadNumber(text[0..4]);
    var month := ReadNumber(text[5..7]);
    var day := ReadNumber(text[8..10]);
    var hour := ReadNumber(text[11..13]);
    var minute := ReadNumber(text[14..16]);
    var second := ReadNumber(text[17..19]);
    var millis := ReadMillis(fraction);
    if year.None? || month.None? || day.None? || hour.None? || minute.None? || second.None? || millis.None? {
      return Err(Form);
    }
    var f := Fields(year.value, month.value, day.value, hour.value, minute.value, second.value, millis.value);
    var refusal := OutOfRange(f);
    if refusal.Some? {
      return Err(refusal.value);
    }
    r := Ok(InstantOf(f));
  }

  // ---------------------------------------------------------------- printing

  function FieldsOf(ms: nat): Fields {
    var date, ofDay := CivilFromDays(ms / MS_PER_DAY), ms % MS_PER_DAY;
    Fields(date.year, date.month, date.day,
           ofDay / 3_600_000, ofDay / 60_000 % 60, ofDay / 1_000 % 60, ofDay % 1_000)
  }

  function MillisText(f: Fields): string { Padded(f.millis, 3) + ("Z" + "") }
  function SecondText(f: Fields): string { Padded(f.second, 2) + ("." + MillisText(f)) }
  function MinuteText(f: Fields): string { Padded(f.minute, 2) + (":" + SecondText(f)) }
  function HourText(f: Fields): string { Padded(f.hour, 2) + (":" + MinuteText(f)) }
  function DayText(f: Fields): string { Padded(f.day, 2) + ("T" + HourText(f)) }
  function MonthText(f: Fields): string { Padded(f.month, 2) + ("-" + DayText(f)) }
  function Text(f: Fields): string { Padded(f.year, 4) + ("-" + MonthText(f)) }

  /** `WallMs::to_rfc3339`. */
  function Printed(ms: nat): string {
    Text(FieldsOf(ms))
  }

  // ---------------------------------------------------------------- instants and fields

  predicate ClockRange(f: Fields) {
    f.hour <= 23 && f.minute <= 59 && f.second <= 59 && f.millis <= 999
  }

  lemma ClockOfDay(ofDay: nat)
    requires ofDay < MS_PER_DAY
    ensures var h, m, s, ms := ofDay / 3_600_000, ofDay / 60_000 % 60, ofDay / 1_000 % 60, ofDay % 1_000;
            h <= 23 && m <= 59 && s <= 59 && ms <= 999 && ((h * 3_600 + m * 60 + s) * 1_000 + ms) == ofDay
  {
  }

  /** Every instant has fields in range that name it. */
  lemma FieldsNameInstant(ms: nat)
    ensures OutOfRange(FieldsOf(ms)).None? && ClockRange(FieldsOf(ms)) && InstantOf(FieldsOf(ms)) == ms
  {
    CivilThenDays(ms / MS_PER_DAY);
    ClockOfDay(ms % MS_PER_DAY);
  }

  lemma DayOfInstant(days: nat, h: nat, m: nat, s: nat, ms: nat)
    requires h <= 23 && m <= 59 && s <= 59 && ms <= 999
    ensures var i := (days * 86_400 + h * 3_600 + m * 60 + s) * 1_000 + ms;
            && i / MS_PER_DAY == days && i % MS_PER_DAY == (h * 3_600 + m * 60 + s) * 1_000 + ms
  {
  }

  lemma ClockFields(h: nat, m: nat, s: nat, ms: nat)
    requires h <= 23 && m <= 59 && s <= 59 && ms <= 999
    ensures var i := (h * 3_600 + m * 60 + s) * 1_000 + ms;
            i / 3_600_000 == h && i / 60_000 % 60 == m && i / 1_000 % 60 == s && i % 1_000 == ms
  {
    var i := (h * 3_600 + m * 60 + s) * 1_000 + ms;
    assert i / 1_000 == h * 3_600 + m * 60 + s;
    assert i / 60_000 == h * 60 + m;
  }

  lemma FieldsFromParts(i: nat, days: nat, date: Date, f: Fields)
    requires f.hour <= 23 && f.minute <= 59 && f.second <= 59 && f.millis <= 999
    requires CivilFromDays(days) == date == DateOf(f)
    requires i == (days * 86_400 + f.hour * 3_600 + f.minute * 60 + f.second) * 1_000 + f.millis
    ensures FieldsOf(i) == f
  {
    DayOfInstant(days, f.hour, f.minute, f.second, f.millis);
    ClockFields(f.hour, f.minute, f.second, f.millis);
  }

  /** Fields in range are the fields of the instant they name. */
  lemma InstantNamesFields(f: Fields)
    requires OutOfRange(f).None? && f.millis <= 999
    ensures InstantOf(f) >= 0 && FieldsOf(InstantOf(f)) == f
  {
    DaysThenCivil(DateOf(f));
    FieldsFromParts(InstantOf(f), DaysSinceEpoch(DateOf(f)), DateOf(f), f);
  }

  // ---------------------------------------------------------------- text and fields

  /** Every field fits the width it is printed with. */
  predicate Fits(f: Fields) {
    && f.year < 10_000 && f.month < 100 && f.day < 100 && f.hour < 100 && f.minute < 100 && f.second < 100
    && f.millis < 1_000
  }

  lemma FieldWidth(n: nat)
    ensures n < 100 ==> |Padded(n, 2)| == 2
    ensures n < 1_000 ==> |Padded(n, 3)| == 3
    ensures |Padded(n, 4)| == 4 <==> n < 10_000
    ensures |Padded(n, 2)| >= 2 && |Padded(n, 3)| >= 3 && |Padded(n, 4)| >= 4
  {
    assert Pow10(1) == 10;
    assert Pow10(2) == 100;
    assert Pow10(3) == 1_000;
    assert Pow10(4) == 10_000;
    PaddedWidth(n, 2);
    PaddedWidth(n, 3);
    PaddedWidth(n, 4);
  }

  /** The cut a reader makes after a field and its separator. */
  lemma Cut(text: string, field: string, separator: char, rest: string)
    requires text == field + ([separator] + rest)
    ensures |text| == |field| + 1 + |rest| && text[..|field|] == field
    ensures text[|field|] == separator && text[|field| + 1..] == rest
  {
  }

  lemma ClockLayout(f: Fields)
    requires Fits(f)
    ensures var t := HourText(f);
            && |t| == 13 && t[2] == ':' && t[5] == ':' && t[8] == '.' && t[12] == 'Z'
            && t[0..2] == Padded(f.hour, 2) && t[3..5] == Padded(f.minute, 2)
            && t[6..8] == Padded(f.second, 2) && t[9..12] == Padded(f.millis, 3)
  {
    FieldWidth(f.hour);
    FieldWidth(f.minute);
    FieldWidth(f.second);
    FieldWidth(f.millis);
    ClockPieces(Padded(f.hour, 2), Padded(f.minute, 2), Padded(f.second, 2), Padded(f.millis, 3));
  }

  /** Where each part of a clock text of these widths stands. */
  lemma ClockPieces(hour: string, minute: string, second: string, millis: string)
    requires |hour| == |minute| == |second| == 2 && |millis| == 3
    ensures var t := hour + (":" + (minute + (":" + (second + ("." + (millis + ("Z" + "")))))));
            && |t| == 13 && t[2] == ':' && t[5] == ':' && t[8] == '.' && t[12] == 'Z'
            && t[0..2] == hour && t[3..5] == minute && t[6..8] == second && t[9..12] == millis
  {
  }

  lemma DayLayout(f: Fields)
    requires Fits(f)
    ensures var t := MonthText(f);
            && |t| == 19 && t[2] == '-' && t[5] == 'T' && t[6..] == HourText(f)
            && t[0..2] == Padded(f.month, 2) && t[3..5] == Padded(f.day, 2)
  {
    FieldWidth(f.month);
    FieldWidth(f.day);
    ClockLayout(f);
    Cut(DayText(f), Padded(f.day, 2), 'T', HourText(f));
    Cut(MonthText(f), Padded(f.month, 2), '-', DayText(f));
    var t := MonthText(f);
    assert t[3..][..2] == t[3..5] && t[3..][3..] == t[6..];
  }

  lemma DateLayout(f: Fields)
    requires Fits(f)
    ensures var t := Text(f);
            && |t| == 24 && t[4] == '-' && t[7] == '-' && t[10] == 'T' && t[11..] == HourText(f)
            && t[0..4] == Padded(f.year, 4) && t[5..7] == Padded(f.month, 2) && t[8..10] == Padded(f.day, 2)
  {
    FieldWidth(f.year);
    DayLayout(f);
    Cut(Text(f), Padded(f.year, 4), '-', MonthText(f));
    var t, m := Text(f), MonthText(f);
    assert t[5..] == m && t[7] == m[2] && t[10] == m[5];
    assert t[5..][6..] == t[11..] && t[5..][0..2] == t[5..7] && t[5..][3..5] == t[8..10];
  }

  lemma Layout(f: Fields)
    requires Fits(f)
    ensures var t := Text(f);
            && Shaped(t)
            && t[0..4] == Padded(f.year, 4) && t[5..7] == Padded(f.month, 2) && t[8..10] == Padded(f.day, 2)
            && t[11..13] == Padded(f.hour, 2) && t[14..16] == Padded(f.minute, 2)
            && t[17..19] == Padded(f.second, 2) && Fraction(t) == Padded(f.millis, 3)
            && |t| == 24
  {
    DateLayout(f);
    ClockLayout(f);
    var t, c := Text(f), HourText(f);
    assert t[13] == c[2] && t[16] == c[5] && t[19] == c[8] && t[23] == c[12];
    assert t[11..13] == c[0..2] && t[14..16] == c[3..5] && t[17..19] == c[6..8] && t[20..23] == c[9..12];
  }

  lemma TextNumbers(f: Fields)
    requires Fits(f)
    ensures Number(Padded(f.year, 4)) == Some(f.year) && Number(Padded(f.month, 2)) == Some(f.month)
    ensures Number(Padded(f.day, 2)) == Some(f.day) && Number(Padded(f.hour, 2)) == Some(f.hour)
    ensures Number(Padded(f.minute, 2)) == Some(f.minute) && Number(Padded(f.second, 2)) == Some(f.second)
    ensures Number(Padded(f.millis, 3)) == Some(f.millis)
  {
    PaddedReads(f.year, 4);
    PaddedReads(f.month, 2);
    PaddedReads(f.day, 2);
    PaddedReads(f.hour, 2);
    PaddedReads(f.minute, 2);
    PaddedReads(f.second, 2);
    PaddedReads(f.millis, 3);
  }

  lemma WholeMillis(text: string, millis: nat)
    requires Shaped(text) && |Fraction(text)| == 3 && Number(Fraction(text)) == Some(millis)
    ensures Number(Fraction(text)).value * Pow10(3 - |Fraction(text)|) == millis
  {
    assert Pow10(0) == 1;
  }

  /** Reading what was printed gives the fields. */
  lemma TextReads(f: Fields)
    requires Fits(f)
    ensures Shaped(Text(f)) && AllNumbers(Text(f)) && FieldsIn(Text(f)) == f
  {
    Layout(f);
    TextNumbers(f);
    FieldWidth(f.millis);
    WholeMillis(Text(f), f.millis);
  }

  function Zeros(n: nat): string {
    seq(n, _ => '0')
  }

  /** An accepted text with its fraction written out to three digits. */
  function Completed(text: string): string
    requires Shaped(text)
  {
    text[..19] + "." + Fraction(text) + Zeros(3 - |Fraction(text)|) + "Z"
  }

  lemma NumberZero(digits: string)
    requires Number(digits).Some?
    ensures Number(digits + "0") == Some(Number(digits).value * 10)
  {
    assert (digits + "0")[..|digits|] == digits;
  }

  lemma {:induction false} NumberZeros(digits: string, n: nat)
    requires Number(digits).Some?
    ensures Number(digits + Zeros(n)) == Some(Number(digits).value * Pow10(n))
  {
    if n == 0 {
      assert digits + Zeros(0) == digits;
    } else {
      NumberZeros(digits, n - 1);
      NumberZero(digits + Zeros(n - 1));
      assert digits + Zeros(n) == digits + Zeros(n - 1) + "0";
      TimesTen(Number(digits).value, Pow10(n - 1));
    }
  }

  lemma TimesTen(a: nat, b: nat)
    ensures a * b * 10 == a * (10 * b)
  {
  }

  lemma FieldPads(digits: string, width: nat)
    requires |digits| == width >= 1 && Number(digits).Some?
    ensures Padded(Number(digits).value, width) == digits
  {
    NumberPads(digits);
  }

  lemma ClockReprints(text: string)
    requires Shaped(text) && AllNumbers(text)
    ensures HourText(FieldsIn(text)) == text[11..19] + "." + Fraction(text) + Zeros(3 - |Fraction(text)|) + "Z"
  {
    var fraction := Fraction(text);
    var full := fraction + Zeros(3 - |fraction|);
    NumberZeros(fraction, 3 - |fraction|);
    FieldPads(full, 3);
    FieldPads(text[17..19], 2);
    FieldPads(text[14..16], 2);
    FieldPads(text[11..13], 2);
    ClockCuts(text, full);
  }

  lemma ClockCuts(text: string, millis: string)
    requires |text| >= 19 && text[13] == ':' && text[16] == ':'
    ensures text[11..13] + (":" + (text[14..16] + (":" + (text[17..19] + ("." + (millis + ("Z" + "")))))))
            == text[11..19] + "." + millis + "Z"
  {
  }

  lemma DateReprints(text: string)
    requires Shaped(text) && AllNumbers(text)
    ensures Text(FieldsIn(text)) == text[..11] + HourText(FieldsIn(text))
  {
    FieldPads(text[8..10], 2);
    FieldPads(text[5..7], 2);
    FieldPads(text[0..4], 4);
    DateCuts(text, HourText(FieldsIn(text)));
  }

  lemma DateCuts(text: string, rest: string)
    requires |text| >= 11 && text[4] == '-' && text[7] == '-' && text[10] == 'T'
    ensures text[0..4] + ("-" + (text[5..7] + ("-" + (text[8..10] + ("T" + rest))))) == text[..11] + rest
  {
  }

  /** Printing what was read gives the text back, with three fraction digits. */
  lemma ReadReprints(text: string)
    requires Shaped(text) && AllNumbers(text)
    ensures Text(FieldsIn(text)) == Completed(text)
  {
    DateReprints(text);
    ClockReprints(text);
    Rejoined(text, Fraction(text), Zeros(3 - |Fraction(text)|));
  }

  lemma Rejoined(text: string, fraction: string, zeros: string)
    requires |text| >= 19
    ensures text[..11] + (text[11..19] + "." + fraction + zeros + "Z") == text[..19] + "." + fraction + zeros + "Z"
  {
    assert text[..19] == text[..11] + text[11..19];
  }

  lemma MillisFit(text: string)
    requires Shaped(text) && AllNumbers(text)
    ensures FieldsIn(text).millis <= 999
  {
    var full := Fraction(text) + Zeros(3 - |Fraction(text)|);
    NumberZeros(Fraction(text), 3 - |Fraction(text)|);
    NumberBound(full);
    assert Pow10(1) == 10;
    assert Pow10(3) == 1_000;
  }

  // ---------------------------------------------------------------- round trips and order

  lemma LastDayNumber()
    ensures DaysSinceEpoch(Date(9_999, 12, 31)) == 2_932_896
  {
    assert YearStart(399) == 145_731 && MonthStart(9) == 275;
  }

  lemma LastFourDigitDay(days: nat)
    ensures CivilFromDays(days).year < 10_000 <==> days <= 2_932_896
  {
    LastDayNumber();
    DaysThenCivil(Date(9_999, 12, 31));
    NextCivil(2_932_896, Date(9_999, 12, 31));
    if days < 2_932_896 {
      CivilIsMonotone(days, 2_932_896);
    } else if days > 2_932_897 {
      CivilIsMonotone(2_932_897, days);
    }
  }

  lemma LastTextDay(ms: nat)
    ensures FieldsOf(ms).year < 10_000 <==> ms <= LATEST_TEXT_MS
  {
    LastFourDigitDay(ms / MS_PER_DAY);
  }

  lemma LongYearText(ms: nat)
    requires FieldsOf(ms).year >= 10_000
    ensures |Printed(ms)| > 24
  {
    var f := FieldsOf(ms);
    FieldWidth(f.year);
    FieldWidth(f.month);
    FieldWidth(f.day);
    FieldWidth(f.hour);
    FieldWidth(f.minute);
    FieldWidth(f.second);
    FieldWidth(f.millis);
  }

  /** Printed texts parse back exactly up to the last four-digit year, and are refused after. */
  lemma PrintThenParse(ms: nat)
    ensures Parsed(Printed(ms)) == if ms <= LATEST_TEXT_MS then Ok(ms) else Err(Form)
  {
    LastTextDay(ms);
    FieldsNameInstant(ms);
    if ms <= LATEST_TEXT_MS {
      TextReads(FieldsOf(ms));
    } else {
      LongYearText(ms);
    }
  }

  /** Every accepted text reprints as itself, with its fraction written out to three digits. */
  lemma ParseThenPrint(text: string)
    requires Parsed(text).Ok?
    ensures Shaped(text) && 0 <= Parsed(text).value <= LATEST_TEXT_MS
    ensures Printed(Parsed(text).value) == Completed(text)
  {
    MillisFit(text);
    InstantNamesFields(FieldsIn(text));
    ReadReprints(text);
    NumberBound(text[0..4]);
    assert Pow10(2) == 100;
    assert Pow10(4) == 10_000;
    LastTextDay(Parsed(text).value);
  }

  predicate FieldsEarlier(f: Fields, g: Fields) {
    || Earlier(DateOf(f), DateOf(g))
    || (DateOf(f) == DateOf(g) && ClockEarlier(f, g))
  }

  predicate ClockEarlier(f: Fields, g: Fields) {
    || f.hour < g.hour
    || (f.hour == g.hour
        && (f.minute < g.minute
            || (f.minute == g.minute && (f.second < g.second || (f.second == g.second && f.millis < g.millis)))))
  }

  lemma ClockOrder(f: Fields, g: Fields)
    requires Fits(f) && Fits(g) && ClockEarlier(f, g)
    ensures LexLess(HourText(f), HourText(g))
  {
    assert Pow10(1) == 10;
    assert Pow10(2) == 100;
    assert Pow10(3) == 1_000;
    if f.millis < g.millis { FieldOrder(f.millis, g.millis, 3, "Z", "", ""); }
    if f.second < g.second || (f.second == g.second && f.millis < g.millis) {
      FieldOrder(f.second, g.second, 2, ".", MillisText(f), MillisText(g));
    }
    if f.hour == g.hour {
      FieldOrder(f.minute, g.minute, 2, ":", SecondText(f), SecondText(g));
    }
    FieldOrder(f.hour, g.hour, 2, ":", MinuteText(f), MinuteText(g));
  }

  lemma TextOrder(f: Fields, g: Fields)
    requires Fits(f) && Fits(g) && FieldsEarlier(f, g)
    ensures LexLess(Text(f), Text(g))
  {
    assert Pow10(1) == 10;
    assert Pow10(2) == 100;
    assert Pow10(4) == 10_000;
    if DateOf(f) == DateOf(g) { ClockOrder(f, g); }
    if f.year == g.year {
      if f.month == g.month {
        FieldOrder(f.day, g.day, 2, "T", HourText(f), HourText(g));
      }
      FieldOrder(f.month, g.month, 2, "-", DayText(f), DayText(g));
    }
    FieldOrder(f.year, g.year, 4, "-", MonthText(f), MonthText(g));
  }

  lemma ClockIsMonotone(a: nat, b: nat)
    requires a < b && a / MS_PER_DAY == b / MS_PER_DAY
    ensures ClockEarlier(FieldsOf(a), FieldsOf(b))
  {
    ClockOfDay(a % MS_PER_DAY);
    ClockOfDay(b % MS_PER_DAY);
  }

  lemma PrintedIncreases(a: nat, b: nat)
    requires a < b <= LATEST_TEXT_MS
    ensures LexLess(Printed(a), Printed(b))
  {
    FieldsNameInstant(a);
    FieldsNameInstant(b);
    LastTextDay(a);
    LastTextDay(b);
    if a / MS_PER_DAY < b / MS_PER_DAY {
      CivilIsMonotone(a / MS_PER_DAY, b / MS_PER_DAY);
    } else {
      ClockIsMonotone(a, b);
    }
    TextOrder(FieldsOf(a), FieldsOf(b));
  }

  /** The byte order of printed texts is the order of the instants. */
  lemma PrintedOrder(a: nat, b: nat)
    requires a <= LATEST_TEXT_MS && b <= LATEST_TEXT_MS
    ensures LexLess(Printed(a), Printed(b)) <==> a < b
  {
    if a < b {
      PrintedIncreases(a, b);
    } else if b < a {
      PrintedIncreases(b, a);
      if LexLess(Printed(a), Printed(b)) {
        LexTransitive(Printed(a), Printed(b), Printed(a));
        LexIrreflexive(Printed(a));
      }
    } else {
      LexIrreflexive(Printed(a));
    }
  }
}
