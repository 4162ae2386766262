/** Exactly which texts are instants, and why each other text is refused. */
module TimestampTexts {
  import opened Wrappers
  import opened Calendar
  import opened Decimals
  import opened Timestamps

  // ---------------------------------------------------------------- the texts

  /** `YYYY-MM-DDTHH:MM:SS` and, for `n` of 1 to 3, a point and `n` digits of the fraction; then `Z`. */
  function Written(f: Fields, n: nat): string
    requires n <= 3
  {
    Seconds(f) + (if n == 0 || |Padded(f.millis, 3)| < n then "" else "." + Padded(f.millis, 3)[..n]) + "Z"
  }

  function Seconds(f: Fields): string {
    Padded(f.year, 4) + ("-" + (Padded(f.month, 2) + ("-" + (Padded(f.day, 2) + ("T" + (
      Padded(f.hour, 2) + (":" + (Padded(f.minute, 2) + (":" + Padded(f.second, 2))))))))))
  }

  /** The fields have room in the format, and `n` fraction digits write the milliseconds whole. */
  predicate Writable(f: Fields, n: nat) {
    && n <= 3
    && f.year <= 9_999 && f.month <= 99 && f.day <= 99 && f.hour <= 99 && f.minute <= 99 && f.second <= 99
    && f.millis <= 999
    && (n == 0 ==> f.millis == 0) && (n == 1 ==> f.millis % 100 == 0) && (n == 2 ==> f.millis % 10 == 0)
  }

  lemma SecondsPieces(year: string, month: string, day: string, hour: string, minute: string, second: string)
    requires |year| == 4 && |month| == |day| == |hour| == |minute| == |second| == 2
    ensures var t := year + ("-" + (month + ("-" + (day + ("T" + (hour + (":" + (minute + (":" + second)))))))));
            && |t| == 19 && t[4] == '-' && t[7] == '-' && t[10] == 'T' && t[13] == ':' && t[16] == ':'
            && t[0..4] == year && t[5..7] == month && t[8..10] == day
            && t[11..13] == hour && t[14..16] == minute && t[17..19] == second
  {
    var clock := hour + (":" + (minute + (":" + second)));
    var t := year + ("-" + (month + ("-" + (day + ("T" + clock)))));
    ClockPart(hour, minute, second);
    DatePart(year, month, day, clock);
    assert t[13] == t[11..][2] && t[16] == t[11..][5];
    assert t[11..13] == t[11..][0..2] && t[14..16] == t[11..][3..5] && t[17..19] == t[11..][6..8];
  }

  lemma ClockPart(hour: string, minute: string, second: string)
    requires |hour| == |minute| == |second| == 2
    ensures var t := hour + (":" + (minute + (":" + second)));
            && |t| == 8 && t[2] == ':' && t[5] == ':' && t[0..2] == hour && t[3..5] == minute && t[6..8] == second
  {
  }

  lemma DatePart(year: string, month: string, day: string, clock: string)
    requires |year| == 4 && |month| == |day| == 2
    ensures var t := year + ("-" + (month + ("-" + (day + ("T" + clock)))));
            && |t| == 11 + |clock| && t[4] == '-' && t[7] == '-' && t[10] == 'T'
            && t[0..4] == year && t[5..7] == month && t[8..10] == day && t[11..] == clock
  {
  }

  lemma SecondsLayout(f: Fields)
    requires Fits(f)
    ensures var t := Seconds(f);
            && |t| == 19 && t[4] == '-' && t[7] == '-' && t[10] == 'T' && t[13] == ':' && t[16] == ':'
            && t[0..4] == Padded(f.year, 4) && t[5..7] == Padded(f.month, 2) && t[8..10] == Padded(f.day, 2)
            && t[11..13] == Padded(f.hour, 2) && t[14..16] == Padded(f.minute, 2) && t[17..19] == Padded(f.second, 2)
  {
    FieldWidth(f.year);
    FieldWidth(f.month);
    FieldWidth(f.day);
    FieldWidth(f.hour);
    FieldWidth(f.minute);
    FieldWidth(f.second);
    SecondsPieces(Padded(f.year, 4), Padded(f.month, 2), Padded(f.day, 2),
                  Padded(f.hour, 2), Padded(f.minute, 2), Padded(f.second, 2));
  }

  /** A text with its seconds in front and a fraction of up to three characters. */
  lemma WithFraction(seconds: string, fraction: string, text: string)
    requires |seconds| == 19 && |fraction| <= 3
    requires text == seconds + (if fraction == "" then "" else "." + fraction) + "Z"
    ensures |text| == (if fraction == "" then 20 else 21 + |fraction|) && text[..19] == seconds
    ensures text[|text| - 1] == 'Z' && (fraction != "" ==> text[19] == '.' && text[20..|text| - 1] == fraction)
    ensures text[0..4] == seconds[0..4] && text[5..7] == seconds[5..7] && text[8..10] == seconds[8..10]
    ensures text[11..13] == seconds[11..13] && text[14..16] == seconds[14..16] && text[17..19] == seconds[17..19]
  {
  }

  /** The first digits of a padded number are its leading part. */
  lemma PaddedPrefix(millis: nat, n: nat)
    requires millis <= 999 && n <= 3
    ensures |Padded(millis, 3)| == 3
    ensures Number(Padded(millis, 3)[..n])
            == Some(if n == 3 then millis else if n == 2 then millis / 10 else if n == 1 then millis / 100 else 0)
  {
    FieldWidth(millis);
    PaddedReads(millis, 3);
    PaddedReads(millis / 10, 2);
    PaddedReads(millis / 10 / 10, 1);
    var three, two, one := Padded(millis, 3), Padded(millis / 10, 2), Padded(millis / 10 / 10, 1);
    assert three == two + [DigitChar(millis % 10)];
    assert two == one + [DigitChar(millis / 10 % 10)];
    assert three[..3] == three && three[..2] == two && three[..1] == one;
    assert millis / 10 / 10 == millis / 100;
  }

  lemma MillisScaled(millis: nat, n: nat)
    requires millis <= 999 && n <= 3
    requires (n == 0 ==> millis == 0) && (n == 1 ==> millis % 100 == 0) && (n == 2 ==> millis % 10 == 0)
    ensures (if n == 3 then millis else if n == 2 then millis / 10 else if n == 1 then millis / 100 else 0) * Pow10(3 - n) == millis
  {
    assert Pow10(0) == 1;
    assert Pow10(1) == 10;
    assert Pow10(2) == 100;
  }

  /** The reader finds exactly the fields that were written. */
  lemma WrittenReads(f: Fields, n: nat)
    requires Writable(f, n)
    ensures var text := Written(f, n); Shaped(text) && AllNumbers(text) && FieldsIn(text) == f
  {
    var text, fraction := Written(f, n), Padded(f.millis, 3)[..n] by { FieldWidth(f.millis); }
    SecondsLayout(f);
    PaddedPrefix(f.millis, n);
    MillisScaled(f.millis, n);
    assert n == 0 <==> fraction == "";
    WithFraction(Seconds(f), fraction, text);
    TextNumbers(f);
    assert text[4] == text[..19][4] && text[7] == text[..19][7] && text[10] == text[..19][10];
    assert text[13] == text[..19][13] && text[16] == text[..19][16];
    assert Shaped(text) && Fraction(text) == fraction;
  }

  // ---------------------------------------------------------------- what each text is

  /** A written text is refused for its first field out of range, in this order, then for a year
      before 1970; otherwise it is the one instant whose fields it writes. */
  lemma WrittenIsJudged(f: Fields, n: nat)
    requires Writable(f, n)
    ensures var r := Parsed(Written(f, n));
            if f.month < 1 || f.month > 12 then r == Err(Field(Month))
            else if f.day < 1 || f.day > DaysInMonth(f.year, f.month) then r == Err(Field(Day))
            else if f.hour > 23 then r == Err(Field(Hour))
            else if f.minute > 59 then r == Err(Field(Minute))
            else if f.second > 59 then r == Err(Field(Second))
            else if f.year < 1970 then r == Err(BeforeEpoch)
            else r.Ok? && 0 <= r.value <= LATEST_TEXT_MS && FieldsOf(r.value) == f
  {
    WrittenReads(f, n);
    if OutOfRange(f).None? {
      InstantNamesFields(f);
      LastTextDay(InstantOf(f));
    }
  }

  lemma ReadIsWritten(text: string)
    requires Shaped(text) && AllNumbers(text)
    ensures Writable(FieldsIn(text), |Fraction(text)|) && text == Written(FieldsIn(text), |Fraction(text)|)
  {
    var f, n := FieldsIn(text), |Fraction(text)|;
    FieldsAreShort(text);
    FractionPads(text);
    FieldPads(text[0..4], 4);
    FieldPads(text[5..7], 2);
    FieldPads(text[8..10], 2);
    FieldPads(text[11..13], 2);
    FieldPads(text[14..16], 2);
    FieldPads(text[17..19], 2);
    SecondsCuts(text);
    assert Seconds(f) == text[..19];
    TextIsCut(text, Fraction(text));
  }

  lemma SecondsCuts(text: string)
    requires |text| >= 19 && text[4] == '-' && text[7] == '-' && text[10] == 'T' && text[13] == ':' && text[16] == ':'
    ensures text[0..4] + ("-" + (text[5..7] + ("-" + (text[8..10] + ("T" + (
              text[11..13] + (":" + (text[14..16] + (":" + text[17..19]))))))))) == text[..19]
  {
  }

  lemma TextIsCut(text: string, fraction: string)
    requires Shaped(text) && fraction == Fraction(text)
    ensures text == text[..19] + (if fraction == "" then "" else "." + fraction) + "Z"
  {
  }

  lemma FieldsAreShort(text: string)
    requires Shaped(text) && AllNumbers(text)
    ensures var f := FieldsIn(text);
            && f.year <= 9_999 && f.month <= 99 && f.day <= 99 && f.hour <= 99 && f.minute <= 99 && f.second <= 99
            && f.millis <= 999
  {
    assert Pow10(1) == 10;
    assert Pow10(2) == 100;
    assert Pow10(3) == 1_000;
    assert Pow10(4) == 10_000;
    NumberBound(text[0..4]);
    NumberBound(text[5..7]);
    NumberBound(text[8..10]);
    NumberBound(text[11..13]);
    NumberBound(text[14..16]);
    NumberBound(text[17..19]);
    MillisFit(text);
  }

  /** The fraction read is the first digits of the milliseconds it stands for. */
  lemma FractionPads(text: string)
    requires Shaped(text) && AllNumbers(text)
    ensures var m, n := FieldsIn(text).millis, |Fraction(text)|;
            && |Padded(m, 3)| == 3 && Padded(m, 3)[..n] == Fraction(text)
            && (n == 0 ==> m == 0) && (n == 1 ==> m % 100 == 0) && (n == 2 ==> m % 10 == 0)
  {
    var fraction := Fraction(text);
    var n := |fraction|;
    var full := fraction + Zeros(3 - n);
    MillisFit(text);
    NumberZeros(fraction, 3 - n);
    FieldPads(full, 3);
    assert full[..n] == fraction;
    assert Pow10(0) == 1;
    assert Pow10(1) == 10;
    assert Pow10(2) == 100;
  }

  ghost predicate IsWritten(text: string) {
    exists f, n :: Writable(f, n) && text == Written(f, n)
  }

  lemma FormIsShape(text: string)
    ensures Parsed(text) == Err(Form) <==> !(Shaped(text) && AllNumbers(text))
  {
  }

  lemma WrittenHasShape(text: string)
    requires IsWritten(text)
    ensures Shaped(text) && AllNumbers(text)
  {
    var f, n :| Writable(f, n) && text == Written(f, n);
    WrittenReads(f, n);
  }

  /** Every other text is refused for its form, and no written one is. */
  lemma FormIsExact(text: string)
    ensures Parsed(text) == Err(Form) <==> !IsWritten(text)
  {
    FormIsShape(text);
    if IsWritten(text) {
      WrittenHasShape(text);
    } else if Shaped(text) && AllNumbers(text) {
      ReadIsWritten(text);
      assert false;
    }
  }

  // ---------------------------------------------------------------- every instant's texts

  lemma PrintedIsWritten(ms: nat)
    requires ms <= LATEST_TEXT_MS
    ensures Fits(FieldsOf(ms)) && Printed(ms) == Written(FieldsOf(ms), 3)
  {
    var f := FieldsOf(ms);
    FieldsNameInstant(ms);
    LastTextDay(ms);
    assert Fits(f);
    TextReads(f);
    ReadIsWritten(Text(f));
    Layout(f);
    FieldWidth(f.millis);
  }

  /** Every instant up to the last is read from its text with three fraction digits, and from each
      shorter one that drops only zeros, down to no fraction at all. */
  lemma ShorterTextsRead(ms: nat, n: nat)
    requires ms <= LATEST_TEXT_MS && n <= 3
    requires (n == 0 ==> ms % 1_000 == 0) && (n == 1 ==> ms % 100 == 0) && (n == 2 ==> ms % 10 == 0)
    ensures |Printed(ms)| == 24
    ensures Parsed((if n == 0 then Printed(ms)[..19] else Printed(ms)[..20 + n]) + "Z") == Ok(ms)
  {
    var f := FieldsOf(ms);
    PrintedIsWritten(ms);
    FieldsNameInstant(ms);
    MillisOf(ms);
    SecondsLayout(f);
    FieldWidth(f.millis);
    var three := Padded(f.millis, 3);
    assert three[..3] == three;
    CutWritten(Seconds(f), three, n);
    assert Written(f, n) == (if n == 0 then Printed(ms)[..19] else Printed(ms)[..20 + n]) + "Z";
    WrittenReads(f, n);
  }

  lemma Remainder10(k: int, r: int)
    ensures (10 * k + r) % 10 == r % 10
  {
  }

  lemma Remainder100(k: int, r: int)
    ensures (100 * k + r) % 100 == r % 100
  {
  }

  lemma Remainder1000(k: int, r: int)
    ensures (1_000 * k + r) % 1_000 == r % 1_000
  {
  }

  lemma MillisOf(ms: nat)
    ensures FieldsOf(ms).millis == ms % 1_000
    ensures ms % 1_000 % 100 == ms % 100 && ms % 1_000 % 10 == ms % 10
  {
    Remainder1000(86_400 * (ms / MS_PER_DAY), ms % MS_PER_DAY);
    Remainder100(10 * (ms / 1_000), ms % 1_000);
    Remainder10(100 * (ms / 1_000), ms % 1_000);
  }

  lemma CutWritten(seconds: string, millis: string, n: nat)
    requires |seconds| == 19 && |millis| == 3 && n <= 3
    ensures var text := seconds + ("." + millis) + "Z";
            && |text| == 24
            && (if n == 0 then text[..19] else text[..20 + n]) + "Z" == seconds + (if n == 0 then "" else "." + millis[..n]) + "Z"
  {
  }

  /** The first instant, as text. */
  lemma FirstText()
    ensures Printed(0) == "1970-01-01T00:00:00.000Z"
  {
    FirstFields();
    TwoDigits(0);
    TwoDigits(1);
    MoreDigits(0);
    MoreDigits(1970);
  }

  lemma FirstFields()
    ensures FieldsOf(0) == Fields(1970, 1, 1, 0, 0, 0, 0)
  {
    EpochIsDayZero();
    CivilThenDays(0);
    InstantNamesFields(Fields(1970, 1, 1, 0, 0, 0, 0));
  }

  /** The last instant with a four-digit year, as text. */
  lemma LastText()
    ensures Printed(LATEST_TEXT_MS) == "9999-12-31T23:59:59.999Z"
  {
    LastFields();
    TwoDigits(12);
    TwoDigits(23);
    TwoDigits(31);
    TwoDigits(59);
    MoreDigits(999);
    MoreDigits(9_999);
  }

  lemma LastFields()
    ensures FieldsOf(LATEST_TEXT_MS) == Fields(9_999, 12, 31, 23, 59, 59, 999)
  {
    LastDayNumber();
    DaysThenCivil(Date(9_999, 12, 31));
    assert LATEST_TEXT_MS / MS_PER_DAY == 2_932_896;
  }

  lemma DigitIs(d: nat)
    requires d < 10
    ensures DigitChar(d) == "0123456789"[d]
  {
  }

  lemma TwoDigits(n: nat)
    requires n < 100
    ensures Padded(n, 2) == ["0123456789"[n / 10], "0123456789"[n % 10]]
  {
    DigitIs(n / 10);
    DigitIs(n % 10);
    assert Padded(n / 10, 1) == [DigitChar(n / 10)];
  }

  lemma MoreDigits(n: nat)
    ensures n < 1_000 ==> Padded(n, 3) == ["0123456789"[n / 100], "0123456789"[n / 10 % 10], "0123456789"[n % 10]]
    ensures n < 10_000 ==>
              Padded(n, 4) == ["0123456789"[n / 1_000], "0123456789"[n / 100 % 10], "0123456789"[n / 10 % 10], "0123456789"[n % 10]]
  {
    assert n / 10 / 10 == n / 100 && n / 100 / 10 == n / 1_000;
    DigitIs(n % 10);
    DigitIs(n / 10 % 10);
    if n < 1_000 { TwoDigits(n / 10); }
    if n < 10_000 {
      TwoDigits(n / 100);
      assert Padded(n / 10, 3) == Padded(n / 100, 2) + [DigitChar(n / 10 % 10)];
    }
  }
}
