/** The RFC 3339 (section 5.6) timestamp parser of the Alexa requests (`src/alexa.rs`). */
module Timestamps {
  import opened Common
  import opened Calendar

  predicate IsDigit(c: char) {
    '0' <= c <= '9'
  }

  function DigitValue(c: char): int
    requires IsDigit(c)
  {
    c as int - '0' as int
  }

  predicate AllDigits(s: string) {
    forall i :: 0 <= i < |s| ==> IsDigit(s[i])
  }

  function Decimal(s: string): int
    requires AllDigits(s)
  {
    if s == [] then 0 else 10 * Decimal(s[..|s| - 1]) + DigitValue(s[|s| - 1])
  }

  /** A fixed-width field: digits only. */
  function Field(s: string): Option<int> {
    if AllDigits(s) then Some(Decimal(s)) else None
  }

  /** `str::parse::<i64>` on a short field: an optional sign, then at least one digit. */
  function SignedField(s: string): Option<int> {
    if s == "" then None
    else if s[0] == '+' || s[0] == '-' then
      if |s| == 1 || !AllDigits(s[1..]) then None
      else Some(if s[0] == '-' then -Decimal(s[1..]) else Decimal(s[1..]))
    else Field(s)
  }

  function LeadingDigits(s: string): (n: nat)
    ensures n <= |s|
  {
    if s != "" && IsDigit(s[0]) then 1 + LeadingDigits(s[1..]) else 0
  }

  /** Drops an optional fraction of a second. */
  function SkipFraction(rest: string): Option<string> {
    if rest != "" && rest[0] == '.' then
      var digits := LeadingDigits(rest[1..]);
      if digits == 0 then None else Some(rest[1..][digits..])
    else Some(rest)
  }

  /** Seconds east of UTC. */
  function ZoneOffset(rest: string): Option<int> {
    if rest == "Z" || rest == "z" then Some(0)
    else if |rest| == 6 && rest[3] == ':' && (rest[0] == '+' || rest[0] == '-') then
      var hours := SignedField(rest[1..3]);
      var minutes := SignedField(rest[4..6]);
      if hours.None? || minutes.None? then None
      else Some((if rest[0] == '+' then 1 else -1) * (hours.value * 3600 + minutes.value * 60))
    else None
  }

  datatype Clock = Clock(hour: int, minute: int, second: int)

  datatype Stamp = Stamp(date: Date, clock: Clock, offset: int)

  /** The fields of a timestamp, or nothing where the parser gives up. */
  function ParseFields(text: string): Option<Stamp> {
    if |text| < 20 || text[4] != '-' || text[7] != '-' || text[13] != ':' then None
    else if !(text[10] == 'T' || text[10] == 't' || text[10] == ' ') || text[16] != ':' then None
    else
      var year, month, day := Field(text[0..4]), Field(text[5..7]), Field(text[8..10]);
      var hour, minute, second := Field(text[11..13]), Field(text[14..16]), Field(text[17..19]);
      if year.None? || month.None? || day.None? || hour.None? || minute.None? || second.None? then None
      else if !(1 <= month.value <= 12) || !(1 <= day.value <= 31)
           || hour.value > 23 || minute.value > 59 || second.value > 60 then None
      else
        var rest := SkipFraction(text[19..]);
        if rest.None? then None
        else
          var offset := ZoneOffset(rest.value);
          if offset.None? then None
          else Some(Stamp(Date(year.value, month.value, day.value),
                          Clock(hour.value, minute.value, second.value), offset.value))
  }

  function Seconds(s: Stamp): int {
    Days(s.date) * 86_400 + s.clock.hour * 3600 + s.clock.minute * 60 + s.clock.second - s.offset
  }

  function ParseIso8601(text: string): Option<int> {
    var stamp := ParseFields(text);
    if stamp.None? then None else Some(Seconds(stamp.value))
  }

  // ---- the printed form ----

  /** A zone's hours or minutes: two digits or, as a signed integer is read, a sign and one digit. */
  datatype ZoneField = Plain(n: int) | Signed(minus: bool, digit: int)

  datatype Zone = Utc(letter: char) | Offset(west: bool, hours: ZoneField, minutes: ZoneField)

  function Digit(n: int): char
    requires 0 <= n < 10
  {
    ('0' as int + n) as char
  }

  function Two(n: int): string
    requires 0 <= n < 100
  {
    [Digit(n / 10), Digit(n % 10)]
  }

  function Four(n: int): string
    requires 0 <= n < 10_000
  {
    Two(n / 100) + Two(n % 100)
  }

  /** Field ranges the parser accepts: day 31 of any month and second 60 included. */
  predicate Accepted(d: Date, c: Clock) {
    && 0 <= d.year < 10_000 && 1 <= d.month <= 12 && 1 <= d.day <= 31
    && 0 <= c.hour <= 23 && 0 <= c.minute <= 59 && 0 <= c.second <= 60
  }

  function PrintDate(d: Date): string
    requires 0 <= d.year < 10_000 && 0 <= d.month < 100 && 0 <= d.day < 100
  {
    Four(d.year) + "-" + Two(d.month) + "-" + Two(d.day)
  }

  function PrintClock(c: Clock): string
    requires 0 <= c.hour < 100 && 0 <= c.minute < 100 && 0 <= c.second < 100
  {
    Two(c.hour) + ":" + Two(c.minute) + ":" + Two(c.second)
  }

  predicate ValidField(f: ZoneField) {
    match f
    case Plain(n) => 0 <= n < 100
    case Signed(_, d) => 0 <= d < 10
  }

  function PrintField(f: ZoneField): (s: string)
    requires ValidField(f)
    ensures |s| == 2
  {
    match f
    case Plain(n) => Two(n)
    case Signed(minus, d) => [if minus then '-' else '+', Digit(d)]
  }

  function FieldValue(f: ZoneField): int {
    match f
    case Plain(n) => n
    case Signed(minus, d) => if minus then -d else d
  }

  predicate ValidZone(z: Zone) {
    match z
    case Utc(letter) => letter == 'Z' || letter == 'z'
    case Offset(_, hours, minutes) => ValidField(hours) && ValidField(minutes)
  }

  function PrintZone(z: Zone): string
    requires ValidZone(z)
  {
    match z
    case Utc(letter) => [letter]
    case Offset(west, hours, minutes) => [if west then '-' else '+'] + PrintField(hours) + ":" + PrintField(minutes)
  }

  function ZoneSeconds(z: Zone): int {
    match z
    case Utc(_) => 0
    case Offset(west, hours, minutes) => (if west then -1 else 1) * (FieldValue(hours) * 3600 + FieldValue(minutes) * 60)
  }

  function PrintFraction(digits: string): string {
    if digits == "" then "" else "." + digits
  }

  lemma TwoIsField(n: int)
    requires 0 <= n < 100
    ensures AllDigits(Two(n)) && Decimal(Two(n)) == n
    ensures SignedField(Two(n)) == Some(n)
  {
    var s := Two(n);
    assert s[..1] == [Digit(n / 10)];
    assert s[..1][..0] == [];
    assert Decimal(s[..1][..0]) == 0;
    assert Decimal(s[..1]) == n / 10;
  }

  lemma FourIsField(n: int)
    requires 0 <= n < 10_000
    ensures AllDigits(Four(n)) && Decimal(Four(n)) == n
  {
    var s := Four(n);
    var hi := Two(n / 100);
    TwoIsField(n / 100);
    assert s[..3] == hi + [Digit(n % 100 / 10)];
    assert s[..3][..2] == hi;
  }

  lemma {:induction false} FractionEnds(digits: string, rest: string)
    requires AllDigits(digits)
    requires rest != "" && !IsDigit(rest[0])
    ensures LeadingDigits(digits + rest) == |digits|
  {
    if digits != "" {
      assert (digits + rest)[1..] == digits[1..] + rest;
      FractionEnds(digits[1..], rest);
    } else {
      assert digits + rest == rest;
    }
  }

  lemma FractionSkipped(digits: string, zone: string)
    requires AllDigits(digits) && digits != ""
    requires zone != "" && !IsDigit(zone[0])
    ensures SkipFraction("." + digits + zone) == Some(zone)
  {
    var rest := "." + digits + zone;
    assert rest[1..] == digits + zone;
    FractionEnds(digits, zone);
    assert (digits + zone)[|digits|..] == zone;
  }

  lemma SuffixParses(digits: string, z: Zone)
    requires AllDigits(digits) && ValidZone(z)
    ensures SkipFraction(PrintFraction(digits) + PrintZone(z)) == Some(PrintZone(z))
  {
    var zone := PrintZone(z);
    assert zone != "" && !IsDigit(zone[0]) && zone[0] != '.';
    if digits == "" {
      assert PrintFraction(digits) + zone == zone;
    } else {
      FractionSkipped(digits, zone);
    }
  }

  lemma FieldParses(f: ZoneField)
    requires ValidField(f)
    ensures SignedField(PrintField(f)) == Some(FieldValue(f))
  {
    match f
    case Plain(n) => TwoIsField(n);
    case Signed(_, d) =>
      var digits := PrintField(f)[1..];
      assert digits == [Digit(d)] && digits[..0] == [];
      assert Decimal(digits[..0]) == 0;
  }

  lemma ZoneParses(z: Zone)
    requires ValidZone(z)
    ensures ZoneOffset(PrintZone(z)) == Some(ZoneSeconds(z))
  {
    if z.Offset? {
      FieldParses(z.hours);
      FieldParses(z.minutes);
      var s := PrintZone(z);
      assert s[1..3] == PrintField(z.hours) && s[4..6] == PrintField(z.minutes);
    }
  }

  lemma DateFields(d: Date)
    requires 0 <= d.year < 10_000 && 0 <= d.month < 100 && 0 <= d.day < 100
    ensures var s := PrintDate(d);
            |s| == 10 && s[4] == '-' && s[7] == '-'
            && s[0..4] == Four(d.year) && s[5..7] == Two(d.month) && s[8..10] == Two(d.day)
  {
  }

  lemma ClockFields(c: Clock)
    requires 0 <= c.hour < 100 && 0 <= c.minute < 100 && 0 <= c.second < 100
    ensures var s := PrintClock(c);
            |s| == 8 && s[2] == ':' && s[5] == ':'
            && s[0..2] == Two(c.hour) && s[3..5] == Two(c.minute) && s[6..8] == Two(c.second)
  {
  }

  lemma HeadParses(date: string, separator: char, clock: string, suffix: string)
    requires |date| == 10 && |clock| == 8
    ensures var text := date + [separator] + clock + suffix;
            && text[10] == separator && text[19..] == suffix
            && (forall i, j :: 0 <= i <= j <= 10 ==> text[i..j] == date[i..j])
            && (forall i, j :: 0 <= i <= j <= 8 ==> text[11 + i..11 + j] == clock[i..j])
            && (forall i :: 0 <= i < 10 ==> text[i] == date[i])
            && (forall i :: 0 <= i < 8 ==> text[11 + i] == clock[i])
  {
  }

  /** A timestamp text: its fields, what separates date and time, the digits of a fraction, and the zone. */
  datatype Form = Form(date: Date, clock: Clock, separator: char, digits: string, zone: Zone)

  predicate ValidForm(f: Form) {
    && Accepted(f.date, f.clock) && AllDigits(f.digits) && ValidZone(f.zone)
    && (f.separator == 'T' || f.separator == 't' || f.separator == ' ')
  }

  function Print(f: Form): string
    requires ValidForm(f)
  {
    PrintDate(f.date) + [f.separator] + PrintClock(f.clock) + (PrintFraction(f.digits) + PrintZone(f.zone))
  }

  /** Every accepted field combination, with any separator, fraction and zone, is read back as written. */
  lemma FieldsPrinted(f: Form)
    requires ValidForm(f)
    ensures ParseFields(Print(f)) == Some(Stamp(f.date, f.clock, ZoneSeconds(f.zone)))
  {
    var d, c := f.date, f.clock;
    var date, clock, suffix := PrintDate(d), PrintClock(c), PrintFraction(f.digits) + PrintZone(f.zone);
    DateFields(d);
    ClockFields(c);
    HeadParses(date, f.separator, clock, suffix);
    FieldsRead(Print(f), date, clock);
    FourIsField(d.year);
    TwoIsField(d.month);
    TwoIsField(d.day);
    TwoIsField(c.hour);
    TwoIsField(c.minute);
    TwoIsField(c.second);
    SuffixParses(f.digits, f.zone);
    ZoneParses(f.zone);
  }

  lemma FieldsRead(text: string, date: string, clock: string)
    requires |date| == 10 && |clock| == 8 && |text| >= 20
    requires forall i, j :: 0 <= i <= j <= 10 ==> text[i..j] == date[i..j]
    requires forall i, j :: 0 <= i <= j <= 8 ==> text[11 + i..11 + j] == clock[i..j]
    requires forall i :: 0 <= i < 10 ==> text[i] == date[i]
    requires forall i :: 0 <= i < 8 ==> text[11 + i] == clock[i]
    ensures text[4] == date[4] && text[7] == date[7] && text[13] == clock[2] && text[16] == clock[5]
    ensures text[0..4] == date[0..4] && text[5..7] == date[5..7] && text[8..10] == date[8..10]
    ensures text[11..13] == clock[0..2] && text[14..16] == clock[3..5] && text[17..19] == clock[6..8]
  {
  }

  // ---- no other text ----

  lemma DigitBack(c: char)
    requires IsDigit(c)
    ensures 0 <= DigitValue(c) < 10 && Digit(DigitValue(c)) == c
  {
  }

  /** Two digits are the printed form of their number. */
  lemma TwoBack(s: string)
    requires |s| == 2 && AllDigits(s)
    ensures 0 <= Decimal(s) < 100 && Two(Decimal(s)) == s
  {
    DigitBack(s[0]);
    DigitBack(s[1]);
    assert s[..1][..0] == [] && s[..1][0] == s[0];
    assert Decimal(s[..1][..0]) == 0;
    assert Decimal(s[..1]) == DigitValue(s[0]);
  }

  lemma FourBack(s: string)
    requires |s| == 4 && AllDigits(s)
    ensures 0 <= Decimal(s) < 10_000 && Four(Decimal(s)) == s
  {
    TwoBack(s[..2]);
    TwoBack(s[2..]);
    DecimalOfFour(s);
    FourParts(Decimal(s[..2]), Decimal(s[2..]));
    assert s[..2] + s[2..] == s;
  }

  lemma FourParts(hi: int, lo: int)
    requires 0 <= hi < 100 && 0 <= lo < 100
    ensures 0 <= 100 * hi + lo < 10_000 && Four(100 * hi + lo) == Two(hi) + Two(lo)
  {
    assert (100 * hi + lo) / 100 == hi && (100 * hi + lo) % 100 == lo;
  }

  lemma DecimalOfFour(s: string)
    requires |s| == 4 && AllDigits(s)
    ensures Decimal(s) == 100 * Decimal(s[..2]) + Decimal(s[2..])
  {
    var lo := s[2..];
    assert s[..3][..2] == s[..2] && s[..3][2] == lo[0];
    assert lo[..1][..0] == [] && lo[..1][0] == lo[0];
    assert Decimal(lo[..1][..0]) == 0;
    assert Decimal(lo[..1]) == DigitValue(lo[0]);
    assert Decimal(s[..3]) == 10 * Decimal(s[..2]) + DigitValue(lo[0]);
  }

  lemma FieldBack(s: string) returns (f: ZoneField)
    requires |s| == 2 && SignedField(s).Some?
    ensures ValidField(f) && PrintField(f) == s
  {
    if s[0] == '+' || s[0] == '-' {
      assert IsDigit(s[1..][0]);
      DigitBack(s[1]);
      f := Signed(s[0] == '-', DigitValue(s[1]));
    } else {
      TwoBack(s);
      f := Plain(Decimal(s));
    }
  }

  lemma ZoneBack(s: string) returns (z: Zone)
    requires ZoneOffset(s).Some?
    ensures ValidZone(z) && PrintZone(z) == s
  {
    if s == "Z" || s == "z" {
      z := Utc(s[0]);
    } else {
      var hours := FieldBack(s[1..3]);
      var minutes := FieldBack(s[4..6]);
      z := Offset(s[0] == '-', hours, minutes);
      assert [s[0]] + s[1..3] + [s[3]] + s[4..6] == s;
    }
  }

  lemma {:induction false} LeadingAreDigits(s: string)
    ensures AllDigits(s[..LeadingDigits(s)])
  {
    if s == "" || !IsDigit(s[0]) {
    } else {
      LeadingAreDigits(s[1..]);
      assert s[..LeadingDigits(s)] == [s[0]] + s[1..][..LeadingDigits(s[1..])];
    }
  }

  lemma SuffixBack(s: string) returns (digits: string, z: Zone)
    requires SkipFraction(s).Some? && ZoneOffset(SkipFraction(s).value).Some?
    ensures AllDigits(digits) && ValidZone(z) && PrintFraction(digits) + PrintZone(z) == s
  {
    var rest := SkipFraction(s).value;
    z := ZoneBack(rest);
    if s != "" && s[0] == '.' {
      var n := LeadingDigits(s[1..]);
      LeadingAreDigits(s[1..]);
      digits := s[1..][..n];
      assert s == "." + digits + rest;
    } else {
      digits := "";
      assert PrintFraction(digits) + rest == s;
    }
  }

  lemma DateBack(s: string)
    requires |s| == 10 && s[4] == '-' && s[7] == '-'
    requires AllDigits(s[0..4]) && AllDigits(s[5..7]) && AllDigits(s[8..10])
    ensures var d := Date(Decimal(s[0..4]), Decimal(s[5..7]), Decimal(s[8..10]));
            0 <= d.year < 10_000 && 0 <= d.month < 100 && 0 <= d.day < 100 && PrintDate(d) == s
  {
    FourBack(s[0..4]);
    TwoBack(s[5..7]);
    TwoBack(s[8..10]);
    assert s == s[0..4] + "-" + s[5..7] + "-" + s[8..10];
  }

  lemma ClockBack(s: string)
    requires |s| == 8 && s[2] == ':' && s[5] == ':'
    requires AllDigits(s[0..2]) && AllDigits(s[3..5]) && AllDigits(s[6..8])
    ensures var c := Clock(Decimal(s[0..2]), Decimal(s[3..5]), Decimal(s[6..8]));
            0 <= c.hour < 100 && 0 <= c.minute < 100 && 0 <= c.second < 100 && PrintClock(c) == s
  {
    TwoBack(s[0..2]);
    TwoBack(s[3..5]);
    TwoBack(s[6..8]);
    assert s == s[0..2] + ":" + s[3..5] + ":" + s[6..8];
  }

  /** Only such forms are accepted. */
  lemma AcceptedIsPrinted(text: string) returns (f: Form)
    requires ParseFields(text).Some?
    ensures ValidForm(f) && Print(f) == text
  {
    var stamp := ParseFields(text).value;
    PartsAccepted(text, stamp);
    HeadBack(text, stamp.date, stamp.clock);
    var digits, zone := SuffixBack(text[19..]);
    f := Form(stamp.date, stamp.clock, text[10], digits, zone);
    assert text == text[..10] + [text[10]] + text[11..19] + text[19..];
  }

  predicate FieldsAre(text: string, d: Date, c: Clock) {
    && |text| >= 20 && text[4] == '-' && text[7] == '-' && text[13] == ':' && text[16] == ':'
    && Field(text[0..4]) == Some(d.year) && Field(text[5..7]) == Some(d.month) && Field(text[8..10]) == Some(d.day)
    && Field(text[11..13]) == Some(c.hour) && Field(text[14..16]) == Some(c.minute) && Field(text[17..19]) == Some(c.second)
  }

  lemma PartsAccepted(text: string, stamp: Stamp)
    requires ParseFields(text) == Some(stamp)
    ensures FieldsAre(text, stamp.date, stamp.clock)
    ensures text[10] == 'T' || text[10] == 't' || text[10] == ' '
    ensures 1 <= stamp.date.month <= 12 && 1 <= stamp.date.day <= 31
    ensures stamp.clock.hour <= 23 && stamp.clock.minute <= 59 && stamp.clock.second <= 60
    ensures SkipFraction(text[19..]).Some? && ZoneOffset(SkipFraction(text[19..]).value).Some?
  {
  }

  lemma HeadBack(text: string, d: Date, c: Clock)
    requires FieldsAre(text, d, c)
    ensures 0 <= d.year < 10_000 && 0 <= d.month < 100 && 0 <= d.day < 100 && PrintDate(d) == text[..10]
    ensures 0 <= c.hour < 100 && 0 <= c.minute < 100 && 0 <= c.second < 100 && PrintClock(c) == text[11..19]
  {
    Slices(text);
    DateBack(text[..10]);
    ClockBack(text[11..19]);
  }

  lemma Slices(text: string)
    requires |text| >= 20
    ensures var date, clock := text[..10], text[11..19];
            && date[4] == text[4] && date[7] == text[7] && clock[2] == text[13] && clock[5] == text[16]
            && date[0..4] == text[0..4] && date[5..7] == text[5..7] && date[8..10] == text[8..10]
            && clock[0..2] == text[11..13] && clock[3..5] == text[14..16] && clock[6..8] == text[17..19]
  {
  }

  /** A text is accepted exactly when it is a printed form; among them are zones with a sign of their own in
      hours or minutes, which RFC 3339 does not have. */
  lemma AcceptedExactly(text: string)
    ensures ParseFields(text).Some? <==> exists f :: ValidForm(f) && Print(f) == text
  {
    if ParseFields(text).Some? {
      var f := AcceptedIsPrinted(text);
    }
    if f :| ValidForm(f) && Print(f) == text {
      FieldsPrinted(f);
    }
  }

  /** One of them, after any date and time: a zone of -9 hours and +5 minutes to the east. */
  lemma SignedZoneAccepted(d: Date, c: Clock)
    requires Accepted(d, c)
    ensures ParseFields(PrintDate(d) + "T" + PrintClock(c) + "+-9:+5") == Some(Stamp(d, c, -32_100))
  {
    var f := Form(d, c, 'T', "", Offset(false, Signed(true, 9), Signed(false, 5)));
    FieldsPrinted(f);
    SignedZoneText();
    assert Print(f) == PrintDate(d) + "T" + PrintClock(c) + "+-9:+5";
  }

  lemma SignedZoneText()
    ensures PrintFraction("") + PrintZone(Offset(false, Signed(true, 9), Signed(false, 5))) == "+-9:+5" && ['T'] == "T"
  {
  }

  // ---- instants ----

  /** The printer of the repository's tests: civil date, then the second of the day. */
  function ClockOf(seconds: int): (c: Clock)
    ensures 0 <= c.hour <= 23 && 0 <= c.minute <= 59 && 0 <= c.second <= 59
  {
    var rem := seconds % 86_400;
    Clock(rem / 3600, rem % 3600 / 60, rem % 60)
  }

  /** The days from 0000-01-01 to 9999-12-31. */
  predicate FourDigitDay(days: int) {
    -719_528 <= days < 2_932_897
  }

  /** How an instant is written in a zone: the local date and time, then the zone. */
  function LocalForm(seconds: int, separator: char, digits: string, z: Zone): Form {
    var local := seconds + ZoneSeconds(z);
    Form(CivilFromDays(local / 86_400), ClockOf(local), separator, digits, z)
  }

  predicate Writable(seconds: int, separator: char, digits: string, z: Zone) {
    && FourDigitDay((seconds + ZoneSeconds(z)) / 86_400)
    && (separator == 'T' || separator == 't' || separator == ' ') && AllDigits(digits) && ValidZone(z)
  }

  lemma LocalFormValid(seconds: int, separator: char, digits: string, z: Zone)
    requires Writable(seconds, separator, digits, z)
    ensures ValidForm(LocalForm(seconds, separator, digits, z))
  {
    FourDigitYear((seconds + ZoneSeconds(z)) / 86_400);
  }

  function FormatInstant(seconds: int, separator: char, digits: string, z: Zone): string
    requires Writable(seconds, separator, digits, z)
  {
    LocalFormValid(seconds, separator, digits, z);
    Print(LocalForm(seconds, separator, digits, z))
  }

  lemma FourDigitYear(days: int)
    ensures ValidDate(CivilFromDays(days))
    ensures FourDigitDay(days) <==> 0 <= CivilFromDays(days).year < 10_000
  {
    DaysOfCivil(days);
    YearWithin(CivilFromDays(days));
  }

  lemma YearWithin(d: Date)
    requires ValidDate(d)
    ensures FourDigitDay(Days(d)) <==> 0 <= d.year < 10_000
  {
    var first, after := Date(0, 1, 1), Date(10_000, 1, 1);
    assert Days(first) == -719_528 && Days(after) == 2_932_897;
    DaysStrictlyMonotone(d, first);
    DaysStrictlyMonotone(d, after);
  }

  /** The instant that a form's fields stand for. */
  predicate Denotes(f: Form, seconds: int) {
    Seconds(Stamp(f.date, f.clock, ZoneSeconds(f.zone))) == seconds
  }

  lemma FormRead(text: string, f: Form, seconds: int)
    requires ValidForm(f) && text == Print(f) && Denotes(f, seconds)
    ensures ParseIso8601(text) == Some(seconds)
  {
    FieldsPrinted(f);
  }

  lemma ClockSeconds(local: int)
    ensures var c := ClockOf(local);
            local / 86_400 * 86_400 + c.hour * 3600 + c.minute * 60 + c.second == local
  {
  }

  lemma LocalDenotes(seconds: int, separator: char, digits: string, z: Zone)
    ensures Denotes(LocalForm(seconds, separator, digits, z), seconds)
  {
    var local := seconds + ZoneSeconds(z);
    DaysOfCivil(local / 86_400);
    ClockSeconds(local);
  }

  /** The parser inverts the printer on every second, in any form and any zone it accepts, whose local day is in
      the years 0 to 9999. */
  lemma ParseFormatInstant(seconds: int, separator: char, digits: string, z: Zone)
    requires Writable(seconds, separator, digits, z)
    ensures ParseIso8601(FormatInstant(seconds, separator, digits, z)) == Some(seconds)
  {
    LocalFormValid(seconds, separator, digits, z);
    LocalDenotes(seconds, separator, digits, z);
    FormRead(FormatInstant(seconds, separator, digits, z), LocalForm(seconds, separator, digits, z), seconds);
  }

  lemma FormOfOneOClock(f: Form)
    requires f == Form(Date(2024, 1, 1), Clock(1, 0, 0), 'T', "", Offset(false, Plain(1), Plain(0)))
    ensures ValidForm(f) && Print(f) == "2024-01-01T01:00:00+01:00" && Denotes(f, 1_704_067_200)
  {
    OneOClockPrinted(f);
    assert PrintDate(f.date) + ['T'] + PrintClock(f.clock) + "+01:00" == "2024-01-01T01:00:00+01:00";
    assert Days(f.date) == 19_723;
  }

  lemma OneOClockPrinted(f: Form)
    requires f == Form(Date(2024, 1, 1), Clock(1, 0, 0), 'T', "", Offset(false, Plain(1), Plain(0)))
    ensures PrintDate(f.date) == "2024-01-01" && PrintClock(f.clock) == "01:00:00"
    ensures PrintFraction(f.digits) + PrintZone(f.zone) == "+01:00"
  {
  }

  /** One o'clock in a zone an hour east is midnight in UTC. */
  lemma EastIsEarlier(text: string)
    requires text == "2024-01-01T01:00:00+01:00"
    ensures ParseIso8601(text) == Some(1_704_067_200)
  {
    var f := Form(Date(2024, 1, 1), Clock(1, 0, 0), 'T', "", Offset(false, Plain(1), Plain(0)));
    FormOfOneOClock(f);
    FormRead(text, f, 1_704_067_200);
  }
}
