/** The canonical UTC form of a timestamp: the normaliser that produces it
    (shared/dataset_registry.py) and the independent validator that recognises it
    (shared/data_records.py). Dates are proleptic Gregorian. */
module CanonicalTimestamp {
  import opened Foundations
  import Utf8

  const PLUS: CodePoint := 43
  const DASH: CodePoint := 45
  const POINT: CodePoint := 46
  const ZERO: CodePoint := 48
  const COLON: CodePoint := 58
  const LETTER_T: CodePoint := 84
  const LETTER_Z: CodePoint := 90

  // ----- digits -----

  predicate AreDigits(t: Text) {
    forall i :: 0 <= i < |t| ==> IsDigit(t[i])
  }

  function NumberOf(t: Text): nat
    requires AreDigits(t)
  {
    if t == [] then 0 else 10 * NumberOf(t[..|t| - 1]) + (t[|t| - 1] - 48)
  }

  /** The last `width` decimal digits of n. */
  function Fixed(n: nat, width: nat): (t: Text)
    ensures |t| == width && AreDigits(t)
  {
    if width == 0 then [] else Fixed(n / 10, width - 1) + [48 + n % 10]
  }

  lemma {:induction false} NumberOfFixed(n: nat, width: nat)
    requires n < Pow10(width)
    ensures NumberOf(Fixed(n, width)) == n
  {
    if width > 0 {
      NumberOfFixed(n / 10, width - 1);
      var t := Fixed(n, width);
      assert t[..width - 1] == Fixed(n / 10, width - 1);
    }
  }

  lemma {:induction false} FixedOfNumber(t: Text)
    requires AreDigits(t)
    ensures NumberOf(t) < Pow10(|t|) && Fixed(NumberOf(t), |t|) == t
  {
    if t != [] {
      FixedOfNumber(t[..|t| - 1]);
      assert NumberOf(t) / 10 == NumberOf(t[..|t| - 1]);
      assert t == t[..|t| - 1] + [t[|t| - 1]];
    }
  }

  // ----- the calendar -----

  datatype Date = Date(year: nat, month: nat, day: nat)

  predicate IsLeap(year: nat) {
    year % 4 == 0 && (year % 100 != 0 || year % 400 == 0)
  }

  function DaysIn(year: nat, month: nat): nat {
    if month == 2 then (if IsLeap(year) then 29 else 28)
    else if month == 4 || month == 6 || month == 9 || month == 11 then 30 else 31
  }

  predicate ValidDate(d: Date) {
    1 <= d.year <= 9999 && 1 <= d.month <= 12 && 1 <= d.day <= DaysIn(d.year, d.month)
  }

  /** The days of a year before the first of a month. */
  function DaysBeforeMonth(year: nat, month: nat): nat {
    if month <= 1 then 0 else DaysBeforeMonth(year, month - 1) + DaysIn(year, month - 1)
  }

  function DaysBeforeYear(year: nat): nat {
    if year <= 1 then 0 else DaysBeforeYear(year - 1) + DaysBeforeMonth(year - 1, 13)
  }

  /** `date.toordinal`: 1 January of year 1 is day 1. */
  function DayNumber(d: Date): nat {
    DaysBeforeYear(d.year) + DaysBeforeMonth(d.year, d.month) + d.day
  }

  function NextDay(d: Date): Option<Date> {
    if d.day < DaysIn(d.year, d.month) then Some(Date(d.year, d.month, d.day + 1))
    else if d.month < 12 then Some(Date(d.year, d.month + 1, 1))
    else if d.year < 9999 then Some(Date(d.year + 1, 1, 1))
    else None
  }

  function PreviousDay(d: Date): Option<Date> {
    if d.day > 1 then Some(Date(d.year, d.month, d.day - 1))
    else if d.month > 1 then Some(Date(d.year, d.month - 1, DaysIn(d.year, d.month - 1)))
    else if d.year > 1 then Some(Date(d.year - 1, 12, 31))
    else None
  }

  lemma {:induction false} DaysAreConsecutive(d: Date)
    requires ValidDate(d)
    ensures NextDay(d).Some? ==> ValidDate(NextDay(d).value) && DayNumber(NextDay(d).value) == DayNumber(d) + 1
    ensures PreviousDay(d).Some? ==>
              ValidDate(PreviousDay(d).value) && DayNumber(PreviousDay(d).value) == DayNumber(d) - 1
  {
  }

  lemma {:induction false} MonthsGrow(year: nat, m: nat, n: nat)
    requires 1 <= m <= n
    ensures DaysBeforeMonth(year, m) <= DaysBeforeMonth(year, n)
    ensures m < n ==> DaysBeforeMonth(year, m) + DaysIn(year, m) <= DaysBeforeMonth(year, n)
    decreases n
  {
    if m < n {
      MonthsGrow(year, m, n - 1);
    }
  }

  lemma {:induction false} YearsGrow(y: nat, z: nat)
    requires 1 <= y <= z
    ensures DaysBeforeYear(y) <= DaysBeforeYear(z)
    ensures y < z ==> DaysBeforeYear(y) + DaysBeforeMonth(y, 13) <= DaysBeforeYear(z)
    decreases z
  {
    if y < z {
      YearsGrow(y, z - 1);
    }
  }

  /** A day number belongs to one date. */
  lemma {:induction false} DayNumberIsInjective(a: Date, b: Date)
    requires ValidDate(a) && ValidDate(b) && DayNumber(a) == DayNumber(b)
    ensures a == b
  {
    MonthsGrow(a.year, a.month, 13);
    MonthsGrow(b.year, b.month, 13);
    if a.year < b.year {
      YearsGrow(a.year, b.year);
    } else if b.year < a.year {
      YearsGrow(b.year, a.year);
    } else if a.month < b.month {
      MonthsGrow(a.year, a.month, b.month);
    } else if b.month < a.month {
      MonthsGrow(a.year, b.month, a.month);
    }
  }

  // ----- reading -----

  /** A date and a time of day. */
  datatype Fields = Fields(date: Date, hour: nat, minute: nat, second: nat)

  /** A whole timestamp, with its offset from UTC in minutes. */
  datatype Parsed = Parsed(fields: Fields, micro: nat, offset: int)

  /** dddd-dd-ddTdd:dd:dd at the head of a text. */
  predicate HasLayout(t: Text) {
    && |t| >= 19
    && t[4] == DASH && t[7] == DASH && t[10] == LETTER_T && t[13] == COLON && t[16] == COLON
    && AreDigits(t[..4]) && AreDigits(t[5..7]) && AreDigits(t[8..10])
    && AreDigits(t[11..13]) && AreDigits(t[14..16]) && AreDigits(t[17..19])
  }

  function FieldsOf(t: Text): Fields
    requires HasLayout(t)
  {
    Fields(Date(NumberOf(t[..4]), NumberOf(t[5..7]), NumberOf(t[8..10])),
           NumberOf(t[11..13]), NumberOf(t[14..16]), NumberOf(t[17..19]))
  }

  /** What `datetime.fromisoformat` accepts; 24:00 and a sixtieth second are refused. */
  predicate ValidFields(f: Fields) {
    ValidDate(f.date) && f.hour < 24 && f.minute < 60 && f.second < 60
  }

  function DigitRun(t: Text): (n: nat)
    ensures n <= |t| && AreDigits(t[..n])
    ensures n < |t| ==> !IsDigit(t[n])
  {
    if t == [] || !IsDigit(t[0]) then 0 else 1 + DigitRun(t[1..])
  }

  /** Up to six digits of a fraction as microseconds. */
  function Micro(digits: Text): nat
    requires AreDigits(digits) && |digits| <= 6
    decreases 6 - |digits|
  {
    if |digits| == 6 then NumberOf(digits) else Micro(digits + [ZERO])
  }

  /** An optional fraction of one to six digits, and what follows it. */
  function ReadFraction(tail: Text): Option<(nat, Text)> {
    if tail == [] || tail[0] != POINT then Some((0, tail))
    else
      var n := DigitRun(tail[1..]);
      if 1 <= n <= 6 then Some((Micro(tail[1..][..n]), tail[1..][n..])) else None
  }

  /** Z, or a signed offset of less than a day, in minutes. */
  function ReadZone(t: Text): Option<int> {
    if t == [LETTER_Z] then Some(0)
    else if |t| != 6 || (t[0] != PLUS && t[0] != DASH) || t[3] != COLON then None
    else if !AreDigits(t[1..3]) || !AreDigits(t[4..6]) then None
    else
      var hours, minutes := NumberOf(t[1..3]), NumberOf(t[4..6]);
      if hours > 23 || minutes > 59 then None
      else Some(if t[0] == DASH then -(60 * hours + minutes) else 60 * hours + minutes)
  }

  function Parse(t: Text): Option<Parsed> {
    if !HasLayout(t) || !ValidFields(FieldsOf(t)) then None
    else
      match ReadFraction(t[19..])
      case None => None
      case Some((micro, rest)) =>
        match ReadZone(rest)
        case None => None
        case Some(offset) => Some(Parsed(FieldsOf(t), micro, offset))
  }

  // ----- the instant -----

  /** A moment in UTC. */
  datatype Instant = Instant(fields: Fields, micro: nat)

  /** The day a time before midnight or past the day's end falls on. */
  function ShiftDay(d: Date, m: int): Option<Date> {
    if m < 0 then PreviousDay(d) else if m < 1440 then Some(d) else NextDay(d)
  }

  /** `astimezone(UTC)`: None where the year would leave 1 to 9999. */
  function ToUtc(p: Parsed): Option<Instant> {
    var m := 60 * p.fields.hour + p.fields.minute - p.offset;
    match ShiftDay(p.fields.date, m)
    case None => None
    case Some(date) => Some(Instant(Fields(date, (m % 1440) / 60, m % 60, p.fields.second), p.micro))
  }

  function MinuteNumber(f: Fields): int {
    1440 * DayNumber(f.date) + 60 * f.hour + f.minute
  }

  function ReadInstant(t: Text): Option<Instant> {
    match Parse(t) case None => None case Some(p) => ToUtc(p)
  }

  // ----- printing -----

  /** `rstrip("0")`. */
  function StripZeros(t: Text): Text {
    if t != [] && t[|t| - 1] == ZERO then StripZeros(t[..|t| - 1]) else t
  }

  function FractionText(micro: nat): Text {
    if micro == 0 then [] else [POINT] + StripZeros(Fixed(micro, 6))
  }

  /** `strftime("%Y")` pads the year to four digits on some platforms and not on others. */
  function YearText(padsYears: bool, year: nat): Text {
    if padsYears then Fixed(year, 4) else Decimal(year)
  }

  function AfterYear(f: Fields): Text {
    [DASH] + Fixed(f.date.month, 2) + [DASH] + Fixed(f.date.day, 2) + [LETTER_T]
    + Fixed(f.hour, 2) + [COLON] + Fixed(f.minute, 2) + [COLON] + Fixed(f.second, 2)
  }

  function Print(padsYears: bool, i: Instant): Text {
    YearText(padsYears, i.fields.date.year) + AfterYear(i.fields) + (FractionText(i.micro) + [LETTER_Z])
  }

  /** `_canonical_timestamp`: None where the source answers invalid_timestamp. */
  function Canonical(padsYears: bool, t: Text): Option<Text> {
    match ReadInstant(t) case None => None case Some(i) => Some(Print(padsYears, i))
  }

  /** The normaliser of timestamps on one platform. */
  function Reader(padsYears: bool): Text -> Option<Text> {
    (t: Text) => Canonical(padsYears, t)
  }

  /** Z, after an optional fraction that does not end in a zero. */
  predicate CanonicalTailText(tail: Text) {
    || tail == [LETTER_Z]
    || (3 <= |tail| <= 8 && tail[0] == POINT && AreDigits(tail[1..|tail| - 1]) && tail[|tail| - 2] != ZERO
        && tail[|tail| - 1] == LETTER_Z)
  }

  /** `_validate_canonical_timestamp`. */
  predicate IsCanonical(t: Text) {
    HasLayout(t) && ValidFields(FieldsOf(t)) && CanonicalTailText(t[19..])
  }

  // ----- the conversion keeps the instant -----

  lemma {:induction false} MinuteOfDay(m: int)
    requires -1440 <= m < 2880
    ensures (m % 1440) / 60 < 24 && m % 60 < 60
    ensures 60 * ((m % 1440) / 60) + m % 60 == if m < 0 then m + 1440 else if m < 1440 then m else m - 1440
  {
    var r := if m < 0 then m + 1440 else if m < 1440 then m else m - 1440;
    assert m % 1440 == r;
    assert m % 60 == r % 60;
  }

  lemma {:induction false} ShiftKeepsMinutes(d: Date, m: int)
    requires ValidDate(d) && -1440 <= m < 2880
    ensures var e := ShiftDay(d, m); e.Some? ==>
      ValidDate(e.value) && 1440 * DayNumber(e.value) + (60 * ((m % 1440) / 60) + m % 60) == 1440 * DayNumber(d) + m
  {
    DaysAreConsecutive(d);
    MinuteOfDay(m);
  }

  lemma {:induction false} UtcKeepsInstant(p: Parsed)
    requires ValidFields(p.fields) && -1440 < p.offset < 1440
    ensures var u := ToUtc(p); u.Some? ==>
      && ValidFields(u.value.fields)
      && MinuteNumber(u.value.fields) == MinuteNumber(p.fields) - p.offset
      && u.value.fields.second == p.fields.second && u.value.micro == p.micro
  {
    var m := 60 * p.fields.hour + p.fields.minute - p.offset;
    ShiftKeepsMinutes(p.fields.date, m);
    MinuteOfDay(m);
  }

  lemma {:induction false} FractionIsBounded(tail: Text)
    ensures ReadFraction(tail).Some? ==> ReadFraction(tail).value.0 < 1_000_000
  {
    if ReadFraction(tail).Some? && tail != [] && tail[0] == POINT {
      var n := DigitRun(tail[1..]);
      MicroIsBounded(tail[1..][..n]);
    }
  }

  lemma {:induction false} MicroIsBounded(digits: Text)
    requires AreDigits(digits) && |digits| <= 6
    ensures Micro(digits) < 1_000_000
    decreases 6 - |digits|
  {
    if |digits| == 6 {
      FixedOfNumber(digits);
      MillionIs();
    } else {
      MicroIsBounded(digits + [ZERO]);
    }
  }

  lemma {:induction false} MillionIs()
    ensures Pow10(2) == 100 && Pow10(4) == 10_000 && Pow10(6) == 1_000_000
  {
    assert Pow10(3) == 1000;
    assert Pow10(5) == 100_000;
  }

  lemma {:induction false} ZoneIsBounded(t: Text)
    ensures ReadZone(t).Some? ==> -1440 < ReadZone(t).value < 1440
  {
  }

  predicate ValidInstant(i: Instant) {
    ValidFields(i.fields) && i.micro < 1_000_000
  }

  lemma {:induction false} ReadIsValid(t: Text)
    ensures Parse(t).Some? ==> ValidFields(Parse(t).value.fields) && -1440 < Parse(t).value.offset < 1440
    ensures ReadInstant(t).Some? ==> ValidInstant(ReadInstant(t).value)
  {
    if Parse(t).Some? {
      FractionIsBounded(t[19..]);
      var (micro, rest) := ReadFraction(t[19..]).value;
      ZoneIsBounded(rest);
      UtcKeepsInstant(Parse(t).value);
    }
  }

  // ----- printing and reading -----

  /** The first nineteen characters of a padded form. */
  function Head(f: Fields): Text {
    Fixed(f.date.year, 4) + AfterYear(f)
  }

  lemma {:induction false} Pieces(a: Text, b: Text, c: Text, d: Text, e: Text, f: Text, tail: Text)
    requires |a| == 4 && |b| == |c| == |d| == |e| == |f| == 2
    ensures var t := a + ([DASH] + b + [DASH] + c + [LETTER_T] + d + [COLON] + e + [COLON] + f) + tail;
      && |t| >= 19 && t[4] == DASH && t[7] == DASH && t[10] == LETTER_T && t[13] == COLON && t[16] == COLON
      && t[..4] == a && t[5..7] == b && t[8..10] == c && t[11..13] == d && t[14..16] == e && t[17..19] == f
      && t[19..] == tail
  {
    var t := a + ([DASH] + b + [DASH] + c + [LETTER_T] + d + [COLON] + e + [COLON] + f) + tail;
    assert t == a + ([DASH] + (b + ([DASH] + (c + ([LETTER_T] + (d + ([COLON] + (e + ([COLON] + (f + tail))))))))));
    assert t[..4] == a;
  }

  lemma {:induction false} HeadParts(f: Fields, tail: Text)
    ensures var t := Head(f) + tail;
      && |t| >= 19 && t[4] == DASH && t[7] == DASH && t[10] == LETTER_T && t[13] == COLON && t[16] == COLON
      && t[..4] == Fixed(f.date.year, 4) && t[5..7] == Fixed(f.date.month, 2) && t[8..10] == Fixed(f.date.day, 2)
      && t[11..13] == Fixed(f.hour, 2) && t[14..16] == Fixed(f.minute, 2) && t[17..19] == Fixed(f.second, 2)
      && t[19..] == tail
  {
    Pieces(Fixed(f.date.year, 4), Fixed(f.date.month, 2), Fixed(f.date.day, 2), Fixed(f.hour, 2), Fixed(f.minute, 2),
           Fixed(f.second, 2), tail);
  }

  lemma {:induction false} NumbersOfFields(f: Fields)
    requires ValidFields(f)
    ensures NumberOf(Fixed(f.date.year, 4)) == f.date.year && NumberOf(Fixed(f.date.month, 2)) == f.date.month
    ensures NumberOf(Fixed(f.date.day, 2)) == f.date.day && NumberOf(Fixed(f.hour, 2)) == f.hour
    ensures NumberOf(Fixed(f.minute, 2)) == f.minute && NumberOf(Fixed(f.second, 2)) == f.second
  {
    MillionIs();
    NumberOfFixed(f.date.year, 4);
    NumberOfFixed(f.date.month, 2);
    NumberOfFixed(f.date.day, 2);
    NumberOfFixed(f.hour, 2);
    NumberOfFixed(f.minute, 2);
    NumberOfFixed(f.second, 2);
  }

  lemma {:induction false} HeadIsRead(f: Fields, tail: Text)
    requires ValidFields(f)
    ensures HasLayout(Head(f) + tail) && FieldsOf(Head(f) + tail) == f && (Head(f) + tail)[19..] == tail
  {
    HeadParts(f, tail);
    NumbersOfFields(f);
  }

  lemma {:induction false} Slices(t: Text)
    requires |t| >= 19
    requires t[4] == DASH && t[7] == DASH && t[10] == LETTER_T && t[13] == COLON && t[16] == COLON
    ensures t == t[..4] + ([DASH] + t[5..7] + [DASH] + t[8..10] + [LETTER_T] + t[11..13] + [COLON] + t[14..16] + [COLON]
                           + t[17..19]) + t[19..]
  {
  }

  lemma {:induction false} HeadOfRead(t: Text)
    requires HasLayout(t)
    ensures t == Head(FieldsOf(t)) + t[19..]
  {
    FixedOfNumber(t[..4]);
    FixedOfNumber(t[5..7]);
    FixedOfNumber(t[8..10]);
    FixedOfNumber(t[11..13]);
    FixedOfNumber(t[14..16]);
    FixedOfNumber(t[17..19]);
    Slices(t);
  }

  lemma {:induction false} StripParts(t: Text)
    requires AreDigits(t)
    ensures AreDigits(StripZeros(t)) && |StripZeros(t)| <= |t|
    ensures StripZeros(t) != [] ==> StripZeros(t)[|StripZeros(t)| - 1] != ZERO
    ensures StripZeros(t) == [] ==> NumberOf(t) == 0
  {
    if t != [] && t[|t| - 1] == ZERO {
      StripParts(t[..|t| - 1]);
    }
  }

  lemma {:induction false} MicroOfStrip(t: Text)
    requires AreDigits(t) && |t| <= 6
    ensures AreDigits(StripZeros(t)) && |StripZeros(t)| <= 6 && Micro(StripZeros(t)) == Micro(t)
  {
    if t != [] && t[|t| - 1] == ZERO {
      MicroOfStrip(t[..|t| - 1]);
      assert t == t[..|t| - 1] + [ZERO];
    }
  }

  lemma {:induction false} StripOfMicro(digits: Text)
    requires AreDigits(digits) && |digits| <= 6
    ensures StripZeros(Fixed(Micro(digits), 6)) == StripZeros(digits)
    decreases 6 - |digits|
  {
    if |digits| == 6 {
      FixedOfNumber(digits);
    } else {
      StripOfMicro(digits + [ZERO]);
      assert (digits + [ZERO])[..|digits|] == digits;
    }
  }

  lemma {:induction false} DigitRunStops(digits: Text, rest: Text)
    requires AreDigits(digits) && (rest == [] || !IsDigit(rest[0]))
    ensures DigitRun(digits + rest) == |digits|
  {
    if digits == [] {
      assert digits + rest == rest;
    } else {
      DigitRunStops(digits[1..], rest);
      assert (digits + rest)[1..] == digits[1..] + rest;
    }
  }

  lemma {:induction false} FractionIsRead(micro: nat)
    requires micro < 1_000_000
    ensures ReadFraction(FractionText(micro) + [LETTER_Z]) == Some((micro, [LETTER_Z]))
    ensures |FractionText(micro)| <= 7
    ensures micro > 0 ==>
              var tail := FractionText(micro) + [LETTER_Z];
              3 <= |tail| <= 8 && tail[0] == POINT && AreDigits(tail[1..|tail| - 1]) && tail[|tail| - 2] != ZERO
  {
    if micro == 0 {
      assert FractionText(micro) + [LETTER_Z] == [LETTER_Z];
    } else {
      MillionIs();
      NumberOfFixed(micro, 6);
      var six := Fixed(micro, 6);
      var digits := StripZeros(six);
      StripParts(six);
      MicroOfStrip(six);
      var tail := FractionText(micro) + [LETTER_Z];
      assert tail[1..] == digits + [LETTER_Z];
      DigitRunStops(digits, [LETTER_Z]);
      assert tail[1..|tail| - 1] == digits;
      assert (digits + [LETTER_Z])[..|digits|] == digits && (digits + [LETTER_Z])[|digits|..] == [LETTER_Z];
    }
  }

  lemma {:induction false} PaddedIsHead(i: Instant)
    ensures Print(true, i) == Head(i.fields) + (FractionText(i.micro) + [LETTER_Z])
  {
  }

  lemma {:induction false} ZuluKeepsFields(f: Fields, micro: nat)
    requires ValidFields(f)
    ensures ToUtc(Parsed(f, micro, 0)) == Some(Instant(f, micro))
  {
  }

  lemma {:induction false} CanonicalIsRead(t: Text, f: Fields, micro: nat)
    requires HasLayout(t) && f == FieldsOf(t) && ValidFields(f) && ReadFraction(t[19..]) == Some((micro, [LETTER_Z]))
    ensures ReadInstant(t) == Some(Instant(f, micro))
  {
    assert Parse(t) == Some(Parsed(f, micro, 0));
    ZuluKeepsFields(f, micro);
  }

  /** A padded form is read back as its own instant and recognised by the validator. */
  lemma {:induction false} PrintedIsRead(i: Instant)
    requires ValidInstant(i)
    ensures ReadInstant(Print(true, i)) == Some(i) && IsCanonical(Print(true, i))
  {
    PaddedIsHead(i);
    var tail := FractionText(i.micro) + [LETTER_Z];
    HeadIsRead(i.fields, tail);
    FractionIsRead(i.micro);
    CanonicalIsRead(Print(true, i), i.fields, i.micro);
    TailIsCanonical(i.micro);
  }

  lemma {:induction false} TailIsCanonical(micro: nat)
    requires micro < 1_000_000
    ensures CanonicalTailText(FractionText(micro) + [LETTER_Z])
  {
    FractionIsRead(micro);
    if micro == 0 {
      assert FractionText(micro) + [LETTER_Z] == [LETTER_Z];
    }
  }

  /** What the validator recognises is the padded form of the instant it denotes. */
  lemma {:induction false} CanonicalIsPrinted(t: Text)
    requires IsCanonical(t)
    ensures ReadInstant(t).Some? && Print(true, ReadInstant(t).value) == t
  {
    var f := FieldsOf(t);
    CanonicalTail(t[19..]);
    var micro := ReadFraction(t[19..]).value.0;
    CanonicalIsRead(t, f, micro);
    HeadOfRead(t);
    PaddedIsHead(Instant(f, micro));
  }

  lemma {:induction false} CanonicalTail(tail: Text)
    requires CanonicalTailText(tail)
    ensures ReadFraction(tail).Some? && ReadFraction(tail).value.1 == [LETTER_Z]
    ensures FractionText(ReadFraction(tail).value.0) + [LETTER_Z] == tail
  {
    if tail != [LETTER_Z] {
      var digits := tail[1..|tail| - 1];
      assert tail[1..] == digits + [LETTER_Z];
      DigitRunStops(digits, [LETTER_Z]);
      assert (digits + [LETTER_Z])[..|digits|] == digits && (digits + [LETTER_Z])[|digits|..] == [LETTER_Z];
      var micro := Micro(digits);
      StripOfMicro(digits);
      assert StripZeros(digits) == digits;
      StripParts(Fixed(micro, 6));
      if micro == 0 {
        ZeroStripsToNothing(6);
      }
      assert tail == [POINT] + digits + [LETTER_Z];
    }
  }

  lemma {:induction false} ZeroStripsToNothing(width: nat)
    ensures StripZeros(Fixed(0, width)) == []
  {
    if width > 0 {
      ZeroStripsToNothing(width - 1);
      assert Fixed(0, width)[..width - 1] == Fixed(0, width - 1);
    }
  }

  // ----- years below 1000 -----

  lemma {:induction false} DecimalOfYear(year: nat)
    requires 1000 <= year <= 9999
    ensures Decimal(year) == [48 + year / 1000, 48 + year / 100 % 10, 48 + year / 10 % 10, 48 + year % 10]
  {
    assert Decimal(year) == Decimal(year / 10) + [48 + year % 10];
    assert Decimal(year / 10) == Decimal(year / 100) + [48 + year / 10 % 10];
    assert Decimal(year / 100) == Decimal(year / 1000) + [48 + year / 100 % 10];
    assert Decimal(year / 1000) == [48 + year / 1000];
  }

  lemma {:induction false} FixedOfYear(year: nat)
    requires 1000 <= year <= 9999
    ensures Fixed(year, 4) == [48 + year / 1000, 48 + year / 100 % 10, 48 + year / 10 % 10, 48 + year % 10]
  {
    assert Fixed(year, 4) == Fixed(year / 10, 3) + [48 + year % 10];
    assert Fixed(year / 10, 3) == Fixed(year / 100, 2) + [48 + year / 10 % 10];
    assert Fixed(year / 100, 2) == Fixed(year / 1000, 1) + [48 + year / 100 % 10];
    assert Fixed(year / 1000, 1) == Fixed(year / 10000, 0) + [48 + year / 1000 % 10];
  }

  lemma {:induction false} FourDigitYear(year: nat)
    requires 1000 <= year <= 9999
    ensures Decimal(year) == Fixed(year, 4)
  {
    DecimalOfYear(year);
    FixedOfYear(year);
  }

  lemma {:induction false} ShortYear(year: nat)
    requires year < 1000
    ensures |Decimal(year)| <= 3
  {
    assert Decimal(year) == if year < 10 then [48 + year] else Decimal(year / 10) + [48 + year % 10];
    if year >= 10 {
      assert Decimal(year / 10) == if year < 100 then [48 + year / 10] else Decimal(year / 100) + [48 + year / 10 % 10];
    }
    if year >= 100 {
      assert Decimal(year / 100) == [48 + year / 100];
    }
  }

  /** An unpadded year below 1000 is not even laid out like a timestamp. */
  lemma {:induction false} ShortYearIsRefused(i: Instant)
    requires i.fields.date.year < 1000
    ensures !HasLayout(Print(false, i))
  {
    ShortYear(i.fields.date.year);
    var year, t := Decimal(i.fields.date.year), Print(false, i);
    assert t[|year|] == DASH;
    assert HasLayout(t) ==> IsDigit(t[..4][|year|]);
  }

  /** The year of an accepted timestamp in UTC has four digits of its own. */
  predicate HasLongYear(t: Text) {
    var i := ReadInstant(t); i.Some? && i.value.fields.date.year >= 1000
  }

  /** Where years are padded every form the normaliser produces is recognised by the validator and is a
      fixed point; where they are not, exactly the forms of years from 1000 on are. */
  lemma {:induction false} CanonicalIff(padsYears: bool, t: Text, c: Text)
    requires Canonical(padsYears, t) == Some(c)
    ensures IsCanonical(c) <==> padsYears || HasLongYear(t)
    ensures Canonical(padsYears, c) == Some(c) <==> padsYears || HasLongYear(t)
  {
    ReadIsValid(t);
    var i := ReadInstant(t).value;
    if padsYears {
      PrintedIsRead(i);
    } else if HasLongYear(t) {
      FourDigitYear(i.fields.date.year);
      assert Print(false, i) == Print(true, i);
      PrintedIsRead(i);
    } else {
      ShortYearIsRefused(i);
    }
  }

  /** The validator recognises exactly the fixed points of the padding normaliser: two independent
      definitions of the canonical form agree on every text. */
  lemma {:induction false} CanonicalIffFixed(t: Text)
    ensures IsCanonical(t) <==> Canonical(true, t) == Some(t)
  {
    if IsCanonical(t) {
      CanonicalIsPrinted(t);
    }
    if Canonical(true, t) == Some(t) {
      CanonicalIff(true, t, t);
    }
  }

  lemma {:induction false} YearIsShort(padsYears: bool, year: nat)
    requires year <= 9999
    ensures |YearText(padsYears, year)| <= 4 && AreDigits(YearText(padsYears, year))
  {
    if year >= 1000 {
      FourDigitYear(year);
    } else {
      ShortYear(year);
    }
  }

  /** A canonical form fits a cell. */
  lemma {:induction false} CanonicalIsSmall(padsYears: bool, t: Text, c: Text)
    requires Canonical(padsYears, t) == Some(c)
    ensures Utf8.Encodable(c) && |Utf8.Encode(c)| <= 27
  {
    ReadIsValid(t);
    var i := ReadInstant(t).value;
    YearIsShort(padsYears, i.fields.date.year);
    AfterYearIsAscii(i.fields);
    FractionIsAscii(i.micro);
    Utf8.AsciiEncodesToItsLength(c);
  }

  lemma {:induction false} AfterYearIsAscii(f: Fields)
    ensures |AfterYear(f)| == 15 && Utf8.IsAscii(AfterYear(f))
  {
  }

  lemma {:induction false} FractionIsAscii(micro: nat)
    ensures |FractionText(micro)| <= 7 && Utf8.IsAscii(FractionText(micro))
  {
    StripParts(Fixed(micro, 6));
  }

  /** An input for which the normaliser answers a form the validator refuses. */
  lemma {:induction false} EarlyYearExample()
    ensures var t, c := Lit("0999-01-01T00:00:00Z"), Lit("999-01-01T00:00:00Z");
      Canonical(false, t) == Some(c) && !IsCanonical(c) && Canonical(false, c).None?
  {
    var t, c := Lit("0999-01-01T00:00:00Z"), Lit("999-01-01T00:00:00Z");
    var i := Instant(Fields(Date(999, 1, 1), 0, 0, 0), 0);
    ExampleTexts(t, c, i);
    PrintedIsRead(i);
    ShortYearIsRefused(i);
  }

  lemma {:induction false} ExampleDigits()
    ensures Fixed(999, 4) == [48, 57, 57, 57] && Decimal(999) == [57, 57, 57]
    ensures Fixed(1, 2) == [48, 49] && Fixed(0, 2) == [48, 48]
  {
    assert Fixed(9, 2) == Fixed(0, 1) + [57] && Fixed(0, 1) == [48];
    assert Fixed(99, 3) == Fixed(9, 2) + [57];
    assert Decimal(99) == Decimal(9) + [57];
    assert Fixed(1, 2) == Fixed(0, 1) + [49];
    assert Fixed(0, 2) == Fixed(0, 1) + [48];
  }

  lemma {:induction false} ExampleAfterYear(f: Fields)
    requires f == Fields(Date(999, 1, 1), 0, 0, 0)
    ensures AfterYear(f) == [45, 48, 49, 45, 48, 49, 84, 48, 48, 58, 48, 48, 58, 48, 48]
  {
    ExampleDigits();
  }

  lemma {:induction false} ExampleLiterals()
    ensures Lit("0999-01-01T00:00:00Z")
            == [48, 57, 57, 57, 45, 48, 49, 45, 48, 49, 84, 48, 48, 58, 48, 48, 58, 48, 48, 90]
    ensures Lit("999-01-01T00:00:00Z") == [57, 57, 57, 45, 48, 49, 45, 48, 49, 84, 48, 48, 58, 48, 48, 58, 48, 48, 90]
  {
  }

  lemma {:induction false} ExampleJoins()
    ensures var after: Text := [45, 48, 49, 45, 48, 49, 84, 48, 48, 58, 48, 48, 58, 48, 48];
      && [48, 57, 57, 57] + after + [90]
         == [48, 57, 57, 57, 45, 48, 49, 45, 48, 49, 84, 48, 48, 58, 48, 48, 58, 48, 48, 90]
      && [57, 57, 57] + after + [90] == [57, 57, 57, 45, 48, 49, 45, 48, 49, 84, 48, 48, 58, 48, 48, 58, 48, 48, 90]
  {
  }

  lemma {:induction false} ExampleTexts(t: Text, c: Text, i: Instant)
    requires t == Lit("0999-01-01T00:00:00Z") && c == Lit("999-01-01T00:00:00Z")
    requires i == Instant(Fields(Date(999, 1, 1), 0, 0, 0), 0)
    ensures Print(true, i) == t && Print(false, i) == c
  {
    ExampleDigits();
    ExampleAfterYear(i.fields);
    ExampleLiterals();
    ExampleJoins();
    assert FractionText(0) + [LETTER_Z] == [90];
    assert Print(true, i) == Fixed(999, 4) + AfterYear(i.fields) + [90];
    assert Print(false, i) == Decimal(999) + AfterYear(i.fields) + [90];
  }

  // ----- one form for each instant -----

  lemma {:induction false} NumberOfDecimal(n: nat)
    ensures AreDigits(Decimal(n)) && NumberOf(Decimal(n)) == n
    decreases n
  {
    if n >= 10 {
      NumberOfDecimal(n / 10);
      assert Decimal(n)[..|Decimal(n)| - 1] == Decimal(n / 10);
    } else {
      assert Decimal(n)[..0] == [];
    }
  }

  lemma {:induction false} YearsSeparate(y: Text, z: Text, rest: Text, other: Text)
    requires AreDigits(y) && AreDigits(z) && y + [DASH] + rest == z + [DASH] + other
    ensures y == z && rest == other
  {
    DashAfterDigits(y, z, rest, other);
    DashAfterDigits(z, y, other, rest);
    var t := y + [DASH] + rest;
    assert y == t[..|y|] && z == t[..|z|];
    assert rest == t[|y| + 1..] && other == t[|z| + 1..];
  }

  lemma {:induction false} DashAfterDigits(y: Text, z: Text, rest: Text, other: Text)
    requires AreDigits(z) && y + [DASH] + rest == z + [DASH] + other
    ensures |z| <= |y|
  {
    var t := z + [DASH] + other;
    assert forall k :: 0 <= k < |z| ==> t[k] == z[k];
    assert (y + [DASH] + rest)[|y|] == DASH;
  }

  lemma {:induction false} PrintSplits(padsYears: bool, i: Instant)
    ensures Print(padsYears, i) ==
            YearText(padsYears, i.fields.date.year) + [DASH]
            + (AfterYear(i.fields)[1..] + (FractionText(i.micro) + [LETTER_Z]))
  {
    assert AfterYear(i.fields) == [DASH] + AfterYear(i.fields)[1..];
  }

  lemma {:induction false} PrintIsInjective(padsYears: bool, i: Instant, j: Instant)
    requires ValidInstant(i) && ValidInstant(j) && Print(padsYears, i) == Print(padsYears, j)
    ensures i == j
  {
    PrintSplits(padsYears, i);
    PrintSplits(padsYears, j);
    var y, z := YearText(padsYears, i.fields.date.year), YearText(padsYears, j.fields.date.year);
    NumberOfDecimal(i.fields.date.year);
    NumberOfDecimal(j.fields.date.year);
    YearsSeparate(y, z, AfterYear(i.fields)[1..] + (FractionText(i.micro) + [LETTER_Z]),
                  AfterYear(j.fields)[1..] + (FractionText(j.micro) + [LETTER_Z]));
    MillionIs();
    NumberOfFixed(i.fields.date.year, 4);
    NumberOfFixed(j.fields.date.year, 4);
    PrintSplits(true, i);
    PrintSplits(true, j);
    PrintedIsRead(i);
    PrintedIsRead(j);
  }

  /** Two timestamps denote one instant: the same UTC minute, second and microsecond. */
  predicate SameInstant(p: Parsed, q: Parsed) {
    && MinuteNumber(p.fields) - p.offset == MinuteNumber(q.fields) - q.offset
    && p.fields.second == q.fields.second && p.micro == q.micro
  }

  lemma {:induction false} MinuteNumberIsInjective(f: Fields, g: Fields)
    requires ValidFields(f) && ValidFields(g) && MinuteNumber(f) == MinuteNumber(g) && f.second == g.second
    ensures f == g
  {
    assert DayNumber(f.date) == DayNumber(g.date);
    DayNumberIsInjective(f.date, g.date);
  }

  /** Accepted timestamps have the same canonical form exactly when they denote the same instant. */
  lemma {:induction false} CanonicalIffSameInstant(padsYears: bool, a: Text, b: Text)
    requires Canonical(padsYears, a).Some? && Canonical(padsYears, b).Some?
    ensures Canonical(padsYears, a) == Canonical(padsYears, b) <==> SameInstant(Parse(a).value, Parse(b).value)
  {
    ReadIsValid(a);
    ReadIsValid(b);
    var p, q := Parse(a).value, Parse(b).value;
    UtcKeepsInstant(p);
    UtcKeepsInstant(q);
    var i, j := ReadInstant(a).value, ReadInstant(b).value;
    if Canonical(padsYears, a) == Canonical(padsYears, b) {
      PrintIsInjective(padsYears, i, j);
    }
    if SameInstant(p, q) {
      MinuteNumberIsInjective(i.fields, j.fields);
    }
  }
}
