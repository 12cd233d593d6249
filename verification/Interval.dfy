/**
 PostgreSQL intervals as ISO 8601 durations, and the reading of such a duration
 (section 4.4.3.2 of ISO 8601:2004) that the printer is proved against.
 */
module Interval {
  import opened Wrappers
  import opened Sequences
  import opened Decimal

  datatype Interval = Interval(months: int, days: int, micros: int)

  /** The ranges of the three fields: 32, 32 and 64 bits, signed. */
  predicate InRange(iv: Interval) {
    && -0x8000_0000 <= iv.months < 0x8000_0000
    && -0x8000_0000 <= iv.days < 0x8000_0000
    && -0x8000_0000_0000_0000 <= iv.micros < 0x8000_0000_0000_0000
  }

  datatype Sign = Positive | Negative | Mixed

  function ClassifySign(iv: Interval): Sign {
    var anyPos := iv.months > 0 || iv.days > 0 || iv.micros > 0;
    var anyNeg := iv.months < 0 || iv.days < 0 || iv.micros < 0;
    if anyPos && anyNeg then Mixed else if anyNeg then Negative else Positive
  }

  /** `unsigned_abs`: defined at the minima too. */
  function Abs(v: int): nat {
    if v < 0 then -v else v
  }

  function AbsOf(iv: Interval): Interval {
    Interval(Abs(iv.months), Abs(iv.days), Abs(iv.micros))
  }

  // ---------------------------------------------------------------------
  // Fractions of a second
  // ---------------------------------------------------------------------

  function Pow10(n: nat): (p: nat)
    ensures p > 0
  {
    if n == 0 then 1 else 10 * Pow10(n - 1)
  }

  function Zeros(n: nat): string {
    seq(n, _ => '0')
  }

  /** `n` in at least `width` digits. */
  function Padded(n: nat, width: nat): string {
    if |Text(n)| < width then Zeros(width - |Text(n)|) + Text(n) else Text(n)
  }

  function Stripped(text: string): string {
    if text != [] && text[|text| - 1] == '0' then Stripped(text[..|text| - 1]) else text
  }

  lemma {:induction false} TextFits(n: nat, width: nat)
    requires n < Pow10(width) && width > 0
    ensures |Text(n)| <= width
  {
    if n >= 10 {
      TextFits(n / 10, width - 1);
    }
  }

  lemma {:induction false} ZerosAddNothing(zeros: nat, text: string)
    ensures Value(Zeros(zeros) + text) == Value(text)
    decreases zeros + |text|
  {
    var all := Zeros(zeros) + text;
    if text != [] {
      ZerosAddNothing(zeros, text[..|text| - 1]);
      assert all[..|all| - 1] == Zeros(zeros) + text[..|text| - 1];
    } else if zeros > 0 {
      ZerosAddNothing(zeros - 1, text);
      assert all[..|all| - 1] == Zeros(zeros - 1) + text;
    }
  }

  lemma ValueOfPadded(n: nat, width: nat)
    requires n < Pow10(width) && width > 0
    ensures Value(Padded(n, width)) == n && AllDigits(Padded(n, width)) && |Padded(n, width)| == width
  {
    TextFits(n, width);
    ValueOfText(n);
    TextIsDigits(n);
    ZerosAddNothing(width - |Text(n)|, Text(n));
  }

  lemma {:induction false} StrippedValue(text: string)
    requires AllDigits(text)
    ensures var s := Stripped(text);
            && s <= text && AllDigits(s)
            && Value(s) * Pow10(|text| - |s|) == Value(text)
    decreases |text|
  {
    if text != [] && text[|text| - 1] == '0' {
      var front := text[..|text| - 1];
      StrippedValue(front);
      var k := |front| - |Stripped(front)|;
      assert Value(text) == 10 * Value(front);
      assert Pow10(k + 1) == 10 * Pow10(k);
      TenTimes(Value(Stripped(front)), Pow10(k));
    }
  }

  lemma TenTimes(a: nat, b: nat)
    ensures a * (10 * b) == 10 * (a * b)
  {
  }

  /** The decimals of a fraction in microseconds: one to six digits, no trailing zero. */
  function FracText(frac: nat): string {
    Stripped(Padded(frac, 6))
  }

  /** `format_frac_micros`. */
  method FormatFracMicros(frac: nat) returns (s: string)
    requires frac < 1_000_000
    ensures s == FracText(frac)
  {
    s := Padded(frac, 6);
    while s != [] && s[|s| - 1] == '0'
      invariant Stripped(s) == FracText(frac)
      decreases |s|
    {
      s := s[..|s| - 1];
    }
  }

  /** `decimals` write `frac` millionths, and nothing writes none. */
  predicate Writes(decimals: string, frac: nat) {
    && AllDigits(decimals) && |decimals| <= 6 && Value(decimals) * Pow10(6 - |decimals|) == frac
    && (decimals == [] <==> frac == 0)
  }

  lemma FracReads(frac: nat)
    requires 0 < frac < 1_000_000
    ensures Writes(FracText(frac), frac)
  {
    assert Pow10(6) == 1_000_000 by {
      assert Pow10(2) == 100;
      assert Pow10(4) == 100 * Pow10(2);
    }
    ValueOfPadded(frac, 6);
    StrippedValue(Padded(frac, 6));
  }

  // ---------------------------------------------------------------------
  // Printing
  // ---------------------------------------------------------------------

  /** A number and its designator, unless the number is zero, after `out`. */
  function Put(out: string, n: nat, designator: char): string {
    if n == 0 then out else out + Text(n) + [designator]
  }

  function PutSeconds(out: string, seconds: nat, decimals: string): string {
    if seconds == 0 && decimals == [] then out
    else if decimals == [] then out + Text(seconds) + "S"
    else out + Text(seconds) + "." + decimals + "S"
  }

  function PutDate(out: string, years: nat, months: nat, days: nat): string {
    Put(Put(Put(out, years, 'Y'), months, 'M'), days, 'D')
  }

  function PutClock(out: string, hours: nat, minutes: nat, seconds: nat, decimals: string): string {
    PutSeconds(Put(Put(out, hours, 'H'), minutes, 'M'), seconds, decimals)
  }

  function PutTime(out: string, micros: nat, decimals: string): string {
    if micros == 0 then out
    else
      var seconds := micros / 1_000_000;
      PutClock(out + "T", seconds / 3600, seconds % 3600 / 60, seconds % 3600 % 60, decimals)
  }

  function Leader(iv: Interval): string {
    if ClassifySign(iv) == Negative then "-P" else "P"
  }

  /** The duration, given the decimals of its seconds. */
  function IsoWith(iv: Interval, decimals: string): string {
    if iv == Interval(0, 0, 0) then "PT0S"
    else
      var date := PutDate(Leader(iv), Abs(iv.months) / 12, Abs(iv.months) % 12, Abs(iv.days));
      PutTime(date, Abs(iv.micros), decimals)
  }

  function Decimals(micros: nat): string {
    if micros % 1_000_000 == 0 then [] else FracText(micros % 1_000_000)
  }

  function Iso(iv: Interval): string {
    IsoWith(iv, Decimals(Abs(iv.micros)))
  }

  /** `pg_interval_to_iso8601`. */
  method PgIntervalToIso8601(iv: Interval) returns (out: string)
    requires InRange(iv)
    ensures out == Iso(iv)
  {
    if iv.months == 0 && iv.days == 0 && iv.micros == 0 {
      return "PT0S";
    }
    var sign := ClassifySign(iv);
    var absMonths, absDays, absMicros := Abs(iv.months), Abs(iv.days), Abs(iv.micros);
    out := [];
    if sign == Negative {
      out := out + "-";
    }
    out := out + "P";
    assert out == Leader(iv);
    out := DateText(out, absMonths / 12, absMonths % 12, absDays);
    if absMicros != 0 {
      var decimals := DecimalsText(absMicros);
      var totalSecs := absMicros / 1_000_000;
      var remAfterHours := totalSecs % 3600;
      out := TimeText(out + "T", totalSecs / 3600, remAfterHours / 60, remAfterHours % 60, decimals);
    }
  }

  method DecimalsText(micros: nat) returns (decimals: string)
    ensures decimals == Decimals(micros)
  {
    decimals := [];
    if micros % 1_000_000 != 0 {
      decimals := FormatFracMicros(micros % 1_000_000);
    }
  }

  method DateText(prefix: string, years: nat, months: nat, days: nat) returns (out: string)
    ensures out == PutDate(prefix, years, months, days)
  {
    out := prefix;
    if years != 0 {
      out := out + Text(years) + "Y";
    }
    if months != 0 {
      out := out + Text(months) + "M";
    }
    if days != 0 {
      out := out + Text(days) + "D";
    }
  }

  method TimeText(prefix: string, hours: nat, minutes: nat, seconds: nat, decimals: string)
    returns (out: string)
    ensures out == PutClock(prefix, hours, minutes, seconds, decimals)
  {
    out := prefix;
    if hours != 0 {
      out := out + Text(hours) + "H";
    }
    if minutes != 0 {
      out := out + Text(minutes) + "M";
    }
    if seconds != 0 || decimals != [] {
      if decimals == [] {
        out := out + Text(seconds) + "S";
      } else {
        out := out + Text(seconds) + "." + decimals + "S";
      }
    }
  }

  // ---------------------------------------------------------------------
  // Reading
  // ---------------------------------------------------------------------

  /** A text cut after every character that is not a digit: digits, then that mark. */
  datatype Fields = End | Field(digits: string, mark: char, rest: Fields)

  function DigitCount(s: string): (n: nat)
    ensures n <= |s|
  {
    if s == [] || !IsDigit(s[0]) then 0 else 1 + DigitCount(s[1..])
  }

  /** The cut, of a text that does not end in a digit. */
  function Cut(s: string): Option<Fields>
    decreases |s|
  {
    var n := DigitCount(s);
    if s == [] then Some(End)
    else if n == |s| then None
    else
      var rest := Cut(s[n + 1..]);
      if rest.None? then None else Some(Field(s[..n], s[n], rest.value))
  }

  /** A leading number with designator `c`, or zero if there is none. */
  function TakeField(f: Fields, c: char): (nat, Fields) {
    if f.Field? && f.digits != [] && f.mark == c then (Value(f.digits), f.rest) else (0, f)
  }

  /** Seconds with at most six decimals, as microseconds. */
  function TakeSeconds(f: Fields): (nat, Fields) {
    if f.End? || f.digits == [] then (0, f)
    else if f.mark == 'S' then (1_000_000 * Value(f.digits), f.rest)
    else if f.mark == '.' && f.rest.Field? && f.rest.mark == 'S' && 0 < |f.rest.digits| <= 6 then
      (1_000_000 * Value(f.digits) + Value(f.rest.digits) * Pow10(6 - |f.rest.digits|), f.rest.rest)
    else (0, f)
  }

  function ReadTime(f: Fields): Option<nat> {
    if f == End then Some(0)
    else if f.digits != [] || f.mark != 'T' || f.rest == End then None
    else
      var (hours, f) := TakeField(f.rest, 'H');
      var (minutes, f) := TakeField(f, 'M');
      var (micros, f) := TakeSeconds(f);
      if f == End then Some((3600 * hours + 60 * minutes) * 1_000_000 + micros) else None
  }

  function ReadBody(f: Fields): Option<Interval> {
    var (years, f) := TakeField(f, 'Y');
    var (months, f) := TakeField(f, 'M');
    var (days, f) := TakeField(f, 'D');
    var micros := ReadTime(f);
    if micros.Some? then Some(Interval(12 * years + months, days, micros.value)) else None
  }

  function ReadFields(f: Fields): Option<Interval> {
    var negative := f.Field? && f.digits == [] && f.mark == '-';
    var f := if negative then f.rest else f;
    if f.End? || f.digits != [] || f.mark != 'P' || f.rest == End then None
    else
      var iv := ReadBody(f.rest);
      if iv.Some? && negative then Some(Interval(-iv.value.months, -iv.value.days, -iv.value.micros))
      else iv
  }

  /** An ISO 8601 duration: an optional minus, `P`, and at least one designator. */
  function ReadIso(s: string): Option<Interval> {
    var f := Cut(s);
    if f.None? then None else ReadFields(f.value)
  }

  // ---------------------------------------------------------------------
  // Cutting inverts spelling
  // ---------------------------------------------------------------------

  function Spell(f: Fields): string {
    match f
    case End => []
    case Field(digits, mark, rest) => digits + [mark] + Spell(rest)
  }

  predicate WellFormed(f: Fields) {
    f.Field? ==> AllDigits(f.digits) && !IsDigit(f.mark) && WellFormed(f.rest)
  }

  lemma {:induction false} DigitsEnd(digits: string, mark: char, rest: string)
    requires AllDigits(digits) && !IsDigit(mark)
    ensures DigitCount(digits + [mark] + rest) == |digits|
    decreases |digits|
  {
    if digits != [] {
      assert digits[0] in digits;
      assert (digits + [mark] + rest)[1..] == digits[1..] + [mark] + rest;
      DigitsEnd(digits[1..], mark, rest);
    }
  }

  lemma {:induction false} CutInvertsSpell(f: Fields)
    requires WellFormed(f)
    ensures Cut(Spell(f)) == Some(f)
  {
    if f.Field? {
      DigitsEnd(f.digits, f.mark, Spell(f.rest));
      CutInvertsSpell(f.rest);
      assert Spell(f)[|f.digits| + 1..] == Spell(f.rest) && Spell(f)[..|f.digits|] == f.digits;
    }
  }

  // ---------------------------------------------------------------------
  // What is printed, as fields
  // ---------------------------------------------------------------------

  function Before(n: nat, designator: char, rest: Fields): Fields {
    if n == 0 then rest else Field(Text(n), designator, rest)
  }

  function Seconds(seconds: nat, decimals: string): Fields {
    if seconds == 0 && decimals == [] then End
    else if decimals == [] then Field(Text(seconds), 'S', End)
    else Field(Text(seconds), '.', Field(decimals, 'S', End))
  }

  function Clock(hours: nat, minutes: nat, rest: Fields): Fields {
    Before(hours, 'H', Before(minutes, 'M', rest))
  }

  function Time(micros: nat, decimals: string): Fields {
    if micros == 0 then End
    else
      var seconds := micros / 1_000_000;
      Field([], 'T', Clock(seconds / 3600, seconds % 3600 / 60, Seconds(seconds % 3600 % 60, decimals)))
  }

  function Date(years: nat, months: nat, days: nat, rest: Fields): Fields {
    Before(years, 'Y', Before(months, 'M', Before(days, 'D', rest)))
  }

  function Body(iv: Interval, decimals: string): Fields {
    Date(Abs(iv.months) / 12, Abs(iv.months) % 12, Abs(iv.days), Time(Abs(iv.micros), decimals))
  }

  function Signed(negative: bool, body: Fields): Fields {
    if negative then Field([], '-', Field([], 'P', body)) else Field([], 'P', body)
  }

  function FieldsOf(iv: Interval, decimals: string): Fields {
    Signed(ClassifySign(iv) == Negative, Body(iv, decimals))
  }

  lemma PutBefore(out: string, n: nat, c: char, rest: Fields)
    ensures Put(out, n, c) + Spell(rest) == out + Spell(Before(n, c, rest))
  {
    Associative(out, Text(n), [c]);
    Associative(out, Text(n) + [c], Spell(rest));
  }

  lemma SpellLast(digits: string, mark: char)
    ensures Spell(Field(digits, mark, End)) == digits + [mark]
  {
  }

  lemma PutSecondsAfter(out: string, seconds: nat, decimals: string)
    ensures PutSeconds(out, seconds, decimals) == out + Spell(Seconds(seconds, decimals))
  {
    var t := Text(seconds);
    if decimals == [] {
      Associative(out, t, "S");
      SpellLast(t, 'S');
    } else {
      Associative(out, t, ".");
      Associative(out + t + ".", decimals, "S");
      SpellLast(decimals, 'S');
      Associative(out, t + ".", decimals + "S");
    }
  }

  lemma PutClockAfter(out: string, hours: nat, minutes: nat, seconds: nat, decimals: string)
    ensures PutClock(out, hours, minutes, seconds, decimals) ==
            out + Spell(Clock(hours, minutes, Seconds(seconds, decimals)))
  {
    var rest := Seconds(seconds, decimals);
    PutSecondsAfter(Put(Put(out, hours, 'H'), minutes, 'M'), seconds, decimals);
    PutBefore(Put(out, hours, 'H'), minutes, 'M', rest);
    PutBefore(out, hours, 'H', Before(minutes, 'M', rest));
  }

  lemma PutTimeAfter(out: string, micros: nat, decimals: string)
    ensures PutTime(out, micros, decimals) == out + Spell(Time(micros, decimals))
  {
    if micros != 0 {
      var total := micros / 1_000_000;
      var hours, minutes, seconds := total / 3600, total % 3600 / 60, total % 3600 % 60;
      PutClockAfter(out + "T", hours, minutes, seconds, decimals);
      var rest := Clock(hours, minutes, Seconds(seconds, decimals));
      SpellMark('T', rest);
      Associative(out, "T", Spell(rest));
    }
  }

  lemma SpellMark(mark: char, rest: Fields)
    ensures Spell(Field([], mark, rest)) == [mark] + Spell(rest)
  {
  }

  lemma PutDateBefore(out: string, years: nat, months: nat, days: nat, rest: Fields)
    ensures PutDate(out, years, months, days) + Spell(rest) == out + Spell(Date(years, months, days, rest))
  {
    PutBefore(Put(Put(out, years, 'Y'), months, 'M'), days, 'D', rest);
    PutBefore(Put(out, years, 'Y'), months, 'M', Before(days, 'D', rest));
    PutBefore(out, years, 'Y', Before(months, 'M', Before(days, 'D', rest)));
  }

  lemma SpellSigned(negative: bool, body: Fields)
    ensures Spell(Signed(negative, body)) == (if negative then "-P" else "P") + Spell(body)
  {
    SpellMark('P', body);
    SpellMark('-', Field([], 'P', body));
    Associative("-", "P", Spell(body));
  }

  lemma IsoSpellsFields(iv: Interval, decimals: string)
    requires iv != Interval(0, 0, 0)
    ensures IsoWith(iv, decimals) == Spell(FieldsOf(iv, decimals))
  {
    var years, months, days := Abs(iv.months) / 12, Abs(iv.months) % 12, Abs(iv.days);
    PutTimeAfter(PutDate(Leader(iv), years, months, days), Abs(iv.micros), decimals);
    PutDateBefore(Leader(iv), years, months, days, Time(Abs(iv.micros), decimals));
    SpellSigned(ClassifySign(iv) == Negative, Body(iv, decimals));
  }

  lemma BeforeIsWellFormed(n: nat, c: char, rest: Fields)
    requires !IsDigit(c) && WellFormed(rest)
    ensures WellFormed(Before(n, c, rest))
  {
    TextIsDigits(n);
  }

  lemma TimeIsWellFormed(micros: nat, decimals: string)
    requires AllDigits(decimals)
    ensures WellFormed(Time(micros, decimals))
  {
    if micros != 0 {
      var total := micros / 1_000_000;
      var hours, minutes, seconds := total / 3600, total % 3600 / 60, total % 3600 % 60;
      TextIsDigits(seconds);
      BeforeIsWellFormed(minutes, 'M', Seconds(seconds, decimals));
      BeforeIsWellFormed(hours, 'H', Before(minutes, 'M', Seconds(seconds, decimals)));
    }
  }

  lemma FieldsAreWellFormed(iv: Interval, decimals: string)
    requires AllDigits(decimals)
    ensures WellFormed(FieldsOf(iv, decimals))
  {
    var years, months, days := Abs(iv.months) / 12, Abs(iv.months) % 12, Abs(iv.days);
    var time := Time(Abs(iv.micros), decimals);
    TimeIsWellFormed(Abs(iv.micros), decimals);
    BeforeIsWellFormed(days, 'D', time);
    BeforeIsWellFormed(months, 'M', Before(days, 'D', time));
    BeforeIsWellFormed(years, 'Y', Before(months, 'M', Before(days, 'D', time)));
  }

  // ---------------------------------------------------------------------
  // Reading inverts printing
  // ---------------------------------------------------------------------

  /** Whether the fields start with a number that has designator `c`. */
  predicate Leads(f: Fields, c: char) {
    f.Field? && f.digits != [] && f.mark == c
  }

  lemma BeforeReads(n: nat, c: char, rest: Fields)
    requires !Leads(rest, c)
    ensures TakeField(Before(n, c, rest), c) == (n, rest)
  {
    ValueOfText(n);
  }

  lemma SecondsRead(seconds: nat, decimals: string, frac: nat)
    requires Writes(decimals, frac)
    ensures TakeSeconds(Seconds(seconds, decimals)) == (1_000_000 * seconds + frac, End)
  {
    ValueOfText(seconds);
  }

  lemma SplitTime(micros: nat)
    ensures var total := micros / 1_000_000;
            (3600 * (total / 3600) + 60 * (total % 3600 / 60)) * 1_000_000
            + (1_000_000 * (total % 3600 % 60) + micros % 1_000_000) == micros
  {
  }

  lemma ClockReads(hours: nat, minutes: nat, rest: Fields, micros: nat)
    requires !Leads(rest, 'H') && !Leads(rest, 'M') && TakeSeconds(rest) == (micros, End)
    requires hours != 0 || minutes != 0 || rest != End
    ensures ReadTime(Field([], 'T', Clock(hours, minutes, rest))) ==
            Some((3600 * hours + 60 * minutes) * 1_000_000 + micros)
  {
    BeforeReads(minutes, 'M', rest);
    BeforeReads(hours, 'H', Before(minutes, 'M', rest));
  }

  lemma TimeReads(micros: nat, decimals: string)
    requires Writes(decimals, micros % 1_000_000)
    ensures ReadTime(Time(micros, decimals)) == Some(micros)
  {
    if micros != 0 {
      var total, frac := micros / 1_000_000, micros % 1_000_000;
      var hours, minutes, seconds := total / 3600, total % 3600 / 60, total % 3600 % 60;
      SplitTime(micros);
      SecondsRead(seconds, decimals, frac);
      ClockReads(hours, minutes, Seconds(seconds, decimals), 1_000_000 * seconds + frac);
    }
  }

  lemma DateReads(years: nat, months: nat, days: nat, rest: Fields, micros: nat)
    requires (rest.Field? ==> rest.digits == []) && ReadTime(rest) == Some(micros)
    ensures ReadBody(Date(years, months, days, rest)) == Some(Interval(12 * years + months, days, micros))
  {
    var s2 := Before(days, 'D', rest);
    var s1 := Before(months, 'M', s2);
    BeforeReads(days, 'D', rest);
    BeforeReads(months, 'M', s2);
    BeforeReads(years, 'Y', s1);
  }

  lemma BodyReads(iv: Interval, decimals: string)
    requires Writes(decimals, Abs(iv.micros) % 1_000_000)
    ensures ReadBody(Body(iv, decimals)) == Some(AbsOf(iv))
  {
    TimeReads(Abs(iv.micros), decimals);
    DateReads(
      Abs(iv.months) / 12, Abs(iv.months) % 12, Abs(iv.days), Time(Abs(iv.micros), decimals), Abs(iv.micros));
  }

  lemma BodyIsNotEmpty(iv: Interval, decimals: string)
    requires iv != Interval(0, 0, 0)
    ensures Body(iv, decimals) != End
  {
  }

  lemma SignedReads(negative: bool, body: Fields, iv: Interval)
    requires body != End && ReadBody(body) == Some(iv)
    ensures ReadFields(Signed(negative, body)) ==
            Some(if negative then Interval(-iv.months, -iv.days, -iv.micros) else iv)
  {
  }

  lemma FieldsRead(iv: Interval, decimals: string)
    requires iv != Interval(0, 0, 0) && Writes(decimals, Abs(iv.micros) % 1_000_000)
    ensures ReadFields(FieldsOf(iv, decimals)) == Some(if ClassifySign(iv) == Mixed then AbsOf(iv) else iv)
  {
    BodyIsNotEmpty(iv, decimals);
    BodyReads(iv, decimals);
    SignedReads(ClassifySign(iv) == Negative, Body(iv, decimals), AbsOf(iv));
  }

  lemma ReadsThroughFields(s: string, f: Fields)
    requires WellFormed(f) && s == Spell(f)
    ensures ReadIso(s) == ReadFields(f)
  {
    CutInvertsSpell(f);
  }

  lemma DecimalsWrite(micros: nat)
    ensures Writes(Decimals(micros), micros % 1_000_000)
  {
    if micros % 1_000_000 != 0 {
      FracReads(micros % 1_000_000);
    }
  }

  /**
   The printed text reads back as the exact months, days and microseconds, for every
   interval of uniform sign, both minima included; a mixed one reads back as its
   absolute value. So the printing is faithful exactly when the signs agree.
   */
  lemma IsoReadsBack(iv: Interval)
    ensures ReadIso(Iso(iv)) == Some(if ClassifySign(iv) == Mixed then AbsOf(iv) else iv)
    ensures ReadIso(Iso(iv)) == Some(iv) <==> ClassifySign(iv) != Mixed
  {
    if iv == Interval(0, 0, 0) {
      ZeroReads();
    } else {
      var decimals := Decimals(Abs(iv.micros));
      DecimalsWrite(Abs(iv.micros));
      IsoSpellsFields(iv, decimals);
      FieldsAreWellFormed(iv, decimals);
      ReadsThroughFields(Iso(iv), FieldsOf(iv, decimals));
      FieldsRead(iv, decimals);
    }
  }

  lemma ZeroReads()
    ensures ReadIso("PT0S") == Some(Interval(0, 0, 0))
  {
    var seconds := Field(Text(0), 'S', End);
    var f := Signed(false, Field([], 'T', seconds));
    assert "PT0S" == Spell(f) by {
      SpellLast(Text(0), 'S');
      SpellMark('T', seconds);
      SpellMark('P', Field([], 'T', seconds));
    }
    TextIsDigits(0);
    ValueOfText(0);
    ZeroFieldsRead(Text(0));
    ReadsThroughFields("PT0S", f);
  }

  lemma ZeroFieldsRead(digits: string)
    requires digits != [] && Value(digits) == 0
    ensures ReadFields(Signed(false, Field([], 'T', Field(digits, 'S', End)))) == Some(Interval(0, 0, 0))
  {
  }

  /** Printing is injective on intervals of uniform sign. */
  lemma IsoIsInjective(a: Interval, b: Interval)
    requires ClassifySign(a) != Mixed && ClassifySign(b) != Mixed && Iso(a) == Iso(b)
    ensures a == b
  {
    IsoReadsBack(a);
    IsoReadsBack(b);
  }

  /** A mixed interval prints as its absolute value. */
  lemma MixedPrintsAbsolute(iv: Interval)
    requires ClassifySign(iv) == Mixed
    ensures Iso(iv) == Iso(AbsOf(iv))
  {
    assert ClassifySign(AbsOf(iv)) == Positive;
  }

  // ---------------------------------------------------------------------
  // What is printed is in lowest terms
  // ---------------------------------------------------------------------

  /** A number other than zero, without zeros in front. */
  predicate Plain(digits: string) {
    digits != [] && digits[0] != '0'
  }

  /** Decimals, up to the `S`, that do not end in a zero. */
  predicate IsFraction(f: Fields) {
    f.Field? && f.mark == 'S' && f.rest == End && f.digits != [] && f.digits[|f.digits| - 1] != '0'
  }

  /**
   No field is zero, months stay below a year, minutes below an hour and seconds below a
   minute; a `T` is followed by a field.
   */
  predicate Normal(f: Fields, time: bool) {
    match f
    case End => true
    case Field(digits, mark, rest) =>
      if digits == [] then mark in "-PT" && rest != End && Normal(rest, time || mark == 'T')
      else if mark == '.' then time && Value(digits) < 60 && (Plain(digits) || digits == "0") && IsFraction(rest)
      else
        && Plain(digits) && Normal(rest, time)
        && (if time then mark in "HMS" && (mark != 'H' ==> Value(digits) < 60) && (mark == 'S' ==> rest == End)
            else mark in "YMD" && (mark == 'M' ==> Value(digits) < 12))
  }

  lemma NumberIsPlain(n: nat)
    requires n > 0
    ensures Plain(Text(n)) && Value(Text(n)) == n
  {
    NoZeroInFront(n);
    ValueOfText(n);
  }

  lemma BeforeIsNormal(n: nat, c: char, rest: Fields, time: bool)
    requires Normal(rest, time)
    requires if time then c in "HM" && (c == 'M' ==> n < 60) else c in "YMD" && (c == 'M' ==> n < 12)
    ensures Normal(Before(n, c, rest), time)
  {
    if n > 0 {
      NumberIsPlain(n);
    }
  }

  lemma {:induction false} StrippedEnds(text: string)
    ensures Stripped(text) == [] || Stripped(text)[|Stripped(text)| - 1] != '0'
    decreases |text|
  {
    if text != [] && text[|text| - 1] == '0' {
      StrippedEnds(text[..|text| - 1]);
    }
  }

  lemma SecondsAreNormal(seconds: nat, decimals: string)
    requires seconds < 60 && (decimals == [] || decimals[|decimals| - 1] != '0')
    ensures Normal(Seconds(seconds, decimals), true)
  {
    if seconds > 0 {
      NumberIsPlain(seconds);
    } else {
      ValueOfText(0);
      assert Text(0) == "0";
    }
  }

  lemma TimeIsNormal(micros: nat, decimals: string)
    requires decimals == [] || decimals[|decimals| - 1] != '0'
    requires decimals == [] <==> micros % 1_000_000 == 0
    ensures Normal(Time(micros, decimals), false)
  {
    if micros != 0 {
      var total := micros / 1_000_000;
      var hours, minutes, seconds := total / 3600, total % 3600 / 60, total % 3600 % 60;
      SecondsAreNormal(seconds, decimals);
      BeforeIsNormal(minutes, 'M', Seconds(seconds, decimals), true);
      BeforeIsNormal(hours, 'H', Before(minutes, 'M', Seconds(seconds, decimals)), true);
      assert Clock(hours, minutes, Seconds(seconds, decimals)) != End;
    }
  }

  lemma BodyIsNormal(iv: Interval, decimals: string)
    requires Normal(Time(Abs(iv.micros), decimals), false)
    ensures Normal(Body(iv, decimals), false)
  {
    var years, months, days := Abs(iv.months) / 12, Abs(iv.months) % 12, Abs(iv.days);
    var time := Time(Abs(iv.micros), decimals);
    BeforeIsNormal(days, 'D', time, false);
    BeforeIsNormal(months, 'M', Before(days, 'D', time), false);
    BeforeIsNormal(years, 'Y', Before(months, 'M', Before(days, 'D', time)), false);
  }

  lemma SignedIsNormal(negative: bool, body: Fields)
    requires Normal(body, false) && body != End
    ensures Normal(Signed(negative, body), false)
  {
  }

  /** Every interval but zero is printed in lowest terms; zero is `PT0S`. */
  lemma IsoIsNormal(iv: Interval)
    ensures if iv == Interval(0, 0, 0) then Iso(iv) == "PT0S"
            else Cut(Iso(iv)).Some? && Normal(Cut(Iso(iv)).value, false)
  {
    if iv != Interval(0, 0, 0) {
      var micros := Abs(iv.micros);
      var decimals := Decimals(micros);
      DecimalsWrite(micros);
      StrippedEnds(Padded(micros % 1_000_000, 6));
      assert Normal(Body(iv, decimals), false) by {
        TimeIsNormal(micros, decimals);
        BodyIsNormal(iv, decimals);
      }
      BodyIsNotEmpty(iv, decimals);
      SignedIsNormal(ClassifySign(iv) == Negative, Body(iv, decimals));
      IsoSpellsFields(iv, decimals);
      FieldsAreWellFormed(iv, decimals);
      CutInvertsSpell(FieldsOf(iv, decimals));
    }
  }
}
