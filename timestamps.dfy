/** The timestamps that `datetime.strptime(t, "%Y-%m-%dT%H:%M")` accepts.
    Python matches the format as a case-insensitive regular expression in which
    %Y is exactly four digits, %m, %d, %H and %M are one or two digits in their
    ranges (01-12 or 1-9, 01-31 or 1-9, 0-23, 0-59), the whole string must be
    consumed, and the date must then exist in the proleptic Gregorian calendar
    between the years 1 and 9999. */
module Timestamps {
  import opened Wrappers
  import opened Lexical

  datatype Timestamp = Timestamp(year: nat, month: nat, day: nat, hour: nat, minute: nat)

  predicate IsLeapYear(year: nat) {
    year % 4 == 0 && (year % 100 != 0 || year % 400 == 0)
  }

  function DaysInMonth(year: nat, month: nat): nat
    requires 1 <= month <= 12
  {
    if month == 2 then (if IsLeapYear(year) then 29 else 28)
    else if month == 4 || month == 6 || month == 9 || month == 11 then 30
    else 31
  }

  /** A minute of a date that `datetime` can represent. */
  predicate IsValid(t: Timestamp) {
    && 1 <= t.year <= 9999
    && 1 <= t.month <= 12
    && 1 <= t.day <= DaysInMonth(t.year, t.month)
    && t.hour <= 23
    && t.minute <= 59
  }

  function LeadingDigits(s: string): (n: nat)
    ensures n <= |s|
    ensures forall i :: 0 <= i < n ==> IsDigit(s[i])
    ensures n < |s| ==> !IsDigit(s[n])
  {
    if s == "" || !IsDigit(s[0]) then 0 else 1 + LeadingDigits(s[1..])
  }

  datatype Field = Field(value: nat, rest: string)

  /** A run of `lo` to `hi` digits at the start of s that ends at one of the
      separators in `ends`; the rest of s after the separator. */
  function TakeField(s: string, lo: nat, hi: nat, ends: set<char>): Option<Field> {
    var n := LeadingDigits(s);
    if lo <= n <= hi && n < |s| && s[n] in ends then Some(Field(DigitsValue(s[..n]), s[n + 1..]))
    else None
  }

  /** A run of `lo` to `hi` digits that is all of s. */
  function FinalField(s: string, lo: nat, hi: nat): Option<nat> {
    var n := LeadingDigits(s);
    if lo <= n <= hi && n == |s| then Some(DigitsValue(s)) else None
  }

  function ParseTimestamp(t: string): (r: Option<Timestamp>)
    ensures r.Some? ==> IsValid(r.value)
  {
    var year :- TakeField(t, 4, 4, {'-'});
    var month :- TakeField(year.rest, 1, 2, {'-'});
    var day :- TakeField(month.rest, 1, 2, {'T', 't'});
    var hour :- TakeField(day.rest, 1, 2, {':'});
    var minute :- FinalField(hour.rest, 1, 2);
    var ts := Timestamp(year.value, month.value, day.value, hour.value, minute);
    if IsValid(ts) then Some(ts) else None
  }

  predicate IsTimestamp(t: string) {
    ParseTimestamp(t).Some?
  }

  function TwoDigits(v: nat): (s: string)
    requires v < 100
    ensures |s| == 2 && IsDigit(s[0]) && IsDigit(s[1])
  {
    [DigitChar(v / 10), DigitChar(v % 10)]
  }

  /** Every field fits its zero-padded width: four digits for the year, two
      for the others. */
  predicate Renderable(t: Timestamp) {
    t.year < 10000 && t.month < 100 && t.day < 100 && t.hour < 100 && t.minute < 100
  }

  /** The zero-padded rendering `YYYY-MM-DDTHH:MM` the log generator writes. */
  function Format(t: Timestamp): string
    requires Renderable(t)
  {
    TwoDigits(t.year / 100) + TwoDigits(t.year % 100) + "-" + TwoDigits(t.month) + "-"
      + TwoDigits(t.day) + "T" + TwoDigits(t.hour) + ":" + TwoDigits(t.minute)
  }

  lemma TwoDigitsValue(v: nat)
    requires v < 100
    ensures DigitsValue(TwoDigits(v)) == v
  {
    var s := TwoDigits(v);
    assert s[..1][..0] == "";
    assert DigitsValue(s[..1]) == v / 10;
  }

  lemma FourDigitsValue(v: nat)
    requires v < 10000
    ensures DigitsValue(TwoDigits(v / 100) + TwoDigits(v % 100)) == v
  {
    var hi, lo := TwoDigits(v / 100), TwoDigits(v % 100);
    var s := hi + lo;
    TwoDigitsValue(v / 100);
    assert s[..3] == hi + [lo[0]] && s[..3][..2] == hi;
    assert DigitsValue(s[..3]) == 10 * (v / 100) + (v % 100) / 10;
  }

  lemma TakeDigits(digits: string, sep: char, rest: string, lo: nat, hi: nat, ends: set<char>)
    requires forall i :: 0 <= i < |digits| ==> IsDigit(digits[i])
    requires lo <= |digits| <= hi && sep in ends && !IsDigit(sep)
    ensures TakeField(digits + [sep] + rest, lo, hi, ends) == Some(Field(DigitsValue(digits), rest))
  {
    var s := digits + [sep] + rest;
    var n := LeadingDigits(s);
    assert s[|digits|] == sep;
    assert forall i :: 0 <= i < |digits| ==> s[i] == digits[i];
    assert n == |digits|;
    assert s[..n] == digits && s[n + 1..] == rest;
  }

  lemma LeadingDigitsAll(s: string)
    requires forall i :: 0 <= i < |s| ==> IsDigit(s[i])
    ensures LeadingDigits(s) == |s|
  {
  }

  /** s is a run of `lo` to `hi` digits writing `value`. */
  predicate DigitsOf(s: string, value: nat, lo: nat, hi: nat) {
    lo <= |s| <= hi && (forall i :: 0 <= i < |s| ==> IsDigit(s[i])) && DigitsValue(s) == value
  }

  /** How the five fields of a timestamp are read, whatever their values. */
  lemma ParseFields(y: string, mo: string, d: string, h: string, mi: string, t: Timestamp)
    requires DigitsOf(y, t.year, 4, 4) && DigitsOf(mo, t.month, 1, 2) && DigitsOf(d, t.day, 1, 2)
    requires DigitsOf(h, t.hour, 1, 2) && DigitsOf(mi, t.minute, 1, 2)
    ensures ParseTimestamp(y + "-" + (mo + "-" + (d + "T" + (h + ":" + mi))))
         == if IsValid(t) then Some(t) else None
  {
    var r3 := h + ":" + mi;
    var r2 := d + "T" + r3;
    var r1 := mo + "-" + r2;
    TakeDigits(y, '-', r1, 4, 4, {'-'});
    TakeDigits(mo, '-', r2, 1, 2, {'-'});
    TakeDigits(d, 'T', r3, 1, 2, {'T', 't'});
    TakeDigits(h, ':', mi, 1, 2, {':'});
    LeadingDigitsAll(mi);
  }

  lemma ParseFieldsLower(y: string, mo: string, d: string, h: string, mi: string, t: Timestamp)
    requires DigitsOf(y, t.year, 4, 4) && DigitsOf(mo, t.month, 1, 2) && DigitsOf(d, t.day, 1, 2)
    requires DigitsOf(h, t.hour, 1, 2) && DigitsOf(mi, t.minute, 1, 2)
    ensures ParseTimestamp(y + "-" + (mo + "-" + (d + "t" + (h + ":" + mi))))
         == if IsValid(t) then Some(t) else None
  {
    var r3 := h + ":" + mi;
    var r2 := d + "t" + r3;
    var r1 := mo + "-" + r2;
    TakeDigits(y, '-', r1, 4, 4, {'-'});
    TakeDigits(mo, '-', r2, 1, 2, {'-'});
    TakeDigits(d, 't', r3, 1, 2, {'T', 't'});
    TakeDigits(h, ':', mi, 1, 2, {':'});
    LeadingDigitsAll(mi);
  }

  /** Parsing the zero-padded rendering of a timestamp gives it back when the
      date exists, and fails when it does not. */
  lemma FormatRoundTrip(t: Timestamp)
    requires Renderable(t)
    ensures ParseTimestamp(Format(t)) == if IsValid(t) then Some(t) else None
  {
    var y := TwoDigits(t.year / 100) + TwoDigits(t.year % 100);
    var mo, d, h, mi := TwoDigits(t.month), TwoDigits(t.day), TwoDigits(t.hour), TwoDigits(t.minute);
    FourDigitsValue(t.year);
    assert DigitsOf(y, t.year, 4, 4);
    TwoDigitsValue(t.month);
    TwoDigitsValue(t.day);
    TwoDigitsValue(t.hour);
    TwoDigitsValue(t.minute);
    assert Format(t) == y + "-" + (mo + "-" + (d + "T" + (h + ":" + mi)));
    ParseFields(y, mo, d, h, mi, t);
  }

  /** February 29th exists in a leap year and not in a common year, so by
      `FormatRoundTrip` "2024-02-29T23:59" is accepted and "2025-02-29T23:59"
      rejected although both are well formed; centuries are leap years only
      when divisible by 400. */
  lemma LeapDays()
    ensures IsValid(Timestamp(2024, 2, 29, 23, 59)) && !IsValid(Timestamp(2025, 2, 29, 23, 59))
    ensures IsValid(Timestamp(2000, 2, 29, 0, 0)) && !IsValid(Timestamp(1900, 2, 29, 0, 0))
    ensures !IsValid(Timestamp(2025, 4, 31, 12, 0)) && !IsValid(Timestamp(0, 1, 1, 0, 0))
  {
    assert IsLeapYear(2024) && !IsLeapYear(2025);
    assert IsLeapYear(2000) && !IsLeapYear(1900);
  }
}
