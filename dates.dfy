/** The date-of-birth field's wire format: `DateField(format="%Y-%m-%d",
    input_formats=["%Y-%m-%d"])`, i.e. Python's `strptime` and `strftime` with
    `%Y-%m-%d`. */
module Dates {
  import opened Wrappers
  import opened Decimal

  datatype Date = Date(year: nat, month: nat, day: nat)

  predicate IsLeap(y: nat) {
    y % 4 == 0 && (y % 100 != 0 || y % 400 == 0)
  }

  function DaysIn(y: nat, m: nat): nat
    requires 1 <= m <= 12
  {
    if m == 2 then (if IsLeap(y) then 29 else 28)
    else if m == 4 || m == 6 || m == 9 || m == 11 then 30
    else 31
  }

  /** A date Python's `datetime.date` accepts with a four-digit year. */
  predicate ValidDate(d: Date) {
    1 <= d.year <= 9999 && 1 <= d.month <= 12 && 1 <= d.day <= DaysIn(d.year, d.month)
  }

  /** The values of `datetime.date`. */
  type CalendarDate = d: Date | ValidDate(d) witness Date(1, 1, 1)

  function Pad2(n: nat): (s: string)
    requires n < 100
    ensures |s| == 2 && AllDigits(s)
  {
    [DigitChar(n / 10), DigitChar(n % 10)]
  }

  /** `strftime("%Y-%m-%d")`, with the year zero-padded to four digits. */
  function Format(d: Date): (s: string)
    requires ValidDate(d)
    ensures |s| == 10 && s[4] == '-' && s[7] == '-'
  {
    Pad2(d.year / 100) + Pad2(d.year % 100) + "-" + Pad2(d.month) + "-" + Pad2(d.day)
  }

  /** `%m`, that is `1[0-2]|0[1-9]|[1-9]`, matched against the whole month text. */
  function MonthValue(t: string): (r: Option<nat>)
    ensures r.Some? ==> 1 <= |t| <= 2 && AllDigits(t) && r.value == DigitsValue(t)
    ensures r.Some? ==> 1 <= r.value <= 12
    ensures 1 <= |t| <= 2 && AllDigits(t) && 1 <= DigitsValue(t) <= 12 ==> r == Some(DigitsValue(t))
  {
    ShortDigitsValue(t);
    if |t| == 1 && '1' <= t[0] <= '9' then Some(DigitsValue(t))
    else if |t| == 2 && t[0] == '0' && '1' <= t[1] <= '9' then Some(DigitsValue(t))
    else if |t| == 2 && t[0] == '1' && '0' <= t[1] <= '2' then Some(DigitsValue(t))
    else None
  }

  /** `%d`, that is `3[01]|[12]\d|0[1-9]|[1-9]| [1-9]`, matched against the whole day
      text. */
  function DayValue(t: string): (r: Option<nat>)
    ensures r.Some? ==> |t| == 1 || |t| == 2
    ensures r.Some? ==> var digits := if t[0] == ' ' then t[1..] else t;
      AllDigits(digits) && r.value == DigitsValue(digits)
    ensures r.Some? ==> 1 <= r.value <= 31
    ensures 1 <= |t| <= 2 && AllDigits(t) && 1 <= DigitsValue(t) <= 31 ==> r == Some(DigitsValue(t))
    ensures |t| == 2 && t[0] == ' ' && '1' <= t[1] <= '9' ==> r == Some(DigitsValue(t[1..]))
  {
    ShortDigitsValue(t);
    ShortDigitsValue(if t == [] then t else t[1..]);
    if |t| == 1 && '1' <= t[0] <= '9' then Some(DigitsValue(t))
    else if |t| == 2 && t[0] == ' ' && '1' <= t[1] <= '9' then Some(DigitsValue(t[1..]))
    else if |t| == 2 && t[0] == '0' && '1' <= t[1] <= '9' then Some(DigitsValue(t))
    else if |t| == 2 && (t[0] == '1' || t[0] == '2') && IsDigit(t[1]) then Some(DigitsValue(t))
    else if |t| == 2 && t[0] == '3' && (t[1] == '0' || t[1] == '1') then Some(DigitsValue(t))
    else None
  }

  /** The date whose year, month and day are written by `y`, `m` and `d`, if there is
      one. */
  function FromParts(y: string, m: string, d: string): (r: Option<Date>)
    requires AllDigits(y)
    ensures r.Some? ==> ValidDate(r.value) && r.value.year == DigitsValue(y)
    ensures r.Some? ==> MonthValue(m) == Some(r.value.month) && DayValue(d) == Some(r.value.day)
    ensures (&& MonthValue(m).Some? && DayValue(d).Some?
             && ValidDate(Date(DigitsValue(y), MonthValue(m).value, DayValue(d).value))) ==> r.Some?
  {
    var month := MonthValue(m);
    var day := DayValue(d);
    if month.None? || day.None? then None
    else
      var date := Date(DigitsValue(y), month.value, day.value);
      if ValidDate(date) then Some(date) else None
  }

  /** `datetime.strptime(s, "%Y-%m-%d").date()`: four digits, `-`, a month, `-`, a
      day, and nothing else; `None` where Python raises `ValueError`. */
  function Parse(s: string): (r: Option<Date>)
    ensures r.Some? ==> ValidDate(r.value) && |s| >= 8 && s[4] == '-' && AllDigits(s[..4])
    ensures r.Some? ==> r.value.year == DigitsValue(s[..4])
    ensures r.Some? ==> var k := if s[6] == '-' then 6 else 7;
      s[k] == '-' && MonthValue(s[5..k]) == Some(r.value.month)
      && DayValue(s[k + 1..]) == Some(r.value.day)
  {
    if |s| < 8 || s[4] != '-' || !AllDigits(s[..4]) then None
    else if s[6] == '-' then FromParts(s[..4], s[5..6], s[7..])
    else if |s| >= 9 && s[7] == '-' then FromParts(s[..4], s[5..7], s[8..])
    else None
  }

  lemma Pad2Value(n: nat)
    requires n < 100
    ensures DigitsValue(Pad2(n)) == n
  {
    var s := Pad2(n);
    assert s[..1] == [DigitChar(n / 10)];
    assert DigitsValue(s[..1]) == n / 10 by {
      assert s[..1][..0] == [];
    }
  }

  lemma YearValue(y: nat)
    requires y <= 9999
    ensures DigitsValue(Pad2(y / 100) + Pad2(y % 100)) == y
  {
    var a, b := Pad2(y / 100), Pad2(y % 100);
    var s := a + b;
    Pad2Value(y / 100);
    Pad2Value(y % 100);
    assert s[..3][..2] == a;
    assert s[..3] == a + [b[0]];
    assert s[..|s| - 1] == s[..3];
    assert DigitsValue(s[..3]) == DigitsValue(a) * 10 + (b[0] as int - '0' as int);
    assert DigitsValue(b) == DigitsValue(b[..1]) * 10 + (b[1] as int - '0' as int);
    assert b[..1][..0] == [];
  }

  /** Text laid out as `%Y-%m-%d`, with a month of one or two digits, is split at its
      dashes, so it is accepted exactly when its parts form a date. */
  lemma ParseLayout(y: string, m: string, d: string)
    requires |y| == 4 && AllDigits(y) && 1 <= |m| <= 2 && AllDigits(m)
    ensures Parse(y + "-" + m + "-" + d) == FromParts(y, m, d)
  {
    var s := y + "-" + m + "-" + d;
    assert s[..4] == y;
    if |m| == 1 {
      assert s[5..6] == m && s[6] == '-' && s[7..] == d;
    } else {
      assert s[5..7] == m && s[6] == m[1] && s[7] == '-' && s[8..] == d;
    }
  }

  /** A date written by the serializer is read back as the same date. */
  lemma ParseFormat(d: Date)
    requires ValidDate(d)
    ensures Parse(Format(d)) == Some(d)
  {
    var y := Pad2(d.year / 100) + Pad2(d.year % 100);
    assert AllDigits(y) by {
      forall i | 0 <= i < 4 ensures IsDigit(y[i]) {
        if i >= 2 {
          assert y[i] == Pad2(d.year % 100)[i - 2];
        }
      }
    }
    assert Format(d) == y + "-" + Pad2(d.month) + "-" + Pad2(d.day);
    ParseLayout(y, Pad2(d.month), Pad2(d.day));
    YearValue(d.year);
    MonthRoundTrip(d.month);
    DayRoundTrip(d.day);
  }

  /** A month written with `%m` is read back by `%m`. */
  lemma MonthRoundTrip(m: nat)
    requires 1 <= m <= 12
    ensures MonthValue(Pad2(m)) == Some(m)
  {
    Pad2Value(m);
  }

  /** A day written with `%d` is read back by `%d`. */
  lemma DayRoundTrip(d: nat)
    requires 1 <= d <= 31
    ensures DayValue(Pad2(d)) == Some(d)
  {
    Pad2Value(d);
  }
}
