/** Decimal text of integers: Python's `str(n)` on a natural number and `int(s)` on
    text drawn from the chat-route alphabet `[0-9a-f-]`. */
module Decimal {
  import opened Wrappers

  predicate IsDigit(c: char) {
    '0' <= c <= '9'
  }

  predicate AllDigits(s: string) {
    forall i :: 0 <= i < |s| ==> IsDigit(s[i])
  }

  function DigitChar(d: nat): (c: char)
    requires d < 10
    ensures IsDigit(c) && (c as int) - ('0' as int) == d
  {
    (('0' as int) + d) as char
  }

  /** `str(n)`. */
  function Show(n: nat): (s: string)
    ensures |s| > 0 && AllDigits(s)
  {
    if n < 10 then [DigitChar(n)] else Show(n / 10) + [DigitChar(n % 10)]
  }

  /** The value of a run of decimal digits. */
  function DigitsValue(s: string): nat
    requires AllDigits(s)
  {
    if s == [] then 0
    else DigitsValue(s[..|s| - 1]) * 10 + ((s[|s| - 1] as int) - ('0' as int))
  }

  /** The value of one or two digits, written out. */
  lemma ShortDigitsValue(s: string)
    ensures |s| == 1 && AllDigits(s) ==> DigitsValue(s) == (s[0] as int) - ('0' as int)
    ensures |s| == 2 && AllDigits(s) ==>
      DigitsValue(s) == ((s[0] as int) - ('0' as int)) * 10 + (s[1] as int) - ('0' as int)
  {
    if 1 <= |s| <= 2 && AllDigits(s) {
      assert s[..|s| - 1][..0] == [];
      if |s| == 2 {
        assert s[..1][..0] == [];
      }
    }
  }

  /** `int(s)` for `s` over `[0-9a-f-]`: an optional minus sign followed by at least one
      digit; anything else raises `ValueError` (here `None`). */
  function ParseInt(s: string): (r: Option<int>)
    ensures |s| > 0 && AllDigits(s) ==> r == Some(DigitsValue(s))
    ensures |s| > 1 && s[0] == '-' && AllDigits(s[1..]) ==> r == Some(-(DigitsValue(s[1..]) as int))
    ensures r.Some? ==> |s| > 0 && (s[0] == '-' || IsDigit(s[0]))
    ensures r.Some? ==> forall i :: 0 < i < |s| ==> IsDigit(s[i])
    ensures r.Some? ==> (r.value < 0 ==> s[0] == '-')
  {
    if |s| > 0 && AllDigits(s) then Some(DigitsValue(s))
    else if |s| > 1 && s[0] == '-' && AllDigits(s[1..]) then Some(0 - DigitsValue(s[1..]) as int)
    else None
  }

  lemma {:induction false} ShowValue(n: nat)
    ensures DigitsValue(Show(n)) == n
  {
    if n >= 10 {
      ShowValue(n / 10);
      var s := Show(n);
      assert s[..|s| - 1] == Show(n / 10);
    }
  }

  /** `int(str(n)) == n`: the decimal text of a primary key leads back to that key. */
  lemma ShowRoundTrip(n: nat)
    ensures ParseInt(Show(n)) == Some(n)
  {
    ShowValue(n);
  }

  /** Distinct numbers have distinct decimal texts. */
  lemma ShowInjective(m: nat, n: nat)
    ensures Show(m) == Show(n) ==> m == n
  {
    ShowRoundTrip(m);
    ShowRoundTrip(n);
  }
}
