/**
 * The `yyyy/MM/dd` text form of a date: the form the route parameters are
 * joined into before validation, and the form in which each day is sent to
 * the upstream pageviews service.
 */
module DateText {
  import opened Outcomes
  import opened Calendar

  predicate IsDigit(c: char) {
    '0' <= c <= '9'
  }

  predicate AllDigits(s: string) {
    forall i | 0 <= i < |s| :: IsDigit(s[i])
  }

  function Pow10(n: nat): (p: nat)
    ensures p >= 1
  {
    if n == 0 then 1 else 10 * Pow10(n - 1)
  }

  /** The number a string of decimal digits denotes (most significant first). */
  function Value(s: string): (v: nat)
    requires AllDigits(s)
    ensures v < Pow10(|s|)
  {
    if s == [] then 0
    else
      var high := Value(s[..|s| - 1]);
      var low := s[|s| - 1] as int - '0' as int;
      assert high * 10 + low < Pow10(|s|) by {
        assert high + 1 <= Pow10(|s| - 1);
        assert (high + 1) * 10 <= Pow10(|s|);
      }
      high * 10 + low
  }

  /** The last `w` decimal digits of `n`, most significant first. */
  function ToDigits(n: nat, w: nat): (s: string)
    ensures |s| == w && AllDigits(s)
  {
    if w == 0 then []
    else ToDigits(n / 10, w - 1) + [('0' as int + n % 10) as char]
  }

  /** Number of decimal digits `n` needs (at least one). */
  function NumDigits(n: nat): (k: nat)
    ensures k >= 1 && n < Pow10(k)
    ensures forall w: nat | n < Pow10(w) && w >= 1 :: k <= w
  {
    if n < 10 then 1
    else
      var k := 1 + NumDigits(n / 10);
      forall w: nat | n < Pow10(w) && w >= 1
        ensures k <= w
      {
        if w == 1 {
          assert false;
        } else {
          assert n / 10 < Pow10(w - 1);
        }
      }
      k
  }

  /**
   * `n` written in decimal with leading zeros up to width `w`, and wider when
   * `n` needs more digits (how a `yyyy` or `MM` field is formatted).
   */
  function Padded(n: nat, w: nat): (s: string)
    ensures AllDigits(s) && |s| >= w && Value(s) == n
    ensures n < Pow10(w) && w >= 1 ==> s == ToDigits(n, w)
  {
    var width := if NumDigits(n) > w then NumDigits(n) else w;
    Pow10Monotone(NumDigits(n), width);
    ValueOfDigits(n, width);
    ToDigits(n, width)
  }

  /**
   * Formatting `d` as `yyyy/MM/dd`. For a year below 10000 that is ten
   * characters: four, two and two digits denoting the year, the month and
   * the day, separated by slashes.
   */
  function FormatDate(d: Date): (text: string)
    requires IsCalendarDate(d) && d.year >= 0
    ensures |text| >= 10
    ensures d.year <= 9999 ==> |text| == 10 && text[4] == '/' && text[7] == '/'
    ensures d.year <= 9999 ==> AllDigits(text[..4]) && AllDigits(text[5..7]) && AllDigits(text[8..])
    ensures d.year <= 9999 ==> Value(text[..4]) == d.year && Value(text[5..7]) == d.month && Value(text[8..]) == d.day
  {
    var y, m, dd := Padded(d.year, 4), Padded(d.month, 2), Padded(d.day, 2);
    var text := y + "/" + m + "/" + dd;
    assert Pow10(2) == 100 && Pow10(4) == 10000;
    assert d.year <= 9999 ==> text[..4] == y && text[5..7] == m && text[8..] == dd;
    text
  }

  /**
   * Validation of the joined route parameters against the `yyyy/MM/dd`
   * pattern: four, two and two digits separated by slashes, naming a real
   * calendar date of a year from 1 on. Anything else is `None`.
   */
  function ParseDate(text: string): (r: Option<Date>)
    ensures r.Some? ==> IsCalendarDate(r.value) && 1 <= r.value.year <= 9999
    ensures r.Some? ==> FormatDate(r.value) == text
  {
    if |text| == 10 && text[4] == '/' && text[7] == '/'
      && AllDigits(text[..4]) && AllDigits(text[5..7]) && AllDigits(text[8..])
    then
      var d := Date(Value(text[..4]), Value(text[5..7]), Value(text[8..]));
      if 1 <= d.year && IsCalendarDate(d) then
        FieldsReadBack(text);
        Some(d)
      else None
    else None
  }

  /** A well-shaped text naming a calendar date is that date's own text. */
  lemma FieldsReadBack(text: string)
    requires |text| == 10 && text[4] == '/' && text[7] == '/'
    requires AllDigits(text[..4]) && AllDigits(text[5..7]) && AllDigits(text[8..])
    requires IsCalendarDate(Date(Value(text[..4]), Value(text[5..7]), Value(text[8..])))
    ensures Value(text[..4]) <= 9999
    ensures FormatDate(Date(Value(text[..4]), Value(text[5..7]), Value(text[8..]))) == text
  {
    PaddedReadBack(text[..4]);
    PaddedReadBack(text[5..7]);
    PaddedReadBack(text[8..]);
    assert Pow10(4) == 10000;
    assert text == text[..4] + "/" + text[5..7] + "/" + text[8..];
  }

  /** A non-empty digit string is the padding of its own value to its own width. */
  lemma PaddedReadBack(s: string)
    requires AllDigits(s) && |s| >= 1
    ensures Padded(Value(s), |s|) == s
  {
    DigitsOfValue(s);
  }

  lemma {:induction false} Pow10Monotone(a: nat, b: nat)
    requires a <= b
    ensures Pow10(a) <= Pow10(b)
    decreases b
  {
    if a < b {
      Pow10Monotone(a, b - 1);
    }
  }

  lemma {:induction false} ValueOfDigits(n: nat, w: nat)
    requires n < Pow10(w)
    ensures Value(ToDigits(n, w)) == n
  {
    if w > 0 {
      var s := ToDigits(n, w);
      assert s[..w - 1] == ToDigits(n / 10, w - 1);
      assert s[w - 1] as int - '0' as int == n % 10;
      assert n / 10 < Pow10(w - 1);
      ValueOfDigits(n / 10, w - 1);
      assert Value(s) == Value(s[..w - 1]) * 10 + n % 10;
    }
  }

  lemma {:induction false} DigitsOfValue(s: string)
    requires AllDigits(s)
    ensures ToDigits(Value(s), |s|) == s
  {
    if s != [] {
      var init := s[..|s| - 1];
      DigitsOfValue(init);
      assert s == init + [s[|s| - 1]];
    }
  }

  /** Every date of a four-digit year is accepted back from its own text. */
  lemma ParseFormatted(d: Date)
    requires IsCalendarDate(d) && 1 <= d.year <= 9999
    ensures ParseDate(FormatDate(d)) == Some(d)
  {
    var text := FormatDate(d);
    var y, m, dd := Padded(d.year, 4), Padded(d.month, 2), Padded(d.day, 2);
    assert |y| == 4 && |m| == 2 && |dd| == 2;
    assert text[..4] == y && text[5..7] == m && text[8..] == dd;
  }
}
