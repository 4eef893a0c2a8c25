/** Formatting a recording's duration as `hh:mm:ss`. */
module TimeFormat {
  import opened Wrappers
  import opened Strs

  /** Java's integer division, which truncates toward zero: the quotient
      times the divisor falls short of the dividend by less than the divisor,
      on the dividend's side of zero. */
  function JavaDiv(a: int, b: int): (q: int)
    requires b > 0
    ensures a >= 0 ==> q >= 0 && 0 <= a - q * b < b
    ensures a < 0 ==> q <= 0 && -b < a - q * b <= 0
  {
    if a >= 0 then a / b else -((-a) / b)
  }

  /** Java's remainder, paired with `JavaDiv`. */
  function JavaMod(a: int, b: int): (r: int)
    requires b > 0
  {
    a - JavaDiv(a, b) * b
  }

  /** Truncating division and remainder recombine to the dividend, and the
      remainder is below the divisor in size and shares the dividend's
      sign. */
  lemma {:induction false} JavaDivMod(a: int, b: int)
    requires b > 0
    ensures JavaDiv(a, b) * b + JavaMod(a, b) == a
    ensures a >= 0 ==> 0 <= JavaMod(a, b) < b && JavaDiv(a, b) >= 0
    ensures a < 0 ==> -b < JavaMod(a, b) <= 0 && JavaDiv(a, b) <= 0
  {
  }

  /** `%02d`: at least two digits, zero-padded; a negative value keeps its
      sign and is never padded. */
  function Pad2(n: int): (r: string)
    ensures 0 <= n < 100 ==> |r| == 2 && AllDigits(r) && DigitsValue(r) == n
    ensures n < 0 ==> r == IntToString(n)
    ensures ParseInt(r) == Some(n)
  {
    if 0 <= n < 10 then
      assert DigitsValue("0" + [DigitChar(n)]) == n by {
        assert ("0" + [DigitChar(n)])[..1] == "0";
        assert "0"[..0] == "";
        assert DigitsValue("0") == 0;
      }
      "0" + [DigitChar(n)]
    else
      ParseIntToString(n);
      if 10 <= n < 100 then
        NatToStringTwoDigits(n);
        NatToStringValue(n);
        IntToString(n)
      else IntToString(n)
  }

  /** Hours, minutes past the hour and seconds past the minute of a duration
      in seconds, each truncated toward zero. */
  function Fields(seconds: int): (hms: (int, int, int))
  {
    (JavaDiv(seconds, 3600), JavaMod(JavaDiv(seconds, 60), 60), JavaMod(seconds, 60))
  }

  /** The fields add back up to the duration; minutes and seconds stay below
      60 and share the duration's sign. */
  lemma {:induction false} FieldsRecombine(seconds: int)
    ensures var (h, m, s) := Fields(seconds);
      h * 3600 + m * 60 + s == seconds &&
      (seconds >= 0 ==> h >= 0 && 0 <= m < 60 && 0 <= s < 60) &&
      (seconds < 0 ==> h <= 0 && -60 < m <= 0 && -60 < s <= 0)
  {
    var mins := JavaDiv(seconds, 60);
    JavaDivMod(seconds, 60);
    JavaDivMod(mins, 60);
    JavaDivNested(seconds);
  }

  /** Dividing by 60 twice is dividing by 3600, with truncation. */
  lemma {:induction false} JavaDivNested(a: int)
    ensures JavaDiv(JavaDiv(a, 60), 60) == JavaDiv(a, 3600)
  {
    if a >= 0 {
      DivNested(a);
    } else {
      DivNested(-a);
    }
  }

  lemma {:induction false} DivNested(a: nat)
    ensures (a / 60) / 60 == a / 3600
  {
    var q, r := a / 3600, a % 3600;
    assert a == q * 3600 + r;
    var r1, r2 := r / 60, r % 60;
    assert r == r1 * 60 + r2 && r1 < 60;
    assert a == (q * 60 + r1) * 60 + r2;
    assert a / 60 == q * 60 + r1;
    assert (q * 60 + r1) / 60 == q;
  }

  /** `convertSecondsToString`: `%02d:%02d:%02d` of the fields. */
  function FormatDuration(seconds: int): (r: string)
    ensures 0 <= seconds < 360000 ==> |r| == 8 && r[2] == ':' && r[5] == ':'
  {
    var (h, m, s) := Fields(seconds);
    FieldsRecombine(seconds);
    if 0 <= seconds < 360000 then
      assert h < 100 by {
        assert JavaDiv(seconds, 3600) == seconds / 3600;
      }
      Pad2(h) + ":" + Pad2(m) + ":" + Pad2(s)
    else Pad2(h) + ":" + Pad2(m) + ":" + Pad2(s)
  }

  /** Under 100 hours the text reads back as the duration. */
  lemma {:induction false} FormatDurationReadsBack(seconds: int)
    requires 0 <= seconds < 360000
    ensures var r := FormatDuration(seconds);
      ParseInt(r[0..2]) == Some(Fields(seconds).0) &&
      ParseInt(r[3..5]) == Some(Fields(seconds).1) &&
      ParseInt(r[6..8]) == Some(Fields(seconds).2) &&
      Fields(seconds).0 * 3600 + Fields(seconds).1 * 60 + Fields(seconds).2 == seconds
  {
    var (h, m, s) := Fields(seconds);
    FieldsRecombine(seconds);
    var r := FormatDuration(seconds);
    assert h < 100 by {
      assert JavaDiv(seconds, 3600) == seconds / 3600;
    }
    assert r == Pad2(h) + ":" + Pad2(m) + ":" + Pad2(s);
    assert r[0..2] == Pad2(h);
    assert r[3..5] == Pad2(m);
    assert r[6..8] == Pad2(s);
  }
}
