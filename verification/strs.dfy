/** String helpers with the meaning of the Python and Kotlin string
    operations the sources use: `split`, `join`, `replace` of one character,
    decimal formatting and parsing. */
module Strs {
  import opened Wrappers

  /** `sep.join(parts)` / `parts.joinToString(sep)`. */
  function Join(parts: seq<string>, sep: string): (r: string)
    ensures |parts| == 1 ==> r == parts[0]
    ensures |parts| == 0 ==> r == ""
  {
    if |parts| == 0 then ""
    else if |parts| == 1 then parts[0]
    else parts[0] + sep + Join(parts[1..], sep)
  }

  /** Python's `s.split(c)` and Kotlin's `s.split(c)`: the maximal pieces
      between occurrences of `c`; never empty, `n` separators give `n + 1`
      pieces. */
  function Split(s: string, c: char): (r: seq<string>)
    ensures |r| >= 1
    ensures c in s ==> |r| >= 2
    ensures forall i :: 0 <= i < |r| ==> c !in r[i]
    decreases |s|
  {
    if |s| == 0 then [""]
    else
      var rest := Split(s[1..], c);
      if s[0] == c then [""] + rest
      else
        var head := [s[0]] + rest[0];
        if |rest| == 1 then [head]
        else
          assert ([head] + rest[1..])[1..] == rest[1..];
          [head] + rest[1..]
  }

  /** Joining the pieces with the separator gives the string back. */
  lemma {:induction false} JoinSplit(s: string, c: char)
    ensures Join(Split(s, c), [c]) == s
    decreases |s|
  {
    if |s| > 0 {
      var rest := Split(s[1..], c);
      assert Join(rest, [c]) == s[1..] by {
        JoinSplit(s[1..], c);
      }
      assert s == [s[0]] + s[1..];
      if s[0] == c {
        JoinCons("", rest, [c]);
      } else if |rest| > 1 {
        JoinCons([s[0]] + rest[0], rest[1..], [c]);
        JoinCons(rest[0], rest[1..], [c]);
        assert rest == [rest[0]] + rest[1..];
      }
    }
  }

  /** Splitting undoes joining when no piece contains the separator. */
  lemma {:induction false} SplitJoin(parts: seq<string>, c: char)
    requires |parts| >= 1
    requires forall i :: 0 <= i < |parts| ==> c !in parts[i]
    ensures Split(Join(parts, [c]), c) == parts
    decreases |parts|
  {
    if |parts| == 1 {
      SplitPiece(parts[0], c);
    } else {
      var more := Join(parts[1..], [c]);
      assert Join(parts, [c]) == parts[0] + [c] + more;
      assert Split(more, c) == parts[1..] by {
        SplitJoin(parts[1..], c);
      }
      SplitAfterPiece(parts[0], c, more);
      assert parts == [parts[0]] + parts[1..];
    }
  }

  /** Text without the separator is a single piece. */
  lemma {:induction false} SplitPiece(p: string, c: char)
    requires c !in p
    ensures Split(p, c) == [p]
    decreases |p|
  {
    if |p| > 0 {
      assert c !in p[1..] by {
        assert forall x :: x in p[1..] ==> x in p;
      }
      SplitPiece(p[1..], c);
      assert p[0] in p;
      assert [p[0]] + p[1..] == p;
    }
  }

  /** A piece without the separator, the separator and more text split into
      that piece followed by the split of the rest. */
  lemma {:induction false} SplitAfterPiece(p: string, c: char, s: string)
    requires c !in p
    ensures Split(p + [c] + s, c) == [p] + Split(s, c)
    decreases |p|
  {
    var x := p + [c] + s;
    if |p| == 0 {
      assert x == [c] + s;
      assert x[0] == c && x[1..] == s;
    } else {
      assert c !in p[1..] by {
        assert forall y :: y in p[1..] ==> y in p;
      }
      assert x[0] == p[0] && x[1..] == p[1..] + [c] + s;
      var rest := Split(x[1..], c);
      assert rest == [p[1..]] + Split(s, c) by {
        SplitAfterPiece(p[1..], c, s);
      }
      assert p[0] in p;
      assert [p[0]] + p[1..] == p;
      assert rest[1..] == Split(s, c);
    }
  }

  /** Python's `s.replace(a, b)` and Kotlin's `s.replace(a, b)` for a
      one-character pattern `a`. */
  function ReplaceChar(s: string, a: char, b: string): (r: string)
    ensures |b| == 1 ==> |r| == |s|
    ensures |b| == 1 ==> forall i :: 0 <= i < |s| ==> r[i] == if s[i] == a then b[0] else s[i]
    ensures a !in s ==> r == s
    ensures b == "" ==> a !in r && |r| <= |s|
    decreases |s|
  {
    if |s| == 0 then ""
    else (if s[0] == a then b else [s[0]]) + ReplaceChar(s[1..], a, b)
  }

  /** Replacing a character by a one-character string is splitting on it and
      joining with the replacement. */
  lemma {:induction false} ReplaceCharIsSplitJoin(s: string, a: char, b: char)
    ensures ReplaceChar(s, a, [b]) == Join(Split(s, a), [b])
    decreases |s|
  {
    if |s| > 0 {
      var rest := Split(s[1..], a);
      var tail := ReplaceChar(s[1..], a, [b]);
      assert tail == Join(rest, [b]) by {
        ReplaceCharIsSplitJoin(s[1..], a, b);
      }
      assert ReplaceChar(s, a, [b]) == (if s[0] == a then [b] else [s[0]]) + tail;
      assert Join(Split(s, a), [b]) == (if s[0] == a then [b] else [s[0]]) + Join(rest, [b]) by {
        SplitJoinStep(s, a, b);
      }
    }
  }

  /** Joining the split of a non-empty string puts its first character, or
      the replacement for a separator, in front of the joined split of the
      rest. */
  lemma {:induction false} SplitJoinStep(s: string, a: char, b: char)
    requires |s| > 0
    ensures Join(Split(s, a), [b]) == (if s[0] == a then [b] else [s[0]]) + Join(Split(s[1..], a), [b])
  {
    var rest := Split(s[1..], a);
    if s[0] == a {
      assert Split(s, a) == [""] + rest;
      JoinCons("", rest, [b]);
    } else if |rest| == 1 {
      assert Split(s, a) == [[s[0]] + rest[0]];
    } else {
      SplitJoinLonger(s, a, b);
    }
  }

  lemma {:induction false} SplitJoinLonger(s: string, a: char, b: char)
    requires |s| > 0 && s[0] != a && |Split(s[1..], a)| > 1
    ensures Join(Split(s, a), [b]) == [s[0]] + Join(Split(s[1..], a), [b])
  {
    var rest := Split(s[1..], a);
    var head := [s[0]] + rest[0];
    var more := Join(rest[1..], [b]);
    assert Split(s, a) == [head] + rest[1..];
    assert Join([head] + rest[1..], [b]) == head + [b] + more by {
      JoinCons(head, rest[1..], [b]);
    }
    assert Join(rest, [b]) == rest[0] + [b] + more by {
      JoinCons(rest[0], rest[1..], [b]);
      assert rest == [rest[0]] + rest[1..];
    }
  }

  /** A piece in front of at least one other is joined with a separator. */
  lemma {:induction false} JoinCons(p: string, rest: seq<string>, sep: string)
    requires |rest| >= 1
    ensures Join([p] + rest, sep) == p + sep + Join(rest, sep)
  {
    assert ([p] + rest)[1..] == rest;
  }

  function DigitChar(d: nat): (c: char)
    requires d < 10
    ensures '0' <= c <= '9'
  {
    ('0' as int + d) as char
  }

  predicate IsDigit(c: char) {
    '0' <= c <= '9'
  }

  predicate AllDigits(s: string) {
    forall i :: 0 <= i < |s| ==> IsDigit(s[i])
  }

  /** Decimal rendering of a natural number, without leading zeros. */
  function NatToString(n: nat): (r: string)
    ensures |r| >= 1 && AllDigits(r)
    ensures (|r| > 1 ==> r[0] != '0')
    ensures |r| == 1 <==> n < 10
    decreases n
  {
    if n < 10 then [DigitChar(n)]
    else NatToString(n / 10) + [DigitChar(n % 10)]
  }

  /** The number a string of decimal digits denotes. */
  function DigitsValue(s: string): nat
    requires AllDigits(s)
    decreases |s|
  {
    if |s| == 0 then 0
    else DigitsValue(s[..|s| - 1]) * 10 + (s[|s| - 1] as int - '0' as int)
  }

  lemma {:induction false} NatToStringValue(n: nat)
    ensures DigitsValue(NatToString(n)) == n
    decreases n
  {
    if n >= 10 {
      NatToStringValue(n / 10);
      var r := NatToString(n);
      assert r[..|r| - 1] == NatToString(n / 10);
    }
  }

  /** `NatToString(n)` has two characters exactly for two-digit numbers. */
  lemma {:induction false} NatToStringTwoDigits(n: nat)
    requires 10 <= n < 100
    ensures |NatToString(n)| == 2
  {
  }

  /** Decimal integer syntax: an optional `+` or `-` and at least one ASCII
      digit. */
  function ParseInt(s: string): (r: Option<int>)
    ensures AllDigits(s) && |s| > 0 ==> r == Some(DigitsValue(s))
    ensures r.Some? ==> |s| > 0
  {
    if |s| > 1 && s[0] == '-' && AllDigits(s[1..]) then Some(0 - DigitsValue(s[1..]) as int)
    else if |s| > 1 && s[0] == '+' && AllDigits(s[1..]) then Some(DigitsValue(s[1..]))
    else if |s| > 0 && AllDigits(s) then Some(DigitsValue(s))
    else None
  }

  /** Rendering of an integer with an optional leading `-`. */
  function IntToString(n: int): (r: string)
    ensures n < 0 ==> r == "-" + NatToString(-n)
    ensures n >= 0 ==> r == NatToString(n)
  {
    if n < 0 then "-" + NatToString(-n) else NatToString(n)
  }

  /** Parsing reads back every rendered integer. */
  lemma {:induction false} ParseIntToString(n: int)
    ensures ParseInt(IntToString(n)) == Some(n)
  {
    if n < 0 {
      var d := NatToString(-n);
      assert DigitsValue(d) == -n by {
        NatToStringValue(-n);
      }
      assert ParseInt("-" + d) == Some(n) by {
        ParseNegative(d);
      }
    } else {
      var d := NatToString(n);
      assert DigitsValue(d) == n by {
        NatToStringValue(n);
      }
      assert ParseInt(d) == Some(n) by {
        ParseDigits(d);
      }
    }
  }

  lemma {:induction false} ParseNegative(d: string)
    requires |d| > 0 && AllDigits(d)
    ensures ParseInt("-" + d) == Some(0 - DigitsValue(d) as int)
  {
    assert ("-" + d)[1..] == d;
  }

  lemma {:induction false} ParseDigits(d: string)
    requires |d| > 0 && AllDigits(d)
    ensures ParseInt(d) == Some(DigitsValue(d) as int)
  {
  }

  /** ASCII upper-casing of one character. */
  function UpperChar(c: char): (r: char)
    ensures 'a' <= c <= 'z' ==> r as int == c as int - 32
    ensures !('a' <= c <= 'z') ==> r == c
  {
    if 'a' <= c <= 'z' then (c as int - 32) as char else c
  }

  function Upper(s: string): (r: string)
    ensures |r| == |s|
    ensures forall i :: 0 <= i < |s| ==> r[i] == UpperChar(s[i])
  {
    seq(|s|, i requires 0 <= i < |s| => UpperChar(s[i]))
  }
}
