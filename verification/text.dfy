/** The string operations the Python and JavaScript sources use, on `string`
    (a sequence of Unicode scalar values): substring search (`in`,
    `includes`), single-character `split`, Python's `str.strip()`, ASCII
    upper-casing and decimal rendering of integers. */
module Text {

  import opened Wrappers

  // ---------------------------------------------------------------------
  // Substring search
  // ---------------------------------------------------------------------

  /** `sub` occurs in `s` starting at index `i`. */
  ghost predicate OccursAt(s: string, sub: string, i: int)
  {
    0 <= i && i + |sub| <= |s| && s[i..i + |sub|] == sub
  }

  /** Python `sub in s`, JavaScript `s.includes(sub)`: scans from the left. */
  function Contains(s: string, sub: string): bool
    decreases |s|
  {
    if |s| < |sub| then false
    else if s[..|sub|] == sub then true
    else Contains(s[1..], sub)
  }

  /** The scan finds `sub` exactly when it occurs somewhere in `s`. */
  lemma {:induction false} ContainsIffOccurs(s: string, sub: string)
    ensures Contains(s, sub) <==> exists i :: OccursAt(s, sub, i)
    decreases |s|
  {
    if |s| < |sub| {
    } else if s[..|sub|] == sub {
      assert OccursAt(s, sub, 0);
    } else {
      ContainsIffOccurs(s[1..], sub);
      if Contains(s[1..], sub) {
        var j :| OccursAt(s[1..], sub, j);
        OccursShift(s, sub, j);
      } else {
        forall i ensures !OccursAt(s, sub, i) {
          if i == 0 {
            assert s[0..|sub|] == s[..|sub|];
          } else if i > 0 {
            OccursShift(s, sub, i - 1);
          }
        }
      }
    }
  }

  /** Occurrences in the tail of `s` are occurrences in `s`, one further on. */
  lemma OccursShift(s: string, sub: string, i: int)
    requires |s| > 0 && i >= 0
    ensures OccursAt(s[1..], sub, i) <==> OccursAt(s, sub, i + 1)
  {
    if 0 <= i && i + |sub| <= |s| - 1 {
      assert s[1..][i..i + |sub|] == s[i + 1..i + 1 + |sub|];
    }
  }

  /** A witness occurrence is enough to show `Contains`. */
  lemma ContainsAt(s: string, sub: string, i: int)
    requires OccursAt(s, sub, i)
    ensures Contains(s, sub)
  {
    ContainsIffOccurs(s, sub);
  }

  /** A non-empty `sub` whose first character never appears in `s` is not
      contained in `s`. */
  lemma NotContainsWithoutFirstChar(s: string, sub: string)
    requires |sub| > 0 && sub[0] !in s
    ensures !Contains(s, sub)
  {
    ContainsIffOccurs(s, sub);
    forall i ensures !OccursAt(s, sub, i) {
      if 0 <= i && i + |sub| <= |s| {
        assert s[i..i + |sub|][0] == s[i];
      }
    }
  }

  // ---------------------------------------------------------------------
  // Single-character split
  // ---------------------------------------------------------------------

  /** `s.split(sep)[0]` in Python and JavaScript alike: the longest prefix of
      `s` free of `sep`. */
  function FirstField(s: string, sep: char): (r: string)
    ensures |r| <= |s| && r == s[..|r|]
    ensures sep !in r
    ensures |r| < |s| ==> s[|r|] == sep
    decreases |s|
  {
    if |s| == 0 || s[0] == sep then "" else [s[0]] + FirstField(s[1..], sep)
  }

  /** Python `s.split(sep)[-1]`: the longest suffix of `s` free of `sep`. */
  function LastField(s: string, sep: char): (r: string)
    ensures |r| <= |s| && r == s[|s| - |r|..]
    ensures sep !in r
    ensures |r| < |s| ==> s[|s| - |r| - 1] == sep
    decreases |s|
  {
    if |s| == 0 || s[|s| - 1] == sep then ""
    else LastField(s[..|s| - 1], sep) + [s[|s| - 1]]
  }

  /** JavaScript `s.split(sep)[1]`: the second field, or `undefined` (here
      `None`) when `sep` does not occur. */
  function SecondField(s: string, sep: char): (r: Option<string>)
    ensures r.Some? <==> sep in s
    ensures r.Some? ==> s[..|FirstField(s, sep)| + 1] == FirstField(s, sep) + [sep]
    ensures r.Some? ==> sep !in r.value
    ensures r.Some? ==>
      var k := |FirstField(s, sep)| + 1;
      && k + |r.value| <= |s| && s[k..k + |r.value|] == r.value
      && (k + |r.value| < |s| ==> s[k + |r.value|] == sep)
  {
    var first := FirstField(s, sep);
    if |first| == |s| then
      assert first == s;
      None
    else
      Some(FirstField(s[|first| + 1..], sep))
  }

  /** Splitting `a + [sep] + b` with a separator-free `a` yields `a` first. */
  lemma {:induction false} FirstFieldOfJoin(a: string, sep: char, b: string)
    requires sep !in a
    ensures FirstField(a + [sep] + b, sep) == a
    decreases |a|
  {
    var s := a + [sep] + b;
    if |a| > 0 {
      assert s[0] == a[0];
      assert s[1..] == a[1..] + [sep] + b;
      FirstFieldOfJoin(a[1..], sep, b);
      assert [a[0]] + a[1..] == a;
    }
  }

  /** Splitting `a + [sep] + b` with separator-free `a` and `b` yields `b`
      second. */
  lemma SecondFieldOfJoin(a: string, sep: char, b: string)
    requires sep !in a && sep !in b
    ensures SecondField(a + [sep] + b, sep) == Some(b)
  {
    var s := a + [sep] + b;
    FirstFieldOfJoin(a, sep, b);
    assert s[|a| + 1..] == b;
    FirstFieldWithoutSep(b, sep);
  }

  /** A separator-free string is its own first field. */
  lemma {:induction false} FirstFieldWithoutSep(s: string, sep: char)
    requires sep !in s
    ensures FirstField(s, sep) == s
    decreases |s|
  {
    if |s| > 0 {
      FirstFieldWithoutSep(s[1..], sep);
      assert [s[0]] + s[1..] == s;
    }
  }

  /** The text after the last `sep` of `a + [sep] + b` is `b` when `b` is
      separator-free. */
  lemma {:induction false} LastFieldOfJoin(a: string, sep: char, b: string)
    requires sep !in b
    ensures LastField(a + [sep] + b, sep) == b
    decreases |b|
  {
    var s := a + [sep] + b;
    if |b| > 0 {
      var b' := b[..|b| - 1];
      assert s[|s| - 1] == b[|b| - 1];
      assert s[..|s| - 1] == a + [sep] + b';
      LastFieldOfJoin(a, sep, b');
      assert b' + [b[|b| - 1]] == b;
    }
  }

  // ---------------------------------------------------------------------
  // Whitespace stripping
  // ---------------------------------------------------------------------

  /** Python's `str.isspace()` for one character. */
  predicate IsSpace(c: char)
  {
    || ('\t' <= c <= '\r')
    || ('\U{1C}' <= c <= ' ')
    || c == '\U{85}' || c == '\U{A0}' || c == '\U{1680}'
    || ('\U{2000}' <= c <= '\U{200A}')
    || c == '\U{2028}' || c == '\U{2029}' || c == '\U{202F}'
    || c == '\U{205F}' || c == '\U{3000}'
  }

  /** Drops leading whitespace. */
  function TrimStart(s: string): (r: string)
    ensures |r| <= |s| && r == s[|s| - |r|..]
    ensures forall i :: 0 <= i < |s| - |r| ==> IsSpace(s[i])
    ensures |r| > 0 ==> !IsSpace(r[0])
    decreases |s|
  {
    if |s| > 0 && IsSpace(s[0]) then TrimStart(s[1..]) else s
  }

  /** Drops trailing whitespace. */
  function TrimEnd(s: string): (r: string)
    ensures |r| <= |s| && r == s[..|r|]
    ensures forall i :: |r| <= i < |s| ==> IsSpace(s[i])
    ensures |r| > 0 ==> !IsSpace(r[|r| - 1])
    decreases |s|
  {
    if |s| > 0 && IsSpace(s[|s| - 1]) then TrimEnd(s[..|s| - 1]) else s
  }

  /** `r` is `s[i..]` cut short so that only whitespace surrounds it in `s`. */
  ghost predicate StrippedAt(s: string, r: string, i: int)
  {
    && 0 <= i && i + |r| <= |s| && r == s[i..i + |r|]
    && (forall k :: 0 <= k < i ==> IsSpace(s[k]))
    && (forall k :: i + |r| <= k < |s| ==> IsSpace(s[k]))
  }

  /** Python `s.strip()`. */
  function Strip(s: string): (r: string)
    ensures exists i :: StrippedAt(s, r, i)
    ensures |r| > 0 ==> !IsSpace(r[0]) && !IsSpace(r[|r| - 1])
  {
    var t := TrimStart(s);
    var r := TrimEnd(t);
    assert StrippedAt(s, r, |s| - |t|) by {
      forall k | |s| - |t| + |r| <= k < |s| ensures IsSpace(s[k]) {
        assert s[k] == t[k - (|s| - |t|)];
      }
    }
    r
  }

  /** One leading blank is removed by `Strip`. */
  lemma StripLeadingBlank(s: string)
    requires |s| > 0 && !IsSpace(s[0]) && !IsSpace(s[|s| - 1])
    ensures Strip(" " + s) == s
  {
    assert (" " + s)[1..] == s;
  }

  // ---------------------------------------------------------------------
  // Case
  // ---------------------------------------------------------------------

  /** An ASCII lower-case letter. */
  predicate IsLower(c: char) { 'a' <= c <= 'z' }

  /** Upper-cases the ASCII letters `a`..`z` and keeps every other character. */
  function AsciiUpper(s: string): (r: string)
    ensures |r| == |s|
    ensures forall i :: 0 <= i < |s| && IsLower(s[i]) ==>
      'A' <= r[i] <= 'Z' && r[i] as int - 'A' as int == s[i] as int - 'a' as int
    ensures forall i :: 0 <= i < |s| && !IsLower(s[i]) ==> r[i] == s[i]
    ensures forall i :: 0 <= i < |r| ==> !IsLower(r[i])
  {
    seq(|s|, i requires 0 <= i < |s| =>
      if 'a' <= s[i] <= 'z' then (s[i] as int - 32) as char else s[i])
  }

  /** Upper-casing twice is upper-casing once. */
  lemma AsciiUpperIdempotent(s: string)
    ensures AsciiUpper(AsciiUpper(s)) == AsciiUpper(s)
  {
    var u := AsciiUpper(s);
    forall i | 0 <= i < |u|
      ensures AsciiUpper(u)[i] == u[i]
    {
      assert !IsLower(u[i]);
    }
  }

  /** A string is left alone by upper-casing exactly when it holds no
      lower-case letter. */
  lemma AsciiUpperFixed(s: string)
    ensures AsciiUpper(s) == s <==> forall i :: 0 <= i < |s| ==> !IsLower(s[i])
  {
    if forall i :: 0 <= i < |s| ==> !IsLower(s[i]) {
      forall i | 0 <= i < |s|
        ensures AsciiUpper(s)[i] == s[i]
      {
        assert !IsLower(s[i]);
      }
    } else {
      var i :| 0 <= i < |s| && IsLower(s[i]);
      assert !IsLower(AsciiUpper(s)[i]);
    }
  }

  // ---------------------------------------------------------------------
  // Decimal integers
  // ---------------------------------------------------------------------

  predicate IsDigit(c: char)
  {
    '0' <= c <= '9'
  }

  /** The digits of `n`, most significant first, without leading zeros. */
  function NatToDecimal(n: nat): (r: string)
    ensures |r| > 0
    ensures forall i :: 0 <= i < |r| ==> IsDigit(r[i])
    ensures |r| > 1 ==> r[0] != '0'
    decreases n
  {
    if n < 10 then ["0123456789"[n]]
    else NatToDecimal(n / 10) + ["0123456789"[n % 10]]
  }

  /** How JavaScript renders an integral Number in a template literal. */
  function IntToDecimal(n: int): (r: string)
    ensures |r| > 0
    ensures r[0] == '-' <==> n < 0
  {
    if n < 0 then "-" + NatToDecimal(-n) else NatToDecimal(n)
  }

  /** Reads a string of digits back as a number. */
  function DecimalValue(s: string): (r: nat)
    requires forall i :: 0 <= i < |s| ==> IsDigit(s[i])
    decreases |s|
  {
    if |s| == 0 then 0
    else
      assert IsDigit(s[|s| - 1]);
      DecimalValue(s[..|s| - 1]) * 10 + (s[|s| - 1] as int - '0' as int)
  }

  /** Rendering a natural number and reading it back gives the number. */
  lemma {:induction false} DecimalRoundTrip(n: nat)
    ensures DecimalValue(NatToDecimal(n)) == n
    decreases n
  {
    if n >= 10 {
      var r := NatToDecimal(n);
      assert r[..|r| - 1] == NatToDecimal(n / 10);
      DecimalRoundTrip(n / 10);
    }
  }
}
