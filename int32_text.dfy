/** Int32 text as the order form carries it: the listing prints a product
    id with Int32.ToString() into the hidden product_id field, and the
    order handler reads it back with int.Parse (NumberStyles.Integer:
    surrounding white space, an optional sign, decimal digits). */
module Int32Text {
  import opened Runtime

  const MinInt32: int := -0x8000_0000
  const MaxInt32: int := 0x7FFF_FFFF

  /** The white space NumberStyles.AllowLeadingWhite/AllowTrailingWhite skip: U+0009-U+000D and U+0020. */
  predicate IsWhite(c: char)
  {
    c == ' ' || '\t' <= c <= '\r'
  }

  predicate IsDigit(c: char)
  {
    '0' <= c <= '9'
  }

  predicate AllDigits(s: string)
  {
    forall i :: 0 <= i < |s| ==> IsDigit(s[i])
  }

  predicate AllWhite(s: string)
  {
    forall i :: 0 <= i < |s| ==> IsWhite(s[i])
  }

  /** A white first character extends a white prefix of the rest: the
      step by which TrimStart drops one more character. */
  lemma WhitePrefixGrows(s: string, r: string)
    requires s != [] && IsWhite(s[0]) && |r| < |s|
    requires r == s[1..][|s| - 1 - |r|..] && AllWhite(s[1..][..|s| - 1 - |r|])
    ensures r == s[|s| - |r|..] && AllWhite(s[..|s| - |r|])
  {
    var u := s[..|s| - |r|];
    forall m | 0 <= m < |u|
      ensures IsWhite(u[m])
    {
      if m > 0 {
        assert u[m] == s[1..][..|s| - 1 - |r|][m - 1];
      }
    }
  }

  function TrimStart(s: string): (r: string)
    ensures |r| <= |s|
    ensures r == s[|s| - |r|..]
    ensures r == [] || !IsWhite(r[0])
    ensures AllWhite(s[..|s| - |r|])
  {
    if s != [] && IsWhite(s[0]) then
      var r := TrimStart(s[1..]);
      WhitePrefixGrows(s, r);
      r
    else s
  }

  /** A white last character extends a white suffix of the rest: the
      step by which TrimEnd drops one more character. */
  lemma WhiteSuffixGrows(s: string, r: string)
    requires s != [] && IsWhite(s[|s| - 1]) && |r| < |s|
    requires r == s[..|s| - 1][..|r|] && AllWhite(s[..|s| - 1][|r|..])
    ensures r == s[..|r|] && AllWhite(s[|r|..])
  {
    var u := s[|r|..];
    forall m | 0 <= m < |u|
      ensures IsWhite(u[m])
    {
      if m < |u| - 1 {
        assert u[m] == s[..|s| - 1][|r|..][m];
      }
    }
  }

  function TrimEnd(s: string): (r: string)
    ensures |r| <= |s|
    ensures r == s[..|r|]
    ensures r == [] || !IsWhite(r[|r| - 1])
    ensures AllWhite(s[|r|..])
  {
    if s != [] && IsWhite(s[|s| - 1]) then
      var r := TrimEnd(s[..|s| - 1]);
      WhiteSuffixGrows(s, r);
      r
    else s
  }

  /** The value of a string of decimal digits, most significant first. */
  function DigitsValue(s: string): nat
    requires AllDigits(s)
  {
    if s == [] then 0 else 10 * DigitsValue(s[..|s| - 1]) + (s[|s| - 1] as int - '0' as int)
  }

  /** int.Parse(text): null throws ArgumentNullException, text that is not
      white space, an optional sign and at least one digit throws
      FormatException, a value outside the Int32 range throws
      OverflowException. */
  function ParseInt32(text: Option<string>): (r: Outcome<int>)
    ensures text.None? ==> r == Throws(ArgumentNullException)
    ensures r.Returns? ==> MinInt32 <= r.value <= MaxInt32
    ensures r.Returns? ==> text.Some? && exists i :: 0 <= i < |text.value| && IsDigit(text.value[i])
  {
    match text
    case None => Throws(ArgumentNullException)
    case Some(s) => ParseSigned(TrimEnd(TrimStart(s)))
  }

  /** int.Parse on text already stripped of surrounding white space. */
  function ParseSigned(t: string): (r: Outcome<int>)
    ensures r.Returns? ==> MinInt32 <= r.value <= MaxInt32
    ensures r.Returns? ==> exists i :: 0 <= i < |t| && IsDigit(t[i])
  {
    var negative := |t| > 0 && t[0] == '-';
    var digits := if |t| > 0 && (t[0] == '-' || t[0] == '+') then t[1..] else t;
    if digits == [] || !AllDigits(digits) then
      Throws(FormatException)
    else
      var magnitude: int := DigitsValue(digits);
      var v := if negative then -magnitude else magnitude;
      if v < MinInt32 || MaxInt32 < v then Throws(OverflowException) else Returns(v)
  }

  function DigitChar(d: int): (c: char)
    requires 0 <= d < 10
    ensures IsDigit(c)
  {
    ('0' as int + d) as char
  }

  /** The decimal digits of n, without leading zeros. */
  function Digits(n: nat): (s: string)
    ensures |s| >= 1 && AllDigits(s)
  {
    if n < 10 then [DigitChar(n)] else Digits(n / 10) + [DigitChar(n % 10)]
  }

  /** Int32.ToString() (invariant culture): a minus sign for negatives, then the digits. */
  function FormatInt(n: int): (s: string)
    ensures s != [] && (s[0] == '-' <==> n < 0)
    ensures n < 0 ==> AllDigits(s[1..])
    ensures n >= 0 ==> AllDigits(s)
  {
    if n < 0 then "-" + Digits(-n) else Digits(n)
  }

  lemma {:induction false} DigitsValueOfDigits(n: nat)
    ensures DigitsValue(Digits(n)) == n
  {
    if n >= 10 {
      var s := Digits(n);
      assert s[..|s| - 1] == Digits(n / 10);
      DigitsValueOfDigits(n / 10);
    }
  }

  /** Text that neither starts nor ends with white space is left as it is by the trimming. */
  lemma TrimUnchanged(s: string)
    requires s != [] && !IsWhite(s[0]) && !IsWhite(s[|s| - 1])
    ensures TrimEnd(TrimStart(s)) == s
  {
  }

  /** The sign and digits of n.ToString() denote n. */
  lemma SignedOfFormat(n: int)
    requires MinInt32 <= n <= MaxInt32
    ensures ParseSigned(FormatInt(n)) == Returns(n)
  {
    var s := FormatInt(n);
    var m: nat := if n < 0 then -n else n;
    DigitsValueOfDigits(m);
    if n < 0 {
      assert s[1..] == Digits(m);
    }
  }

  /** int.Parse(n.ToString()) == n for every Int32 n. */
  lemma ParseFormat(n: int)
    requires MinInt32 <= n <= MaxInt32
    ensures ParseInt32(Some(FormatInt(n))) == Returns(n)
  {
    var s := FormatInt(n);
    assert IsDigit(s[|s| - 1]) by {
      if n < 0 {
        assert s[|s| - 1] == s[1..][|s| - 2];
      }
    }
    TrimUnchanged(s);
    SignedOfFormat(n);
  }

  /** Text that starts with anything but white space, a sign or a digit is refused. */
  lemma ParseRefusesLeadingJunk(s: string)
    requires s != [] && !IsWhite(s[0]) && !IsDigit(s[0]) && s[0] != '+' && s[0] != '-'
    ensures ParseInt32(Some(s)) == Throws(FormatException)
  {
    assert TrimStart(s) == s;
    var t := TrimEnd(s);
    assert t != [] ==> t[0] == s[0];
  }

  // ---------------------------------------------------------------------
  // What int.Parse accepts, independently of how it scans

  /** s[..i] is white space, s[i..j] an optional sign, s[j..k] one or more
      digits and s[k..] white space: the layout NumberStyles.Integer admits. */
  predicate IntegerTextAt(s: string, i: int, j: int, k: int)
  {
    && 0 <= i <= j < k <= |s|
    && AllWhite(s[..i]) && AllWhite(s[k..])
    && (j == i || (j == i + 1 && (s[i] == '+' || s[i] == '-')))
    && AllDigits(s[j..k])
  }

  /** The value such a text denotes: its digits, negated after a '-'. */
  function TextValue(s: string, i: int, j: int, k: int): int
    requires IntegerTextAt(s, i, j, k)
  {
    var magnitude: int := DigitsValue(s[j..k]);
    if j == i + 1 && s[i] == '-' then -magnitude else magnitude
  }

  /** Leading white space up to a character that is not white space is what TrimStart removes. */
  lemma {:induction false} TrimStartSkips(s: string, i: nat)
    requires i <= |s| && AllWhite(s[..i]) && (i == |s| || !IsWhite(s[i]))
    ensures TrimStart(s) == s[i..]
    decreases i
  {
    if i > 0 {
      assert IsWhite(s[..i][0]);
      var u := s[1..][..i - 1];
      assert AllWhite(u) by {
        forall m | 0 <= m < |u| ensures IsWhite(u[m]) {
          assert u[m] == s[..i][m + 1];
        }
      }
      TrimStartSkips(s[1..], i - 1);
      assert s[1..][i - 1..] == s[i..];
    }
  }

  /** Trailing white space after a character that is not white space is what TrimEnd removes. */
  lemma {:induction false} TrimEndSkips(s: string, k: nat)
    requires k <= |s| && AllWhite(s[k..]) && (k == 0 || !IsWhite(s[k - 1]))
    ensures TrimEnd(s) == s[..k]
    decreases |s| - k
  {
    if k < |s| {
      assert IsWhite(s[k..][|s| - 1 - k]);
      var t := s[..|s| - 1];
      var u := t[k..];
      assert AllWhite(u) by {
        forall m | 0 <= m < |u| ensures IsWhite(u[m]) {
          assert u[m] == s[k..][m];
        }
      }
      TrimEndSkips(t, k);
      assert t[..k] == s[..k];
    }
  }

  /** Trimming the end of a suffix s[i..] stops at the last non-white character. */
  lemma TrimEndOfSuffix(s: string, i: int, k: int)
    requires 0 <= i < k <= |s|
    requires AllWhite(s[k..]) && !IsWhite(s[k - 1])
    ensures TrimEnd(s[i..]) == s[i..k]
  {
    var t := s[i..];
    assert t[k - i..] == s[k..];
    assert t[k - i - 1] == s[k - 1];
    TrimEndSkips(t, k - i);
    assert t[..k - i] == s[i..k];
  }

  /** White space around a text that neither starts nor ends with white space is trimmed off. */
  lemma TrimBoth(s: string, i: int, k: int)
    requires 0 <= i < k <= |s|
    requires AllWhite(s[..i]) && AllWhite(s[k..]) && !IsWhite(s[i]) && !IsWhite(s[k - 1])
    ensures TrimEnd(TrimStart(s)) == s[i..k]
  {
    TrimStartSkips(s, i);
    TrimEndOfSuffix(s, i, k);
  }

  /** Trimming text of that layout leaves its sign and digits. */
  lemma TrimmedLayout(s: string, i: int, j: int, k: int)
    requires IntegerTextAt(s, i, j, k)
    ensures TrimEnd(TrimStart(s)) == s[i..k]
  {
    assert IsDigit(s[j..k][0]) && IsDigit(s[j..k][k - j - 1]);
    TrimBoth(s, i, k);
  }

  /** int.Parse looks only at the text left after trimming. */
  lemma ParseOfTrimmed(s: string, c: string)
    requires TrimEnd(TrimStart(s)) == c
    ensures ParseInt32(Some(s)) == ParseSigned(c)
  {
  }

  /** What int.Parse yields for a value: the value itself within the Int32
      range, OverflowException outside it. */
  function InRange(v: int): Outcome<int>
  {
    if MinInt32 <= v <= MaxInt32 then Returns(v) else Throws(OverflowException)
  }

  /** The value of c read as a sign of n characters (0 or 1) followed by digits. */
  function NumeralValue(c: string, n: nat): int
    requires n <= |c| && AllDigits(c[n..])
  {
    var magnitude: int := DigitsValue(c[n..]);
    if n == 1 && c[0] == '-' then -magnitude else magnitude
  }

  /** An optional sign followed by one or more digits parses to its value. */
  lemma ParseSignedNumeral(c: string, n: nat)
    requires n <= 1 && n < |c| && (n == 1 ==> c[0] == '+' || c[0] == '-') && AllDigits(c[n..])
    ensures ParseSigned(c) == InRange(NumeralValue(c, n))
  {
    assert IsDigit(c[n..][0]);
  }

  /** The sign and digits of a layout, read on their own, denote its value. */
  lemma NumeralValueOfLayout(s: string, i: int, j: int, k: int)
    requires IntegerTextAt(s, i, j, k)
    ensures AllDigits(s[i..k][j - i..]) && NumeralValue(s[i..k], j - i) == TextValue(s, i, j, k)
  {
    assert s[i..k][j - i..] == s[j..k];
  }

  /** Every text of that layout parses to its value, or throws
      OverflowException when the value is outside the Int32 range:
      "+5" and " 05 " both give 5. */
  lemma ParseIntegerText(s: string, i: int, j: int, k: int)
    requires IntegerTextAt(s, i, j, k)
    ensures ParseInt32(Some(s)) == InRange(TextValue(s, i, j, k))
  {
    var c := s[i..k];
    TrimmedLayout(s, i, j, k);
    ParseOfTrimmed(s, c);
    NumeralValueOfLayout(s, i, j, k);
    ParseSignedNumeral(c, j - i);
  }

  /** Trimmed text ParseSigned does not refuse is an optional sign and at least one digit. */
  lemma SignedHasDigits(c: string) returns (j: int)
    requires ParseSigned(c) != Throws(FormatException)
    ensures 0 <= j < |c| && (j == 0 || (j == 1 && c[0] in "+-"))
    ensures AllDigits(c[j..])
  {
    j := if |c| > 0 && (c[0] == '-' || c[0] == '+') then 1 else 0;
  }

  /** White space t was cut from the front of s and c from the back of
      t; a sign-and-digits split of c then locates the layout in s. */
  lemma LayoutOfPieces(s: string, t: string, c: string, d: int) returns (i: int, k: int)
    requires |t| <= |s| && t == s[|s| - |t|..] && AllWhite(s[..|s| - |t|])
    requires |c| <= |t| && c == t[..|c|] && AllWhite(t[|c|..])
    requires 0 <= d < |c| && (d == 0 || (d == 1 && c[0] in "+-")) && AllDigits(c[d..])
    ensures IntegerTextAt(s, i, i + d, k)
  {
    i := |s| - |t|;
    k := i + |c|;
    assert AllWhite(s[k..]) by {
      assert s[k..] == t[|c|..];
    }
    assert AllDigits(s[i + d..k]) by {
      assert s[i + d..k] == c[d..];
    }
    assert d == 1 ==> s[i] == c[0];
  }

  /** Conversely, text int.Parse does not refuse with FormatException has
      that layout. */
  lemma ParsedTextHasLayout(s: string)
    requires ParseInt32(Some(s)) != Throws(FormatException)
    ensures exists i, j, k :: IntegerTextAt(s, i, j, k)
  {
    var t := TrimStart(s);
    var c := TrimEnd(t);
    var d := SignedHasDigits(c);
    var i, k := LayoutOfPieces(s, t, c, d);
  }

  /** int.Parse refuses with FormatException exactly the text that lacks the
      layout, and on text that has it yields the value it denotes or
      OverflowException. */
  lemma ParseInt32Outcomes(s: string)
    ensures ParseInt32(Some(s)) == Throws(FormatException) <==> forall i, j, k :: !IntegerTextAt(s, i, j, k)
    ensures forall i, j, k | IntegerTextAt(s, i, j, k) :: ParseInt32(Some(s)) == InRange(TextValue(s, i, j, k))
  {
    forall i, j, k | IntegerTextAt(s, i, j, k)
      ensures ParseInt32(Some(s)) == InRange(TextValue(s, i, j, k))
    {
      ParseIntegerText(s, i, j, k);
    }
    if ParseInt32(Some(s)) != Throws(FormatException) {
      ParsedTextHasLayout(s);
    }
  }
}
