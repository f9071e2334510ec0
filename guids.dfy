/** System.Guid as the storefront uses it: a user's Id is written into the
    session with Guid.ToString() and read back with Guid.Parse. A Guid is
    its 32 hexadecimal digits; its text is the "D" format
    xxxxxxxx-xxxx-xxxx-xxxx-xxxxxxxxxxxx in lower case. */
module Guids {
  import opened Runtime

  type Nibble = x: int | 0 <= x < 16

  type Guid = s: seq<Nibble> | |s| == 32 witness seq(32, _ => 0)

  /** The hyphen positions of the "D" format. */
  predicate IsHyphenAt(i: int)
  {
    i == 8 || i == 13 || i == 18 || i == 23
  }

  /** Where the k-th hex digit of a Guid sits in its 36-character text. */
  function TextIndex(k: int): (i: int)
    requires 0 <= k < 32
    ensures 0 <= i < 36 && !IsHyphenAt(i)
  {
    if k < 8 then k
    else if k < 12 then k + 1
    else if k < 16 then k + 2
    else if k < 20 then k + 3
    else k + 4
  }

  /** Which hex digit of a Guid sits at text position i. */
  function DigitIndex(i: int): (k: int)
    requires 0 <= i < 36 && !IsHyphenAt(i)
    ensures 0 <= k < 32 && TextIndex(k) == i
  {
    if i < 8 then i
    else if i < 13 then i - 1
    else if i < 18 then i - 2
    else if i < 23 then i - 3
    else i - 4
  }

  predicate IsHexChar(c: char)
  {
    '0' <= c <= '9' || 'a' <= c <= 'f' || 'A' <= c <= 'F'
  }

  /** A lower-case hex digit. */
  function HexChar(n: Nibble): (c: char)
    ensures IsHexChar(c) && !('A' <= c <= 'F')
  {
    if n < 10 then ('0' as int + n) as char else ('a' as int + n - 10) as char
  }

  /** The value of a hex digit of either case. */
  function HexValue(c: char): Nibble
    requires IsHexChar(c)
  {
    if c <= '9' then c as int - '0' as int
    else if c <= 'F' then c as int - 'A' as int + 10
    else c as int - 'a' as int + 10
  }

  /** Lower-cases the hex letters A-F and leaves every other character alone. */
  function LowerHex(c: char): char
  {
    if 'A' <= c <= 'F' then (c as int + 32) as char else c
  }

  /** Guid.ToString(): the "D" format in lower case. */
  function GuidText(g: Guid): (s: string)
    ensures IsGuidText(s)
    ensures forall i :: 0 <= i < |s| ==> !('A' <= s[i] <= 'F')
  {
    seq(36, i requires 0 <= i < 36 => if IsHyphenAt(i) then '-' else HexChar(g[DigitIndex(i)]))
  }

  /** Text that Guid.Parse accepts in the "D" format. */
  predicate IsGuidText(s: string)
  {
    |s| == 36 &&
    forall i :: 0 <= i < 36 ==> if IsHyphenAt(i) then s[i] == '-' else IsHexChar(s[i])
  }

  /** Guid.Parse on "D"-format text; anything else throws FormatException. */
  function ParseGuid(s: string): (r: Outcome<Guid>)
    ensures r.Returns? <==> IsGuidText(s)
  {
    if IsGuidText(s) then
      Returns(seq(32, k requires 0 <= k < 32 => HexValue(s[TextIndex(k)])))
    else
      Throws(FormatException)
  }

  lemma HexRoundTrip(n: Nibble)
    ensures HexValue(HexChar(n)) == n
  {
  }

  lemma HexCaseInsensitive(c: char)
    requires IsHexChar(c)
    ensures HexChar(HexValue(c)) == LowerHex(c)
  {
  }

  /** Guid.Parse(g.ToString()) == g. */
  lemma ParseGuidText(g: Guid)
    ensures ParseGuid(GuidText(g)) == Returns(g)
  {
    var s := GuidText(g);
    forall i | 0 <= i < 36
      ensures if IsHyphenAt(i) then s[i] == '-' else IsHexChar(s[i])
    {
    }
    assert IsGuidText(s);
    var h: Guid := ParseGuid(s).value;
    forall k | 0 <= k < 32
      ensures h[k] == g[k]
    {
      var i := TextIndex(k);
      assert DigitIndex(i) == k;
      HexRoundTrip(g[k]);
    }
    assert h == g;
  }

  /** Parsing and re-printing a Guid text gives back the text with its hex
      letters lower-cased, so Guid.Parse ignores the case of hex letters. */
  lemma GuidTextOfParse(s: string)
    requires ParseGuid(s).Returns?
    ensures GuidText(ParseGuid(s).value) == seq(36, i requires 0 <= i < 36 => LowerHex(s[i]))
  {
    var g := ParseGuid(s).value;
    var t := GuidText(g);
    forall i | 0 <= i < 36
      ensures t[i] == LowerHex(s[i])
    {
      if !IsHyphenAt(i) {
        var k := DigitIndex(i);
        assert g[k] == HexValue(s[TextIndex(k)]);
        HexCaseInsensitive(s[i]);
      }
    }
  }

  /** Distinct Guids have distinct texts. */
  lemma GuidTextInjective(g1: Guid, g2: Guid)
    requires GuidText(g1) == GuidText(g2)
    ensures g1 == g2
  {
    ParseGuidText(g1);
    ParseGuidText(g2);
  }
}
