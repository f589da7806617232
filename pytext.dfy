/** The parts of Python's `str` that the ingestion code relies on:
    `isspace`, `strip`, `lstrip(chars)` and `str(int)` for non-negative integers. */
module PyText {

  /** Python's `str.isspace()` for one character: the ASCII whitespace
      and separator controls, NEL, and the Unicode space separators. */
  predicate IsSpace(c: char) {
    c in {' ', '\t', '\n', '\r', '\U{000B}', '\U{000C}',
          '\U{001C}', '\U{001D}', '\U{001E}', '\U{001F}',
          '\U{0085}', '\U{00A0}', '\U{1680}',
          '\U{2000}', '\U{2001}', '\U{2002}', '\U{2003}', '\U{2004}', '\U{2005}',
          '\U{2006}', '\U{2007}', '\U{2008}', '\U{2009}', '\U{200A}',
          '\U{2028}', '\U{2029}', '\U{202F}', '\U{205F}', '\U{3000}'}
  }

  predicate IsDot(c: char) { c == '.' }

  /** `s.lstrip(chars)` where `strip(c)` says which characters are in `chars`:
      the result is a suffix of `s`, everything cut off is strippable, and the
      result does not start with a strippable character. */
  function LStripBy(s: string, strip: char -> bool): (r: string)
    ensures |r| <= |s|
    ensures forall j :: 0 <= j < |s| - |r| ==> strip(s[j])
    ensures r != [] ==> !strip(r[0])
  {
    if s == [] || !strip(s[0]) then s else LStripBy(s[1..], strip)
  }

  /** What `LStripBy` leaves is a suffix of the text. */
  lemma {:induction false} LStripBySuffix(s: string, strip: char -> bool)
    ensures LStripBy(s, strip) == s[|s| - |LStripBy(s, strip)|..]
  {
    if s != [] && strip(s[0]) {
      LStripBySuffix(s[1..], strip);
    }
  }

  /** `s.rstrip(chars)`, the mirror image of `LStripBy`. */
  function RStripBy(s: string, strip: char -> bool): (r: string)
    ensures |r| <= |s| && r == s[..|r|]
    ensures forall j :: |r| <= j < |s| ==> strip(s[j])
    ensures r != [] ==> !strip(r[|r| - 1])
  {
    if s == [] || !strip(s[|s| - 1]) then s else RStripBy(s[..|s| - 1], strip)
  }

  /** `s.strip()` with no argument: whitespace removed at both ends. */
  function Strip(s: string): string {
    RStripBy(LStripBy(s, IsSpace), IsSpace)
  }

  /** `s` holds a character that is not whitespace. */
  predicate HasText(s: string) {
    s != [] && (!IsSpace(s[0]) || HasText(s[1..]))
  }

  lemma {:induction false} HasTextExists(s: string)
    ensures HasText(s) <==> exists i :: 0 <= i < |s| && !IsSpace(s[i])
  {
    if s != [] {
      HasTextExists(s[1..]);
      if IsSpace(s[0]) && exists i :: 0 <= i < |s| && !IsSpace(s[i]) {
        var i :| 0 <= i < |s| && !IsSpace(s[i]);
        assert s[1..][i - 1] == s[i];
      }
    }
  }

  /** The truth value of `s.strip()`: the stripped text is non-empty exactly
      when the text has a non-whitespace character. */
  lemma StripNonEmptyIff(s: string)
    ensures Strip(s) != "" <==> HasText(s)
  {
    HasTextExists(s);
    var l := LStripBy(s, IsSpace);
    LStripBySuffix(s, IsSpace);
    if Strip(s) != "" {
      var i := |s| - |l|;
      assert l[0] == s[i] && !IsSpace(s[i]);
    }
  }

  function DigitChar(d: nat): (c: char)
    requires d < 10
    ensures '0' <= c <= '9' && (c as int) - ('0' as int) == d
  {
    (('0' as int) + d) as char
  }

  predicate IsDigits(s: string) {
    forall k :: 0 <= k < |s| ==> '0' <= s[k] <= '9'
  }

  /** Python's `str(n)` for a non-negative integer: its decimal digits, most
      significant first, with no leading zero. */
  function NatToString(n: nat): (s: string)
    ensures |s| >= 1 && IsDigits(s)
    ensures |s| > 1 ==> s[0] != '0'
  {
    if n < 10 then [DigitChar(n)] else NatToString(n / 10) + [DigitChar(n % 10)]
  }

  /** The decimal value of a digit string (the inverse of `NatToString`). */
  function DigitsValue(s: string): nat
    requires IsDigits(s)
  {
    if s == [] then 0
    else DigitsValue(s[..|s| - 1]) * 10 + ((s[|s| - 1] as int) - ('0' as int))
  }

  /** Reading back the rendered digits gives the number. */
  lemma {:induction false} NatToStringRoundTrip(n: nat)
    ensures DigitsValue(NatToString(n)) == n
  {
    if n >= 10 {
      NatToStringRoundTrip(n / 10);
      var s := NatToString(n);
      assert s[..|s| - 1] == NatToString(n / 10);
    }
  }

  /** Different numbers render differently. */
  lemma NatToStringInjective(a: nat, b: nat)
    ensures NatToString(a) == NatToString(b) ==> a == b
  {
    NatToStringRoundTrip(a);
    NatToStringRoundTrip(b);
  }
}
