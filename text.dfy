/** The two string built-ins the registry relies on: `String.prototype.trim`
    (applied to both form fields before validation) and
    `String.prototype.toLowerCase` (used for every name comparison). */
module Text {

  /** ECMAScript WhiteSpace and LineTerminator code points: exactly what
      `trim` strips from both ends. */
  predicate IsWhitespace(c: char)
    ensures c as int < 0x80 ==> (IsWhitespace(c) <==> c == ' ' || '\t' <= c <= '\r')
    ensures IsUpper(c) || 'a' <= c <= 'z' || '0' <= c <= '9' ==> !IsWhitespace(c)
  {
    c == '\t' || c == '\n' || c == '\U{000B}' || c == '\U{000C}' || c == '\r' ||
    c == ' ' || c == '\U{00A0}' || c == '\U{1680}' ||
    ('\U{2000}' <= c <= '\U{200A}') ||
    c == '\U{2028}' || c == '\U{2029}' || c == '\U{202F}' || c == '\U{205F}' ||
    c == '\U{3000}' || c == '\U{FEFF}'
  }

  /** Every character of `s` from index `i` up to `j` is whitespace. */
  predicate BlankBetween(s: string, i: nat, j: nat)
    requires i <= j <= |s|
  {
    forall k :: i <= k < j ==> IsWhitespace(s[k])
  }

  /** Neither end of `s` is whitespace: what `trim` returns. */
  predicate Trimmed(s: string) {
    s != [] ==> !IsWhitespace(s[0]) && !IsWhitespace(s[|s| - 1])
  }

  /** Where the text starts: the first index from `i` on that is not
      whitespace, or `|s|` when there is none. */
  function TextStart(s: string, i: nat): (n: nat)
    requires i <= |s|
    ensures i <= n <= |s| && BlankBetween(s, i, n)
    ensures n < |s| ==> !IsWhitespace(s[n])
    decreases |s| - i
  {
    if i < |s| && IsWhitespace(s[i]) then TextStart(s, i + 1) else i
  }

  /** Where the text ends: going back from `j`, but not below `lo`, the
      index after the last character that is not whitespace. */
  function TextEnd(s: string, lo: nat, j: nat): (m: nat)
    requires lo <= j <= |s|
    ensures lo <= m <= j && BlankBetween(s, m, j)
    ensures lo < m ==> !IsWhitespace(s[m - 1])
    decreases j
  {
    if lo < j && IsWhitespace(s[j - 1]) then TextEnd(s, lo, j - 1) else j
  }

  /** `s.trim()`: the middle of `s` between a whitespace prefix and a
      whitespace suffix, with neither end whitespace. */
  function Trim(s: string): (r: string)
    ensures Trimmed(r)
    ensures exists lo, hi :: 0 <= lo <= hi <= |s| && r == s[lo..hi] &&
                             BlankBetween(s, 0, lo) && BlankBetween(s, hi, |s|)
  {
    var lo := TextStart(s, 0);
    var hi := TextEnd(s, lo, |s|);
    assert BlankBetween(s, 0, lo) && BlankBetween(s, hi, |s|);
    s[lo..hi]
  }

  /** `trim` leaves nothing exactly when the input was all whitespace: this
      is what makes a blank form field count as empty. */
  lemma TrimEmptyIffBlank(s: string)
    ensures Trim(s) == [] <==> BlankBetween(s, 0, |s|)
  {
  }

  /** Trimming a trimmed string changes nothing. */
  lemma TrimOfTrimmed(s: string)
    requires Trimmed(s)
    ensures Trim(s) == s
  {
    if s != [] {
      assert TextStart(s, 0) == 0;
      assert TextEnd(s, 0, |s|) == |s|;
    }
  }

  /** Trimming twice is trimming once. */
  lemma TrimIdempotent(s: string)
    ensures Trim(Trim(s)) == Trim(s)
  {
    TrimOfTrimmed(Trim(s));
  }

  /** `toLowerCase` on one character, for the Basic Latin and Latin-1
      capital letters (U+0041..U+005A, U+00C0..U+00D6, U+00D8..U+00DE),
      each of which maps to the letter 0x20 above it; every other character
      is its own lower case. */
  function LowerChar(c: char): (r: char)
    ensures IsUpper(c) ==> r as int == c as int + 0x20 && !IsUpper(r)
    ensures !IsUpper(c) ==> r == c
  {
    if IsUpper(c) then (c as int + 0x20) as char else c
  }

  predicate IsUpper(c: char) {
    ('A' <= c <= 'Z') || ('\U{00C0}' <= c <= '\U{00D6}') || ('\U{00D8}' <= c <= '\U{00DE}')
  }

  /** `s.toLowerCase()`, character by character. */
  function Lower(s: string): (r: string)
    ensures |r| == |s|
    ensures forall k :: 0 <= k < |s| ==> !IsUpper(r[k])
    ensures forall k :: 0 <= k < |s| && IsUpper(s[k]) ==> r[k] as int == s[k] as int + 0x20
    ensures forall k :: 0 <= k < |s| && !IsUpper(s[k]) ==> r[k] == s[k]
  {
    seq(|s|, k requires 0 <= k < |s| => LowerChar(s[k]))
  }

  /** Lower-casing is idempotent. */
  lemma LowerIdempotent(s: string)
    ensures Lower(Lower(s)) == Lower(s)
  {
  }

  /** The duplicate checks' comparison `a.toLowerCase() === b.toLowerCase()`:
      equal length and, position by position, characters with the same
      lower case. */
  predicate SameName(a: string, b: string)
    ensures SameName(a, b) <==>
              |a| == |b| && forall k :: 0 <= k < |a| ==> LowerChar(a[k]) == LowerChar(b[k])
  {
    Lower(a) == Lower(b)
  }
}
