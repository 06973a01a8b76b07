/** String primitives the search code relies on: ASCII lower-casing
    (`toLowerCase`), substring containment (`includes`), ECMAScript `trim`,
    and decimal digit strings (`\d+`, `parseInt(_, 10)`, `${n}`). */
module Text {

  /* ---------- characters ---------- */

  predicate IsDigit(c: char) { '0' <= c <= '9' }

  predicate IsDigits(s: string) {
    forall i :: 0 <= i < |s| ==> IsDigit(s[i])
  }

  predicate IsAsciiUpper(c: char) { 'A' <= c <= 'Z' }

  /** The letters `[a-z]` matches under the `i` flag. */
  predicate IsAsciiLetter(c: char) { 'a' <= c <= 'z' || 'A' <= c <= 'Z' }

  /** `toLowerCase` restricted to ASCII. */
  function LowerChar(c: char): char {
    if IsAsciiUpper(c) then (c as int + 32) as char else c
  }

  function Lower(s: string): string {
    seq(|s|, i requires 0 <= i < |s| => LowerChar(s[i]))
  }

  /** Lower-casing leaves a string without upper-case letters unchanged. */
  lemma LowerNoUpper(s: string)
    requires forall i :: 0 <= i < |s| ==> !IsAsciiUpper(s[i])
    ensures Lower(s) == s
  {
  }

  /* ---------- substring containment ---------- */

  /** `n` occurs in `h` starting at index `i`. */
  predicate OccursAt(h: string, n: string, i: int) {
    0 <= i && i + |n| <= |h| && h[i..i + |n|] == n
  }

  /** `h.includes(n)`: scans the start positions of `h` from the left; it
      holds exactly when `n` occurs at some position. */
  function Contains(h: string, n: string): (r: bool)
    ensures r <==> exists i :: OccursAt(h, n, i)
    decreases |h|
  {
    if |n| > |h| then false
    else if h[..|n|] == n then
      assert OccursAt(h, n, 0);
      true
    else
      var rest := Contains(h[1..], n);
      assert rest ==> exists i :: OccursAt(h, n, i) by {
        if rest {
          var i :| OccursAt(h[1..], n, i);
          assert h[1..][i..i + |n|] == h[i + 1..i + 1 + |n|];
          assert OccursAt(h, n, i + 1);
        }
      }
      assert (exists i :: OccursAt(h, n, i)) ==> rest by {
        forall i | OccursAt(h, n, i) ensures OccursAt(h[1..], n, i - 1) {
          assert h[1..][i - 1..i - 1 + |n|] == h[i..i + |n|];
        }
      }
      rest
  }

  /** Every string contains the empty string. */
  lemma ContainsEmpty(h: string)
    ensures Contains(h, "")
  {
    assert h[..0] == "";
  }

  /** A needle occurring at a known position is contained. */
  lemma ContainsAt(h: string, n: string, i: int)
    requires OccursAt(h, n, i)
    ensures Contains(h, n)
  {
  }

  /** A non-empty needle can only occur if its first character does. */
  lemma ContainsFirstChar(h: string, n: string)
    requires |n| > 0
    requires Contains(h, n)
    ensures n[0] in h
  {
    var i :| OccursAt(h, n, i);
    assert h[i] == n[0];
  }

  /* ---------- ECMAScript String.prototype.trim ---------- */

  /** WhiteSpace and LineTerminator code points of ECMAScript (section 12.2
      and 12.3 of ECMA-262), the set `trim` strips. */
  predicate IsWhitespace(c: char) {
    var u := c as int;
    || u == 0x09 || u == 0x0B || u == 0x0C || u == 0x20 || u == 0xA0 || u == 0xFEFF
    || u == 0x1680 || (0x2000 <= u <= 0x200A) || u == 0x202F || u == 0x205F || u == 0x3000
    || u == 0x0A || u == 0x0D || u == 0x2028 || u == 0x2029
  }

  predicate AllWhitespace(s: string) {
    forall i :: 0 <= i < |s| ==> IsWhitespace(s[i])
  }

  /** Drops the leading whitespace: the result is the suffix of `s` that
      starts at its first non-whitespace character. */
  function TrimStart(s: string): (r: string)
    ensures |r| <= |s| && r == s[|s| - |r|..]
    ensures AllWhitespace(s[..|s| - |r|])
    ensures |r| > 0 ==> !IsWhitespace(r[0])
  {
    if |s| > 0 && IsWhitespace(s[0]) then TrimStart(s[1..]) else s
  }

  /** Drops the trailing whitespace: the result is the prefix of `s` that
      ends at its last non-whitespace character. */
  function TrimEnd(s: string): (r: string)
    ensures |r| <= |s| && r == s[..|r|]
    ensures AllWhitespace(s[|r|..])
    ensures |r| > 0 ==> !IsWhitespace(r[|r| - 1])
  {
    if |s| > 0 && IsWhitespace(s[|s| - 1]) then TrimEnd(s[..|s| - 1]) else s
  }

  /** `s` is whitespace up to `a`, then `r`, then whitespace to the end. */
  predicate TrimmedAt(s: string, r: string, a: int) {
    && 0 <= a <= |s| - |r| && r == s[a..a + |r|]
    && AllWhitespace(s[..a]) && AllWhitespace(s[a + |r|..])
  }

  /** `s.trim()`: `s` is some whitespace, then the result, then some more
      whitespace, and the result neither starts nor ends with whitespace. */
  function Trim(s: string): (r: string)
    ensures exists a :: TrimmedAt(s, r, a)
    ensures |r| > 0 ==> !IsWhitespace(r[0]) && !IsWhitespace(r[|r| - 1])
  {
    var t := TrimStart(s);
    var r := TrimEnd(t);
    TrimParts(s, t, r);
    r
  }

  /** A whitespace prefix cut from `s`, then a whitespace suffix cut from
      what is left, leaves a middle part of `s` between the two. */
  lemma TrimParts(s: string, t: string, r: string)
    requires |t| <= |s| && t == s[|s| - |t|..] && AllWhitespace(s[..|s| - |t|])
    requires |r| <= |t| && r == t[..|r|] && AllWhitespace(t[|r|..])
    requires |t| > 0 ==> !IsWhitespace(t[0])
    ensures TrimmedAt(s, r, |s| - |t|)
    ensures |r| > 0 ==> !IsWhitespace(r[0])
  {
    var a := |s| - |t|;
    assert s[a..a + |r|] == t[..|r|];
    assert s[a + |r|..] == t[|r|..];
    assert |r| > 0 ==> r[0] == t[0];
  }

  /** The trimmed text is empty exactly when every character is whitespace,
      which is when `if (s.trim())` does not fire. */
  lemma TrimEmptyIff(s: string)
    ensures Trim(s) == "" <==> AllWhitespace(s)
  {
    var r := Trim(s);
    var a :| TrimmedAt(s, r, a);
    if r == "" {
      AllWhitespaceJoin(s, a);
    } else {
      assert s[a] == r[0];
    }
  }

  /** A string that is whitespace before and from `a` on is all whitespace. */
  lemma AllWhitespaceJoin(s: string, a: int)
    requires 0 <= a <= |s| && AllWhitespace(s[..a]) && AllWhitespace(s[a..])
    ensures AllWhitespace(s)
  {
    forall i | 0 <= i < |s| ensures IsWhitespace(s[i]) {
      if i < a { assert s[..a][i] == s[i]; } else { assert s[a..][i - a] == s[i]; }
    }
  }

  /** Trimming is idempotent. */
  lemma TrimIdempotent(s: string)
    ensures Trim(Trim(s)) == Trim(s)
  {
    var r := Trim(s);
    assert TrimStart(r) == r;
    assert TrimEnd(r) == r;
  }

  /** A string that neither starts nor ends with whitespace is its own trim. */
  lemma TrimNoop(s: string)
    requires |s| > 0 ==> !IsWhitespace(s[0]) && !IsWhitespace(s[|s| - 1])
    ensures Trim(s) == s
  {
  }

  /* ---------- decimal digits ---------- */

  function DigitValue(c: char): (d: nat)
    requires IsDigit(c)
    ensures d < 10
  {
    c as int - '0' as int
  }

  function DigitChar(d: nat): (c: char)
    requires d < 10
    ensures IsDigit(c) && DigitValue(c) == d
  {
    ('0' as int + d) as char
  }

  /** `parseInt(s, 10)` of a string of ASCII digits, most significant first. */
  function ParseNat(s: string): nat
    requires IsDigits(s)
  {
    if |s| == 0 then 0 else 10 * ParseNat(s[..|s| - 1]) + DigitValue(s[|s| - 1])
  }

  /** The decimal rendering of `n` that a template literal `${n}` produces. */
  function NatToString(n: nat): (s: string)
    ensures |s| > 0 && IsDigits(s)
  {
    if n < 10 then [DigitChar(n)] else NatToString(n / 10) + [DigitChar(n % 10)]
  }

  /** Parsing a rendered number gives the number back. */
  lemma {:induction false} ParseNatToString(n: nat)
    ensures ParseNat(NatToString(n)) == n
  {
    var s := NatToString(n);
    if n >= 10 {
      assert s[..|s| - 1] == NatToString(n / 10);
      ParseNatToString(n / 10);
    } else {
      assert s[..|s| - 1] == "";
    }
  }

  /** Distinct numbers render to distinct strings. */
  lemma NatToStringInjective(m: nat, n: nat)
    requires NatToString(m) == NatToString(n)
    ensures m == n
  {
    ParseNatToString(m);
    ParseNatToString(n);
  }

  /** Length of the longest run of digits at the start of `s`. */
  function LeadingDigitCount(s: string): (k: nat)
    ensures k <= |s| && IsDigits(s[..k])
    ensures k < |s| ==> !IsDigit(s[k])
  {
    if |s| > 0 && IsDigit(s[0]) then
      var k := 1 + LeadingDigitCount(s[1..]);
      assert s[..k] == [s[0]] + s[1..][..k - 1];
      k
    else 0
  }

  /** Length of the longest run of digits at the end of `s`. */
  function TrailingDigitCount(s: string): (k: nat)
    ensures k <= |s| && IsDigits(s[|s| - k..])
    ensures k < |s| ==> !IsDigit(s[|s| - k - 1])
  {
    if |s| > 0 && IsDigit(s[|s| - 1]) then
      var p := s[..|s| - 1];
      var j := TrailingDigitCount(p);
      assert s[|s| - j - 1..] == p[|p| - j..] + [s[|s| - 1]];
      DigitsAppend(p[|p| - j..], s[|s| - 1]);
      assert j + 1 < |s| ==> s[|s| - j - 2] == p[|p| - j - 1];
      j + 1
    else 0
  }

  lemma DigitsAppend(d: string, c: char)
    requires IsDigits(d) && IsDigit(c)
    ensures IsDigits(d + [c])
  {
    assert forall i :: 0 <= i < |d| ==> (d + [c])[i] == d[i];
  }

  /** A digit run followed by a non-digit is exactly the leading run. */
  lemma LeadingDigitsOfConcat(d: string, x: string)
    requires IsDigits(d)
    requires |x| > 0 ==> !IsDigit(x[0])
    ensures LeadingDigitCount(d + x) == |d|
  {
    var s := d + x;
    assert |x| > 0 ==> s[|d|] == x[0];
    assert forall j :: 0 <= j < |d| ==> s[j] == d[j];
  }

  /** A digit run preceded by a non-digit is exactly the trailing run. */
  lemma TrailingDigitsOfConcat(x: string, d: string)
    requires IsDigits(d)
    requires |x| > 0 ==> !IsDigit(x[|x| - 1])
    ensures TrailingDigitCount(x + d) == |d|
  {
    var s := x + d;
    assert |x| > 0 ==> s[|x| - 1] == x[|x| - 1];
    assert forall j :: 0 <= j < |d| ==> s[|x| + j] == d[j];
  }
}
