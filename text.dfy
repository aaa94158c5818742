/** The string operations of Python that the modelled code relies on. */
module Text {

  /** The characters Python's `str.strip()` removes (`str.isspace()`). */
  predicate IsSpace(c: char) {
    c == ' ' || '\t' <= c <= '\r' || '\U{1C}' <= c <= '\U{1F}' || c == '\U{85}' || c == '\U{A0}'
    || c == '\U{1680}' || '\U{2000}' <= c <= '\U{200A}' || c == '\U{2028}' || c == '\U{2029}'
    || c == '\U{202F}' || c == '\U{205F}' || c == '\U{3000}'
  }

  /** `str.lstrip()`. */
  function TrimStart(s: string): (r: string)
    ensures |r| <= |s|
  {
    if s != [] && IsSpace(s[0]) then TrimStart(s[1..]) else s
  }

  /** `str.rstrip()`. */
  function TrimEnd(s: string): (r: string)
    ensures |r| <= |s|
  {
    if s != [] && IsSpace(s[|s| - 1]) then TrimEnd(s[..|s| - 1]) else s
  }

  /** `lstrip` removes exactly the white-space prefix: what is left is a suffix not starting with white space. */
  lemma {:induction false} TrimStartSpec(s: string)
    ensures TrimStart(s) == s[|s| - |TrimStart(s)|..]
    ensures TrimStart(s) == [] || !IsSpace(TrimStart(s)[0])
    ensures forall i :: 0 <= i < |s| - |TrimStart(s)| ==> IsSpace(s[i])
  {
    if s != [] && IsSpace(s[0]) {
      var t := s[1..];
      TrimStartSpec(t);
      assert TrimStart(s) == TrimStart(t);
      forall i | 0 < i < |s| - |TrimStart(s)| ensures IsSpace(s[i]) {
        assert s[i] == t[i - 1];
      }
    }
  }

  /** `rstrip` removes exactly the white-space suffix: what is left is a prefix not ending in white space. */
  lemma {:induction false} TrimEndSpec(s: string)
    ensures TrimEnd(s) == s[..|TrimEnd(s)|]
    ensures TrimEnd(s) == [] || !IsSpace(TrimEnd(s)[|TrimEnd(s)| - 1])
    ensures forall i :: |TrimEnd(s)| <= i < |s| ==> IsSpace(s[i])
  {
    if s != [] && IsSpace(s[|s| - 1]) {
      var t := s[..|s| - 1];
      TrimEndSpec(t);
      assert TrimEnd(s) == TrimEnd(t);
      forall i | |TrimEnd(s)| <= i < |s| - 1 ensures IsSpace(s[i]) {
        assert s[i] == t[i];
      }
    }
  }

  /** Number of leading whitespace characters of `s`. */
  function LeadingSpaces(s: string): (n: nat)
    ensures n <= |s|
  {
    |s| - |TrimStart(s)|
  }

  /**
   * Python's `str.strip()` with no argument: `lstrip` followed by `rstrip`.
   */
  function Strip(s: string): (r: string)
    ensures |r| <= |s|
  {
    TrimEnd(TrimStart(s))
  }

  /** What `Strip` removes: exactly a white-space prefix and a white-space suffix. */
  lemma StripSpec(s: string)
    ensures LeadingSpaces(s) + |Strip(s)| <= |s|
    ensures Strip(s) == s[LeadingSpaces(s)..LeadingSpaces(s) + |Strip(s)|]
    ensures forall k :: 0 <= k < LeadingSpaces(s) ==> IsSpace(s[k])
    ensures forall k :: LeadingSpaces(s) + |Strip(s)| <= k < |s| ==> IsSpace(s[k])
    ensures Strip(s) == [] || (!IsSpace(Strip(s)[0]) && !IsSpace(Strip(s)[|Strip(s)| - 1]))
  {
    var t := TrimStart(s);
    TrimStartSpec(s);
    TrimEndSpec(t);
    var r := TrimEnd(t);
    assert forall k :: LeadingSpaces(s) + |r| <= k < |s| ==> s[k] == t[k - LeadingSpaces(s)];
  }

  /** Stripping twice is stripping once. */
  lemma StripIdempotent(s: string)
    ensures Strip(Strip(s)) == Strip(s)
  {
    StripSpec(s);
    var r := Strip(s);
    assert TrimStart(r) == r;
    assert TrimEnd(r) == r;
  }

  /** ASCII lower-casing of one character (`str.lower()` on the Latin letters). */
  function LowerChar(c: char): char {
    if 'A' <= c <= 'Z' then (c as int + 32) as char else c
  }

  function Lower(s: string): (r: string)
    ensures |r| == |s|
    ensures forall i :: 0 <= i < |s| ==> r[i] == LowerChar(s[i])
  {
    seq(|s|, i requires 0 <= i < |s| => LowerChar(s[i]))
  }

  /** Lower-casing is idempotent. */
  lemma LowerIdempotent(s: string)
    ensures Lower(Lower(s)) == Lower(s)
  {
  }

  predicate StartsWith(s: string, prefix: string) {
    |prefix| <= |s| && s[..|prefix|] == prefix
  }

  /** Python's `pattern in s` for strings: `pattern` occurs as a contiguous slice of `s`. */
  predicate Contains(s: string, pattern: string)
    decreases |s|
  {
    StartsWith(s, pattern) || (s != [] && Contains(s[1..], pattern))
  }

  /** `Contains` finds exactly the slices of `s` that equal the pattern. */
  lemma {:induction false} ContainsAt(s: string, pattern: string, i: nat)
    requires i + |pattern| <= |s| && s[i..i + |pattern|] == pattern
    ensures Contains(s, pattern)
  {
    if i > 0 {
      assert s[1..][i - 1..i - 1 + |pattern|] == pattern;
      ContainsAt(s[1..], pattern, i - 1);
    }
  }

  /** A character of the pattern must occur in any string that contains it. */
  lemma {:induction false} ContainsChar(s: string, pattern: string, k: nat)
    requires Contains(s, pattern) && k < |pattern|
    ensures pattern[k] in s
  {
    if StartsWith(s, pattern) {
      assert s[k] == pattern[k];
    } else {
      ContainsChar(s[1..], pattern, k);
    }
  }

  /** Python's `a <= b` on strings: lexicographic by code point, a prefix first. */
  predicate LexLe(a: string, b: string) {
    if a == [] then true
    else if b == [] then false
    else if a[0] != b[0] then a[0] < b[0]
    else LexLe(a[1..], b[1..])
  }

  lemma {:induction false} LexLeTotal(a: string, b: string)
    ensures LexLe(a, b) || LexLe(b, a)
  {
    if a != [] && b != [] && a[0] == b[0] {
      LexLeTotal(a[1..], b[1..]);
    }
  }

  lemma {:induction false} LexLeAntisymmetric(a: string, b: string)
    requires LexLe(a, b) && LexLe(b, a)
    ensures a == b
  {
    if a != [] && b != [] {
      LexLeAntisymmetric(a[1..], b[1..]);
      assert a == [a[0]] + a[1..] && b == [b[0]] + b[1..];
    }
  }

  lemma {:induction false} LexLeTransitive(a: string, b: string, c: string)
    requires LexLe(a, b) && LexLe(b, c)
    ensures LexLe(a, c)
  {
    if a != [] && b != [] && c != [] && a[0] == b[0] && b[0] == c[0] {
      LexLeTransitive(a[1..], b[1..], c[1..]);
    }
  }
}
