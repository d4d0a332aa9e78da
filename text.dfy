/** Character classes and string helpers shared by the client and the server.
    JavaScript regular expressions without the `u` flag treat `\w` and `\b`
    as ASCII notions; `\s` and `String.prototype.trim` use the Unicode
    white-space and line-terminator set listed in IsWhitespace. */
module Text {

  /** `\s` in a JavaScript regular expression, and what `trim()` removes. */
  predicate IsWhitespace(c: char) {
    var n := c as int;
    n == 0x20 || (0x09 <= n <= 0x0D) || n == 0xA0 || n == 0x1680
    || (0x2000 <= n <= 0x200A) || n == 0x2028 || n == 0x2029
    || n == 0x202F || n == 0x205F || n == 0x3000 || n == 0xFEFF
  }

  /** `\w`: ASCII letters, digits and underscore. */
  predicate IsWordChar(c: char) {
    ('a' <= c <= 'z') || ('A' <= c <= 'Z') || ('0' <= c <= '9') || c == '_'
  }

  predicate IsAllWhitespace(s: string) {
    forall i :: 0 <= i < |s| ==> IsWhitespace(s[i])
  }

  /** ASCII lower-casing of one character. */
  function LowerChar(c: char): (r: char)
    ensures 'A' <= c <= 'Z' ==> 'a' <= r <= 'z' && r as int == c as int + 32
    ensures !('A' <= c <= 'Z') ==> r == c
  {
    if 'A' <= c <= 'Z' then (c as int + 32) as char else c
  }

  /** `toLowerCase()`, restricted to the ASCII letters. */
  function Lower(s: string): (r: string)
    ensures |r| == |s|
    ensures forall i :: 0 <= i < |s| ==> r[i] == LowerChar(s[i])
  {
    seq(|s|, i requires 0 <= i < |s| => LowerChar(s[i]))
  }

  /** How many white-space characters `s` starts with. */
  function LeadingSpace(s: string): (n: nat)
    ensures n <= |s|
    ensures forall i :: 0 <= i < n ==> IsWhitespace(s[i])
    ensures n < |s| ==> !IsWhitespace(s[n])
  {
    if s == [] || !IsWhitespace(s[0]) then 0 else 1 + LeadingSpace(s[1..])
  }

  /** Where the white space that `s` ends with begins. */
  function TrailingSpace(s: string): (n: nat)
    ensures n <= |s|
    ensures forall i :: n <= i < |s| ==> IsWhitespace(s[i])
    ensures 0 < n ==> !IsWhitespace(s[n - 1])
  {
    if s == [] || !IsWhitespace(s[|s| - 1]) then |s| else TrailingSpace(s[..|s| - 1])
  }

  /** `r` is what is left of `s` once the white space at both ends is cut
      off: `r` sits at `a` in `s`, only white space surrounds it, and `r`
      neither starts nor ends with white space. */
  predicate TrimmedAt(s: string, r: string, a: nat) {
    a + |r| <= |s| && s[a..a + |r|] == r
    && IsAllWhitespace(s[..a]) && IsAllWhitespace(s[a + |r|..])
    && (r == [] || (!IsWhitespace(r[0]) && !IsWhitespace(r[|r| - 1])))
  }

  /** `trim()`: white space removed at both ends, and nothing else. The
      result is empty exactly when the input is all white space. */
  function Trim(s: string): (r: string)
    ensures |r| <= |s|
    ensures Contains(s, r)
    ensures exists a: nat :: TrimmedAt(s, r, a)
    ensures r == [] || (!IsWhitespace(r[0]) && !IsWhitespace(r[|r| - 1]))
    ensures r == [] <==> IsAllWhitespace(s)
  {
    var start := LeadingSpace(s);
    var rest := s[start..];
    var r := rest[..TrailingSpace(rest)];
    TrimProps(s, start, rest, r);
    r
  }

  lemma TrimProps(s: string, start: nat, rest: string, r: string)
    requires start == LeadingSpace(s) && rest == s[start..] && r == rest[..TrailingSpace(rest)]
    ensures Contains(s, r)
    ensures TrimmedAt(s, r, start)
    ensures r == [] || (!IsWhitespace(r[0]) && !IsWhitespace(r[|r| - 1]))
    ensures r == [] <==> IsAllWhitespace(s)
  {
    assert s[start..start + |r|] == r;
    assert OccursAt(s, r, start);
    assert s[start + |r|..] == rest[|r|..];
    if r != [] {
      assert r[0] == s[start];
    }
  }

  /** At most one string is `s` trimmed: `trim()` removes exactly the white
      space at the ends. */
  lemma TrimmedUnique(s: string, r1: string, a1: nat, r2: string, a2: nat)
    requires TrimmedAt(s, r1, a1) && TrimmedAt(s, r2, a2)
    ensures r1 == r2
  {
    TrimmedBlank(s, r1, a1);
    TrimmedBlank(s, r2, a2);
  }

  lemma TrimmedBlank(s: string, r: string, a: nat)
    requires TrimmedAt(s, r, a)
    ensures r == [] <==> IsAllWhitespace(s)
  {
    if r == [] {
      forall i | 0 <= i < |s|
        ensures IsWhitespace(s[i])
      {
        if i < a {
          assert s[..a][i] == s[i];
        } else {
          assert s[a..][i - a] == s[i];
        }
      }
    } else {
      assert s[a] == r[0];
    }
  }

  /** `pat` occurs in `s` starting at index `i`. */
  predicate OccursAt(s: string, pat: string, i: nat) {
    i + |pat| <= |s| && s[i..i + |pat|] == pat
  }

  /** `s.includes(pat)`. */
  predicate Contains(s: string, pat: string) {
    exists i: nat :: i <= |s| && OccursAt(s, pat, i)
  }

  lemma ContainsInfix(a: string, pat: string, b: string)
    ensures Contains(a + pat + b, pat)
  {
    var s := a + pat + b;
    assert s[|a|..|a| + |pat|] == pat;
    assert |a| <= |s| && OccursAt(s, pat, |a|);
  }

  /** A one-character pattern occurs exactly when the character does. */
  lemma ContainsChar(s: string, c: char)
    ensures Contains(s, [c]) <==> c in s
  {
    if c in s {
      var i :| 0 <= i < |s| && s[i] == c;
      assert s[i..i + 1] == [c];
      assert i <= |s| && OccursAt(s, [c], i);
    }
    if Contains(s, [c]) {
      var i: nat :| i <= |s| && OccursAt(s, [c], i);
      assert s[i] == s[i..i + 1][0];
    }
  }

  /** The part of `s` before the first occurrence of `c` (all of `s` when
      there is none): `s.split(c)[0]`. */
  function BeforeFirst(s: string, c: char): (r: string)
    ensures c !in r
    ensures |r| <= |s| && r == s[..|r|]
    ensures |r| < |s| ==> s[|r|] == c
  {
    if s == [] || s[0] == c then []
    else [s[0]] + BeforeFirst(s[1..], c)
  }
}
